/** The pb_dec_* field decoders of pb_decode.c, for fields without submessages. */
module FieldDecoders {
  import opened Bits
  import opened Descriptors
  import opened Varints
  import opened Decoding
  import opened InputStreams

  method PbDecBool(stream: IStream) returns (ok: bool, dest: Value)
    requires stream.Valid()
    modifies stream
    ensures stream.Valid() && stream.End() == old(stream.End())
    ensures Outcome(ok, dest, stream.Left(), DecBool(old(stream.Left())))
  {
    hide DecodeVarint32;
    var value;
    ok, value := DecodeVarint32Value(stream);
    dest := VBool(value != 0);
  }

  /** The common end of the integer decoders: cast to the size of the field, and check
      that the cast lost nothing. */
  method StoreClamped(stream: IStream, i: int, size: nat, signed: bool) returns (ok: bool, dest: Value)
    requires stream.Valid()
    ensures Outcome(ok, dest, stream.Left(), Clamp(i, size, signed, stream.Left()))
  {
    hide Cast;
    dest := VNum(i);
    var clamped;
    if size == 8 {
      clamped := Cast(i, 8, signed);
    } else if size == 4 {
      clamped := Cast(i, 4, signed);
    } else if size == 2 {
      clamped := Cast(i, 2, signed);
    } else if size == 1 {
      clamped := Cast(i, 1, signed);
    } else {
      return false, dest;
    }
    if clamped != i {
      return false, dest;
    }
    ok := true;
  }

  method PbDecVarint(stream: IStream, f: Field) returns (ok: bool, dest: Value)
    requires stream.Valid()
    modifies stream
    ensures stream.Valid() && stream.End() == old(stream.End())
    ensures Outcome(ok, dest, stream.Left(), DecVarint(f, old(stream.Left())))
  {
    hide DecodeVarint, ToSigned, Cast, Clamp;
    var value;
    dest := VNum(0);
    ok, value := DecodeVarint64(stream);
    if !ok {
      return;
    }
    var svalue;
    if f.dataSize == 8 {
      svalue := ToSigned(value, 64);
    } else {
      svalue := ToSigned(value, 32);
    }
    ok, dest := StoreClamped(stream, svalue, f.dataSize, true);
  }

  method PbDecUVarint(stream: IStream, f: Field) returns (ok: bool, dest: Value)
    requires stream.Valid()
    modifies stream
    ensures stream.Valid() && stream.End() == old(stream.End())
    ensures Outcome(ok, dest, stream.Left(), DecUVarint(f, old(stream.Left())))
  {
    hide DecodeVarint, Cast, Clamp;
    var value;
    dest := VNum(0);
    ok, value := DecodeVarint64(stream);
    if !ok {
      return;
    }
    ok, dest := StoreClamped(stream, value, f.dataSize, false);
  }

  /** pb_decode_svarint: bit 0 is the sign. */
  method PbDecodeSVarint(stream: IStream) returns (ok: bool, dest: int)
    requires stream.Valid()
    modifies stream
    ensures stream.Valid() && stream.End() == old(stream.End())
    ensures var r := DecodeVarint(old(stream.Left()));
            ok == r.Got? && (ok ==> dest == UnZigZag(r.value) && stream.Left() == r.rest)
  {
    hide DecodeVarint, ToSigned;
    var value;
    dest := 0;
    ok, value := DecodeVarint64(stream);
    if !ok {
      return;
    }
    if value % 2 == 1 {
      dest := ToSigned(M64 - 1 - value / 2, 64);
    } else {
      dest := ToSigned(value / 2, 64);
    }
  }

  method PbDecSVarint(stream: IStream, f: Field) returns (ok: bool, dest: Value)
    requires stream.Valid()
    modifies stream
    ensures stream.Valid() && stream.End() == old(stream.End())
    ensures Outcome(ok, dest, stream.Left(), DecSVarint(f, old(stream.Left())))
  {
    hide DecodeVarint, Cast, Clamp, UnZigZag;
    var value;
    dest := VNum(0);
    ok, value := PbDecodeSVarint(stream);
    if !ok {
      return;
    }
    ok, dest := StoreClamped(stream, value, f.dataSize, true);
  }

  /** pb_decode_fixed32: the four bytes, least significant first. */
  method PbDecFixed32(stream: IStream) returns (ok: bool, dest: Value)
    requires stream.Valid()
    modifies stream
    ensures stream.Valid() && stream.End() == old(stream.End())
    ensures Outcome(ok, dest, stream.Left(), DecFixed(old(stream.Left()), 4))
  {
    var bytes;
    dest := VNum(0);
    ok, bytes := stream.Read(4);
    if !ok {
      return;
    }
    LittleEndian4(bytes);
    dest := VNum(Word32(bytes[0], bytes[1], bytes[2], bytes[3]));
  }

  /** b0 | b1 << 8 | b2 << 16 | b3 << 24; the bytes do not overlap. */
  function Word32(b0: nat, b1: nat, b2: nat, b3: nat): nat {
    b0 + 0x100 * b1 + 0x1_0000 * b2 + 0x100_0000 * b3
  }

  lemma LittleEndian4(bs: seq<byte>)
    requires |bs| == 4
    ensures LittleEndian(bs) == Word32(bs[0], bs[1], bs[2], bs[3])
  {
    var b1: nat, b2: nat, b3: nat := bs[1], bs[2], bs[3];
    assert LittleEndian(bs[1..][1..][1..]) == b3;
    assert LittleEndian(bs[1..][1..]) == b2 + 256 * b3;
    assert LittleEndian(bs[1..]) == b1 + 256 * (b2 + 256 * b3);
  }

  /** pb_decode_fixed64 */
  method PbDecFixed64(stream: IStream) returns (ok: bool, dest: Value)
    requires stream.Valid()
    modifies stream
    ensures stream.Valid() && stream.End() == old(stream.End())
    ensures Outcome(ok, dest, stream.Left(), DecFixed(old(stream.Left()), 8))
  {
    var bytes;
    dest := VNum(0);
    ok, bytes := stream.Read(8);
    if !ok {
      return;
    }
    LittleEndian8(bytes);
    dest := VNum(Word32(bytes[0], bytes[1], bytes[2], bytes[3])
                 + M32 * Word32(bytes[4], bytes[5], bytes[6], bytes[7]));
  }

  lemma LittleEndian8(bs: seq<byte>)
    requires |bs| == 8
    ensures LittleEndian(bs) == Word32(bs[0], bs[1], bs[2], bs[3]) + M32 * Word32(bs[4], bs[5], bs[6], bs[7])
  {
    LittleEndian4(bs[4..]);
    assert bs[1..][1..][1..][1..] == bs[4..];
    var high: nat := LittleEndian(bs[4..]);
    var b2: nat, b3: nat := bs[2], bs[3];
    assert LittleEndian(bs[1..][1..]) == b2 + 256 * (b3 + 256 * high);
  }

  method PbDecBytes(stream: IStream, f: Field) returns (ok: bool, dest: Value)
    requires stream.Valid()
    modifies stream
    ensures stream.Valid() && stream.End() == old(stream.End())
    ensures Outcome(ok, dest, stream.Left(), DecBytes(f, old(stream.Left())))
  {
    hide DecodeVarint32, Take;
    var size, bytes;
    dest := VBytes([]);
    ok, size := DecodeVarint32Value(stream);
    if !ok {
      return;
    }
    if size > PB_SIZE_MAX {
      return false, dest;
    }
    var allocSize := size + BYTES_HEADER;
    if allocSize > f.dataSize {
      return false, dest;
    }
    ok, bytes := stream.Read(size);
    dest := VBytes(bytes);
  }

  method PbDecString(stream: IStream, f: Field) returns (ok: bool, dest: Value)
    requires stream.Valid()
    modifies stream
    ensures stream.Valid() && stream.End() == old(stream.End())
    ensures Outcome(ok, dest, stream.Left(), DecString(f, old(stream.Left())))
  {
    hide DecodeVarint32, Take;
    var size, bytes;
    dest := VBytes([]);
    ok, size := DecodeVarint32Value(stream);
    if !ok {
      return;
    }
    var allocSize := size + 1;
    if allocSize > f.dataSize {
      return false, dest;
    }
    ok, bytes := stream.Read(size);
    dest := VBytes(bytes);
  }

  method PbDecFixedLengthBytes(stream: IStream, f: Field) returns (ok: bool, dest: Value)
    requires stream.Valid()
    modifies stream
    ensures stream.Valid() && stream.End() == old(stream.End())
    ensures Outcome(ok, dest, stream.Left(), DecFixedLengthBytes(f, old(stream.Left())))
  {
    hide DecodeVarint32, Take;
    var size, bytes;
    dest := VBytes([]);
    ok, size := DecodeVarint32Value(stream);
    if !ok {
      return;
    }
    if size > PB_SIZE_MAX {
      return false, dest;
    }
    if size == 0 {
      return true, VBytes(Zeros(f.dataSize));
    }
    if size != f.dataSize {
      return false, dest;
    }
    ok, bytes := stream.Read(f.dataSize);
    dest := VBytes(bytes);
  }

  /** The call through PB_DECODERS, for every type but submessages. */
  method DecodeScalar(stream: IStream, f: Field) returns (ok: bool, dest: Value)
    requires stream.Valid() && !f.ltype.Submessage? && !f.ltype.Extension?
    modifies stream
    ensures stream.Valid() && stream.End() == old(stream.End())
    ensures Outcome(ok, dest, stream.Left(), DecScalar(f, old(stream.Left())))
  {
    hide DecBool, DecVarint, DecUVarint, DecSVarint, DecFixed, DecBytes, DecString, DecFixedLengthBytes;
    match f.ltype {
      case Bool => ok, dest := PbDecBool(stream);
      case Varint => ok, dest := PbDecVarint(stream, f);
      case UVarint => ok, dest := PbDecUVarint(stream, f);
      case SVarint => ok, dest := PbDecSVarint(stream, f);
      case Fixed32 => ok, dest := PbDecFixed32(stream);
      case Fixed64 => ok, dest := PbDecFixed64(stream);
      case Bytes => ok, dest := PbDecBytes(stream, f);
      case String => ok, dest := PbDecString(stream, f);
      case FixedLengthBytes => ok, dest := PbDecFixedLengthBytes(stream, f);
    }
  }
}
