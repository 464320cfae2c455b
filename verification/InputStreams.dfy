/** Input streams over a buffer, and the primitive readers of pb_decode.c as they are
    written: loops over bytes that update the stream in place. */
module InputStreams {
  import opened Descriptors
  import opened Varints
  import opened Decoding

  /** A reader's success flag and result, and the bytes then left, are what r says. */
  predicate Outcome<T(==)>(ok: bool, value: T, left: seq<byte>, r: Read<T>) {
    ok == r.Got? && (ok ==> r == Got(value, left))
  }

  /** `pb_istream_t` on a buffer: `state` is the read position. */
  class IStream {
    const source: seq<byte>
    var state: nat
    var bytesLeft: nat

    ghost predicate Valid()
      reads this
    {
      state + bytesLeft <= |source|
    }

    ghost function Left(): seq<byte>
      requires Valid()
      reads this
    {
      source[state..state + bytesLeft]
    }

    /** Where the stream ends in the buffer. Reading never moves it. */
    ghost function End(): nat
      reads this
    {
      state + bytesLeft
    }

    /** pb_istream_from_buffer */
    constructor (buf: seq<byte>)
      ensures Valid() && source == buf && state == 0 && Left() == buf
    {
      source := buf;
      state := 0;
      bytesLeft := |buf|;
      new;
      assert source[0..|buf|] == buf;
    }

    /** A copy of another stream, with its own position and limit. */
    constructor Copy(other: IStream)
      ensures source == other.source && state == other.state && bytesLeft == other.bytesLeft
    {
      source := other.source;
      state := other.state;
      bytesLeft := other.bytesLeft;
    }

    method ReadByte() returns (ok: bool, b: byte)
      requires Valid()
      modifies this
      ensures Valid() && End() == old(End())
      ensures ok == (old(Left()) != [])
      ensures ok ==> b == old(Left())[0] && Left() == old(Left())[1..]
      ensures !ok ==> state == old(state) && bytesLeft == old(bytesLeft)
    {
      if bytesLeft == 0 {
        return false, 0;
      }
      b := source[state];
      state := state + 1;
      bytesLeft := bytesLeft - 1;
      ok := true;
    }

    /** pb_read into a buffer. */
    method Read(count: nat) returns (ok: bool, buf: seq<byte>)
      requires Valid()
      modifies this
      ensures Valid() && End() == old(End())
      ensures Outcome(ok, buf, Left(), Take(old(Left()), count))
    {
      buf := [];
      if count == 0 {
        assert Left()[..0] == [] && Left()[0..] == Left();
        return true, buf;
      }
      if bytesLeft < count {
        return false, buf;
      }
      var i := 0;
      while i < count
        invariant i <= count && Valid() && unchanged(this)
        invariant buf == source[state..state + i]
      {
        buf := buf + [source[state + i]];
        i := i + 1;
      }
      state := state + count;
      bytesLeft := bytesLeft - count;
      assert old(Left())[..count] == buf && old(Left())[count..] == Left();
      ok := true;
    }

    /** pb_read with a NULL buffer. */
    method Skip(count: nat) returns (ok: bool)
      requires Valid()
      modifies this
      ensures Valid() && End() == old(End())
      ensures Outcome(ok, (), Left(), Drop(old(Left()), count))
    {
      if count == 0 {
        return true;
      }
      if bytesLeft < count {
        return false;
      }
      state := state + count;
      bytesLeft := bytesLeft - count;
      ok := true;
    }
  }

  /** pb_decode_varint */
  method DecodeVarint64(stream: IStream) returns (ok: bool, dest: nat)
    requires stream.Valid()
    modifies stream
    ensures stream.Valid() && stream.End() == old(stream.End())
    ensures Outcome(ok, dest, stream.Left(), DecodeVarint(old(stream.Left())))
  {
    hide AddGroup64;
    var bitpos, result := 0, 0;
    var more := true;
    dest := 0;
    while more
      invariant stream.Valid() && stream.End() == old(stream.End())
      invariant more ==> DecodeGroups64(stream.Left(), bitpos, result) == DecodeVarint(old(stream.Left()))
      invariant !more ==> DecodeVarint(old(stream.Left())) == Got(result, stream.Left())
      decreases more, stream.bytesLeft
    {
      if bitpos >= 64 {
        return false, dest;
      }
      var b;
      ok, b := stream.ReadByte();
      if !ok {
        return;
      }
      result := AddGroup64(result, b, bitpos);
      bitpos := bitpos + 7;
      more := b >= 128;
    }
    return true, result;
  }

  /** pb_decode_varint32_eof. `eof` is set when there was no byte to start with. */
  method DecodeVarint32Eof(stream: IStream) returns (ok: bool, dest: nat, eof: bool)
    requires stream.Valid()
    modifies stream
    ensures stream.Valid() && stream.End() == old(stream.End())
    ensures Outcome(ok, dest, stream.Left(), DecodeVarint32(old(stream.Left())))
    ensures eof == (old(stream.Left()) == [])
    ensures eof ==> stream.Left() == []
  {
    hide AddGroup32;
    dest, eof := 0, false;
    var b;
    ok, b := stream.ReadByte();
    if !ok {
      if stream.bytesLeft == 0 {
        eof := true;
      }
      return;
    }
    var result: nat := b;
    if b >= 128 {
      var bitpos := 7;
      result := Payload(b);
      var more := true;
      while more
        invariant stream.Valid() && stream.End() == old(stream.End())
        invariant more ==> DecodeGroups32(stream.Left(), bitpos, result) == DecodeVarint32(old(stream.Left()))
        invariant !more ==> b < 128 && DecodeVarint32(old(stream.Left())) ==
                                       if bitpos == 35 && b >= 16 then Fail else Got(result, stream.Left())
        decreases more, stream.bytesLeft
      {
        ok, b := stream.ReadByte();
        if !ok {
          return;
        }
        if bitpos >= 32 {
          if Payload(b) != 0 && (result < 0x8000_0000 || b != SignExtension(bitpos)) {
            return false, dest, eof;
          }
        } else {
          result := AddGroup32(result, b, bitpos);
        }
        bitpos := Advance(bitpos);
        more := b >= 128;
      }
      if bitpos == 35 && b >= 16 {
        return false, dest, eof;
      }
    }
    return true, result, eof;
  }

  /** pb_decode_varint32 */
  method DecodeVarint32Value(stream: IStream) returns (ok: bool, dest: nat)
    requires stream.Valid()
    modifies stream
    ensures stream.Valid() && stream.End() == old(stream.End())
    ensures Outcome(ok, dest, stream.Left(), DecodeVarint32(old(stream.Left())))
  {
    var eof;
    ok, dest, eof := DecodeVarint32Eof(stream);
  }

  /** pb_skip_varint */
  method SkipVarintBytes(stream: IStream) returns (ok: bool)
    requires stream.Valid()
    modifies stream
    ensures stream.Valid() && stream.End() == old(stream.End())
    ensures Outcome(ok, (), stream.Left(), SkipVarint(old(stream.Left())))
  {
    var more := true;
    while more
      invariant stream.Valid() && stream.End() == old(stream.End())
      invariant SkipVarint(old(stream.Left())) == if more then SkipVarint(stream.Left()) else Got((), stream.Left())
      decreases more, stream.bytesLeft
    {
      ghost var before := stream.Left();
      var bytes;
      ok, bytes := stream.Read(1);
      if !ok {
        return;
      }
      assert bytes[0] == before[0] && stream.Left() == before[1..];
      more := bytes[0] >= 128;
    }
    return true;
  }

  /** pb_skip_field */
  method SkipFieldBytes(stream: IStream, wireType: nat) returns (ok: bool)
    requires stream.Valid()
    modifies stream
    ensures stream.Valid() && stream.End() == old(stream.End())
    ensures Outcome(ok, (), stream.Left(), SkipField(old(stream.Left()), wireType))
  {
    hide SkipVarint, DecodeVarint32;
    if wireType == WT_VARINT {
      ok := SkipVarintBytes(stream);
    } else if wireType == WT_64BIT {
      ok := stream.Skip(8);
    } else if wireType == WT_STRING {
      var length;
      ok, length := DecodeVarint32Value(stream);
      if ok {
        ok := stream.Skip(length);
      }
    } else if wireType == WT_32BIT {
      ok := stream.Skip(4);
    } else {
      ok := false;
    }
  }

  /** pb_decode_tag */
  method DecodeTagOf(stream: IStream) returns (ok: bool, wireType: nat, tag: nat, eof: bool)
    requires stream.Valid()
    modifies stream
    ensures stream.Valid() && stream.End() == old(stream.End())
    ensures ok ==> DecodeTag(old(stream.Left())) == TagOf(wireType, tag, stream.Left())
    ensures !ok && eof ==> DecodeTag(old(stream.Left())) == AtEnd(stream.Left())
    ensures !ok && !eof ==> DecodeTag(old(stream.Left())) == TagFail
  {
    hide DecodeVarint32;
    wireType, tag := 0, 0;
    var temp;
    ok, temp, eof := DecodeVarint32Eof(stream);
    if !ok {
      return;
    }
    if temp == 0 {
      eof := true;
      return false, wireType, tag, eof;
    }
    tag := temp / 8;
    wireType := temp % 8;
  }

  /** pb_make_string_substream: the parent gives up the bytes of the substream at once,
      while its position still has to catch up. */
  method MakeSubstream(stream: IStream) returns (ok: bool, sub: IStream)
    requires stream.Valid()
    modifies stream
    ensures stream.Valid() && stream.End() <= old(stream.End())
    ensures ok == Delimited(old(stream.Left())).Got?
    ensures fresh(sub)
    ensures ok ==> sub.Valid() && sub.source == stream.source
    ensures ok ==> Delimited(old(stream.Left())).value == sub.Left()
    ensures ok ==> stream.End() + sub.bytesLeft == old(stream.End())
    ensures ok ==> sub.state == stream.state
    ensures ok ==> stream.source[sub.End()..old(stream.End())] == Delimited(old(stream.Left())).rest
  {
    hide DecodeVarint32;
    var size;
    ok, size := DecodeVarint32Value(stream);
    sub := new IStream.Copy(stream);
    if !ok {
      return;
    }
    if sub.bytesLeft < size {
      return false, sub;
    }
    sub.bytesLeft := size;
    stream.bytesLeft := stream.bytesLeft - size;
  }

  /** pb_close_string_substream: however much of the substream was consumed, the parent
      continues right behind it. */
  method CloseSubstream(stream: IStream, sub: IStream) returns (ok: bool)
    requires stream.Valid() && sub.Valid() && stream != sub && sub.source == stream.source
    requires sub.End() + stream.bytesLeft <= |stream.source|
    modifies stream, sub
    ensures ok && stream.Valid()
    ensures stream.state == old(sub.End()) && stream.bytesLeft == old(stream.bytesLeft)
  {
    if sub.bytesLeft > 0 {
      ok := sub.Skip(sub.bytesLeft);
      if !ok {
        return;
      }
    }
    stream.state := sub.state;
    return true;
  }
}
