/** pb_encode and its helpers as they are written: the field loop, the two passes over
    packed arrays and submessages, and the buffer, which is written in place. */
module MessageEncoder {
  import opened Bits
  import opened Descriptors
  import opened FieldIterator
  import opened Varints
  import opened Decoding
  import opened Encoding
  import opened OutputStreams
  import opened MessageDecoder

  /** The groups of seven bits, lowest first. */
  method FillVarint(value: nat, buffer: array<byte>) returns (i: nat)
    requires 0 < value < M64 && buffer.Length == 10
    modifies buffer
    ensures i <= 10 && buffer[..i] == EncodeVarint(value)
  {
    hide EncodeVarint;
    i := 0;
    var v: nat := value;
    ghost var full := EncodeVarint(value);
    VarintLength(value);
    assert buffer[..0] + EncodeVarint(v) == full;
    while v > 0
      invariant i <= 10
      invariant v > 0 ==> buffer[..i] + EncodeVarint(v) == full
      invariant v == 0 ==> i > 0 && buffer[i - 1] >= 128 && buffer[..i - 1] + [buffer[i - 1] - 128] == full
      decreases v
    {
      ghost var done := buffer[..i];
      NextGroup(v, done, full);
      buffer[i] := v % 128 + 128;
      assert buffer[..i] == done && buffer[..i + 1] == done + [v % 128 + 128];
      v := v / 128;
      i := i + 1;
    }
    buffer[i - 1] := buffer[i - 1] - 128;
    assert buffer[..i] == buffer[..i - 1] + [buffer[i - 1]];
  }

  lemma NextGroup(v: nat, done: seq<byte>, full: seq<byte>)
    requires v > 0 && done + EncodeVarint(v) == full
    ensures |done| < |full|
    ensures v / 128 > 0 ==> done + [v % 128 + 128] + EncodeVarint(v / 128) == full
    ensures v / 128 == 0 ==> v % 128 == v && done + [v] == full
  {
  }

  /** pb_encode_varint. Its buffer of ten bytes is enough for every 64-bit value. */
  method WriteVarint(stream: OStream, value: nat) returns (status: Status)
    requires stream.Valid() && value < M64
    modifies stream, stream.buf
    ensures stream.Valid() && stream.maxSize == old(stream.maxSize)
    ensures Reports(status, Some(EncodeVarint(value)), stream.writing, old(stream.Free()))
    ensures status == Ok ==> stream.Now() == After(old(stream.Now()), EncodeVarint(value))
  {
    hide After;
    var ok;
    if value <= 0x7F {
      ok := stream.Write([value], 1);
      return if ok then Ok else StreamFull;
    }
    var buffer := new byte[10];
    var i := FillVarint(value, buffer);
    hide EncodeVarint;
    ok := stream.Write(buffer[..i], i);
    return if ok then Ok else StreamFull;
  }

  /** pb_encode_tag */
  method WriteTag(stream: OStream, wireType: nat, tag: nat) returns (status: Status)
    requires stream.Valid()
    modifies stream, stream.buf
    ensures stream.Valid() && stream.maxSize == old(stream.maxSize)
    ensures Reports(status, Some(EncTag(wireType, tag)), stream.writing, old(stream.Free()))
    ensures status == Ok ==> stream.Now() == After(old(stream.Now()), EncTag(wireType, tag))
  {
    hide EncodeVarint, After;
    status := WriteVarint(stream, (tag * 8 + wireType) % M64);
  }

  /** pb_encode_string */
  method WriteString(stream: OStream, buffer: seq<byte>) returns (status: Status)
    requires stream.Valid()
    modifies stream, stream.buf
    ensures stream.Valid() && stream.maxSize == old(stream.maxSize)
    ensures Reports(status, Some(EncString(buffer)), stream.writing, old(stream.Free()))
    ensures status == Ok ==> stream.Now() == After(old(stream.Now()), EncString(buffer))
  {
    hide EncodeVarint, After;
    ghost var start := stream.Now();
    status := WriteVarint(stream, |buffer| % M64);
    if status != Ok {
      return;
    }
    AfterSize(start, EncodeVarint(|buffer| % M64));
    var ok := stream.Write(buffer, |buffer|);
    if !ok {
      return StreamFull;
    }
    AfterBoth(start, EncodeVarint(|buffer| % M64), buffer);
  }

  lemma AfterSize(s: Snapshot, bs: seq<byte>)
    ensures After(s, bs).written == s.written + |bs| && After(s, bs).writing == s.writing
  {
  }

  // ---------- scalars ----------

  /** pb_encode_fixed32 */
  method WriteFixed32(stream: OStream, val: nat) returns (status: Status)
    requires stream.Valid() && val < M32
    modifies stream, stream.buf
    ensures stream.Valid() && stream.maxSize == old(stream.maxSize)
    ensures Reports(status, Some(FixedBytes(val, 4)), stream.writing, old(stream.Free()))
    ensures status == Ok ==> stream.Now() == After(old(stream.Now()), FixedBytes(val, 4))
  {
    hide After;
    var bytes := [val % 256, val / 0x100 % 256, val / 0x1_0000 % 256, val / 0x100_0000 % 256];
    FourBytes(val);
    var ok := stream.Write(bytes, 4);
    return if ok then Ok else StreamFull;
  }

  lemma FourBytes(v: nat)
    ensures FixedBytes(v, 4) == [v % 256, v / 0x100 % 256, v / 0x1_0000 % 256, v / 0x100_0000 % 256]
  {
    var v1, v2, v3 := v / 256, v / 256 / 256, v / 256 / 256 / 256;
    assert v2 == v / 0x1_0000 && v3 == v / 0x100_0000;
    assert FixedBytes(v3, 1) == [v3 % 256] + FixedBytes(v3 / 256, 0);
    assert FixedBytes(v2, 2) == [v2 % 256] + FixedBytes(v3, 1);
    assert FixedBytes(v1, 3) == [v1 % 256] + FixedBytes(v2, 2);
  }

  /** pb_encode_fixed64 */
  method WriteFixed64(stream: OStream, val: nat) returns (status: Status)
    requires stream.Valid() && val < M64
    modifies stream, stream.buf
    ensures stream.Valid() && stream.maxSize == old(stream.maxSize)
    ensures Reports(status, Some(FixedBytes(val, 8)), stream.writing, old(stream.Free()))
    ensures status == Ok ==> stream.Now() == After(old(stream.Now()), FixedBytes(val, 8))
  {
    hide After, FixedBytes;
    var high := val / M32;
    var bytes := [val % 256, val / 0x100 % 256, val / 0x1_0000 % 256, val / 0x100_0000 % 256,
                  high % 256, high / 0x100 % 256, high / 0x1_0000 % 256, high / 0x100_0000 % 256];
    EightBytes(val);
    FourBytes(val);
    FourBytes(high);
    assert bytes == FixedBytes(val, 4) + FixedBytes(high, 4);
    var ok := stream.Write(bytes, 8);
    return if ok then Ok else StreamFull;
  }

  function DropBytes(v: nat, j: nat): nat {
    if j == 0 then v else DropBytes(v / 256, j - 1)
  }

  lemma {:induction false} FixedBytesSplit(v: nat, j: nat, k: nat)
    ensures FixedBytes(v, j + k) == FixedBytes(v, j) + FixedBytes(DropBytes(v, j), k)
  {
    if j > 0 { FixedBytesSplit(v / 256, j - 1, k); }
  }

  lemma EightBytes(v: nat)
    ensures FixedBytes(v, 8) == FixedBytes(v, 4) + FixedBytes(v / M32, 4)
  {
    hide FixedBytes;
    FixedBytesSplit(v, 4, 4);
    var v2 := v / 256 / 256;
    assert DropBytes(v, 4) == DropBytes(v / 256, 3) == DropBytes(v2, 2) == DropBytes(v2 / 256, 1) == v2 / 256 / 256;
  }

  /** The strnlen loop of pb_enc_string. */
  method MeasureString(s: seq<byte>, maxSize: nat) returns (size: nat)
    ensures size == CStringLength(s, maxSize)
  {
    size := 0;
    while size < maxSize && size < |s| && s[size] != 0
      invariant size <= |s| && size <= maxSize
      invariant CStringLength(s, maxSize) == size + CStringLength(s[size..], maxSize - size)
    {
      size := size + 1;
    }
  }

  /** The call through PB_ENCODERS, for every type but submessages. */
  method EncodeScalar(stream: OStream, f: Field, src: Value) returns (status: Status)
    requires stream.Valid() && !f.ltype.Submessage? && !f.ltype.Extension?
    modifies stream, stream.buf
    ensures stream.Valid() && stream.maxSize == old(stream.maxSize)
    ensures Reports(status, EncScalar(f, src), stream.writing, old(stream.Free()))
    ensures status == Ok ==> stream.Now() == After(old(stream.Now()), EncScalar(f, src).value)
  {
    hide EncodeVarint, After, EncString, FixedBytes, CStringLength, ToUnsigned, ToSigned, ZigZag, Inline;
    match f.ltype {
      case Bool =>
        status := WriteVarint(stream, if src == VBool(true) then 1 else 0);
      case Varint =>
        if !IntSize(f.dataSize) { return Unencodable; }
        WordBound(NumberOf(src));
        status := WriteVarint(stream, ToUnsigned(NumberOf(src), 64));
      case UVarint =>
        if !IntSize(f.dataSize) { return Unencodable; }
        WordBound(NumberOf(src));
        status := WriteVarint(stream, ToUnsigned(NumberOf(src), 64));
      case SVarint =>
        if !IntSize(f.dataSize) { return Unencodable; }
        SignedBound(NumberOf(src));
        ZigZagRoundTrip(ToSigned(NumberOf(src), 64), 0);
        status := WriteVarint(stream, ZigZag(ToSigned(NumberOf(src), 64)));
      case Fixed32 =>
        WordBound(NumberOf(src));
        status := WriteFixed32(stream, ToUnsigned(NumberOf(src), 32));
      case Fixed64 =>
        WordBound(NumberOf(src));
        status := WriteFixed64(stream, ToUnsigned(NumberOf(src), 64));
      case Bytes =>
        if |BytesOf(src)| + BYTES_HEADER > f.dataSize { return Unencodable; }
        status := WriteString(stream, BytesOf(src));
      case String =>
        var size := MeasureString(BytesOf(src), f.dataSize);
        status := WriteString(stream, BytesOf(src)[..size]);
      case FixedLengthBytes =>
        status := WriteString(stream, Inline(BytesOf(src), f.dataSize));
    }
  }

  lemma WordBound(i: int)
    ensures ToUnsigned(i, 32) < M32 && ToUnsigned(i, 64) < M64
  {
  }

  lemma SignedBound(i: int)
    ensures -0x8000_0000_0000_0000 <= ToSigned(i, 64) < 0x8000_0000_0000_0000
  {
  }

  // ---------- proto3 presence ----------

  /** pb_check_proto3_default_value, on the entry an iterator over the struct is on. */
  method CheckProto3Default(iter: FieldIter, m: Message) returns (isDefault: bool)
    requires iter.Valid() && Supported(iter.start) && iter.pos < |iter.start|
    ensures isDefault == ProtoDefault(iter.Field(), m, iter.pData)
    decreases iter.start, 1
  {
    hide Supported, SupportedField, DataAt, SizeAt, ZeroOrEmpty;
    var f, at := iter.start[iter.pos], iter.pData;
    SupportedAt(iter.start, iter.pos);
    match f.htype {
      case Required => return false;
      case Repeated => return OldItems(m, at) == [];
      case Oneof => return at !in m || !m[at].SUnion? || m[at].which == 0;
      case Optional =>
        if f.sizeOffset != 0 {
          return at !in m || !m[at].SOpt? || !m[at].has;
        }
        isDefault := CheckZero(f, OldValue(m, at));
    }
  }

  /** Its part for singular fields. A nested message is left out when every field of it is. */
  method CheckZero(f: Field, v: Value) returns (isZero: bool)
    requires SupportedField(f)
    ensures isZero == ZeroOrEmpty(f, v)
    decreases f, 0
  {
    hide Supported, SupportedField, DataAt, SizeAt, ProtoDefault;
    SupportedSub(f);
    match f.ltype {
      case Bytes => return BytesOf(v) == [];
      case String => return BytesOf(v) == [] || BytesOf(v)[0] == 0;
      case FixedLengthBytes => return f.dataSize == 0;
      case Submessage => isZero := CheckAllDefault(f.ptr.fields, SubMessage(v));
      case Bool => return v != VBool(true);
      case _ => return NumberOf(v) == 0;
    }
  }

  method CheckAllDefault(d: seq<Field>, m: Message) returns (all: bool)
    requires Supported(d)
    ensures all == forall i | 0 <= i < |d| :: ProtoDefault(d[i], m, DataAt(d, i))
    decreases d, 2
  {
    hide Supported, SupportedField, ProtoDefault, DataAt, SizeAt;
    SupportedTags(d);
    var iter := new FieldIter(d);
    var more := iter.Begin();
    while more
      invariant iter.Valid() && fresh(iter) && iter.start == d
      invariant more ==> iter.pos < |d|
      invariant forall i | 0 <= i < (if more then iter.pos else |d|) :: ProtoDefault(d[i], m, DataAt(d, i))
      decreases more, |d| - iter.pos
    {
      var isDefault := CheckProto3Default(iter, m);
      if !isDefault {
        return false;
      }
      more := iter.Next();
    }
    return true;
  }

  // ---------- submessages, arrays, fields, messages ----------

  /** pb_encode_submessage: a sizing pass, the size, and then the same bytes again on a
      stream that has exactly that much room. "submsg size changed" is never reported. */
  method EncodeSubmessage(stream: OStream, f: Field, src: Value) returns (status: Status)
    requires stream.Valid() && f.ltype.Submessage? && SupportedField(f)
    modifies stream, stream.buf
    ensures stream.Valid() && stream.maxSize == old(stream.maxSize)
    ensures Reports(status, EncSubmessage(f, src), stream.writing, old(stream.Free()))
    ensures status == Ok ==> stream.Now() == After(old(stream.Now()), EncSubmessage(f, src).value)
    decreases f, 3
  {
    hide Supported, SupportedField, Encode, EncodeVarint, Splice;
    SupportedSub(f);
    var d, m := f.ptr.fields, SubMessage(src);
    var sub := new OStream.Sizing();
    status := PbEncode(sub, d, m);
    if status != Ok {
      return Unencodable;
    }
    ghost var start, body := stream.Now(), Encode(d, m).value;
    var size := sub.bytesWritten;
    ghost var head := EncodeVarint(size % M64);
    status := WriteVarint(stream, size % M64);
    if status != Ok {
      return;
    }
    AfterBoth(start, head, body);
    if !stream.writing {
      var _ := stream.Write([], size);
      return Ok;
    }
    if stream.bytesWritten + size > stream.maxSize {
      return StreamFull;
    }
    sub := new OStream.Limited(stream, size);
    status := PbEncode(sub, d, m);
    stream.bytesWritten := stream.bytesWritten + sub.bytesWritten;
    stream.state := sub.state;
    if sub.bytesWritten != size {
      return SizeChanged;
    }
  }

  method EncodeValue(stream: OStream, f: Field, src: Value) returns (status: Status)
    requires stream.Valid() && SupportedField(f)
    modifies stream, stream.buf
    ensures stream.Valid() && stream.maxSize == old(stream.maxSize)
    ensures Reports(status, EncValue(f, src), stream.writing, old(stream.Free()))
    ensures status == Ok ==> stream.Now() == After(old(stream.Now()), EncValue(f, src).value)
    decreases f, 4
  {
    hide Supported, EncScalar, EncSubmessage, After;
    if f.ltype.Submessage? {
      status := EncodeSubmessage(stream, f, src);
    } else {
      status := EncodeScalar(stream, f, src);
    }
  }

  /** pb_encode_tag_for_field, and the value. */
  method EncodeTagged(stream: OStream, f: Field, src: Value) returns (status: Status)
    requires stream.Valid() && SupportedField(f)
    modifies stream, stream.buf
    ensures stream.Valid() && stream.maxSize == old(stream.maxSize)
    ensures Reports(status, Tagged(f, src), stream.writing, old(stream.Free()))
    ensures status == Ok ==> stream.Now() == After(old(stream.Now()), Tagged(f, src).value)
    decreases f, 5
  {
    hide Supported, SupportedField, EncValue, EncTag, Splice;
    ghost var start := stream.Now();
    status := WriteTag(stream, WireTypeOf(f.ltype), f.tag);
    if status != Ok {
      return;
    }
    if EncValue(f, src).Some? { AfterBoth(start, EncTagFor(f), EncValue(f, src).value); }
    status := EncodeValue(stream, f, src);
  }

  /** The size of a packed array, from its count or from a sizing pass. */
  method PackedSize(f: Field, items: seq<Value>) returns (status: Status, size: nat)
    requires Packable(f.ltype)
    ensures status == Ok <==> EncPacked(f, items).Some?
    ensures status == Ok ==> size == |EncPacked(f, items).value|
    ensures status != SizeChanged
  {
    hide EncScalar, After;
    size := 0;
    if f.ltype.Fixed32? {
      FixedSize(f, items, 4);
      return Ok, 4 * |items|;
    } else if f.ltype.Fixed64? {
      FixedSize(f, items, 8);
      return Ok, 8 * |items|;
    }
    var sizestream := new OStream.Sizing();
    ghost var start := sizestream.Now();
    status := EncodeItems(sizestream, f, items);
    if status != Ok {
      return Unencodable, size;
    }
    AfterSize(start, EncPacked(f, items).value);
    size := sizestream.bytesWritten;
  }

  lemma {:induction false} FixedSize(f: Field, items: seq<Value>, n: nat)
    requires (f.ltype.Fixed32? && n == 4) || (f.ltype.Fixed64? && n == 8)
    ensures EncPacked(f, items).Some? && |EncPacked(f, items).value| == n * |items|
  {
    if items != [] { FixedSize(f, items[1..], n); }
  }

  /** The loop over the entries of a packed array. */
  method EncodeItems(stream: OStream, f: Field, items: seq<Value>) returns (status: Status)
    requires stream.Valid() && Packable(f.ltype)
    modifies stream, stream.buf
    ensures stream.Valid() && stream.maxSize == old(stream.maxSize)
    ensures Reports(status, EncPacked(f, items), stream.writing, old(stream.Free()))
    ensures status == Ok ==> stream.Now() == After(old(stream.Now()), EncPacked(f, items).value)
  {
    hide EncScalar, Splice;
    ghost var start, done := stream.Now(), [];
    AfterNothing(start);
    AppendNothing(EncPacked(f, items));
    var i := 0;
    assert items[0..] == items;
    while i < |items|
      invariant i <= |items| && stream.Valid() && stream.maxSize == old(stream.maxSize)
      invariant stream.Now() == After(start, done)
      invariant stream.writing ==> start.written + |done| <= stream.maxSize
      invariant EncPacked(f, items) == Append(Some(done), EncPacked(f, items[i..]))
    {
      ghost var rest := EncPacked(f, items[i + 1..]);
      assert items[i..][1..] == items[i + 1..];
      AppendStep(done, EncScalar(f, items[i]), rest);
      if EncScalar(f, items[i]).Some? { AfterBoth(start, done, EncScalar(f, items[i]).value); }
      status := EncodeScalar(stream, f, items[i]);
      if status != Ok {
        return;
      }
      done := done + EncScalar(f, items[i]).value;
      i := i + 1;
    }
    AppendDone(done);
    status := Ok;
  }

  /** One more part: what is done grows, and nothing gets lost from what is to come. */
  lemma AppendStep(done: seq<byte>, a: Option<seq<byte>>, rest: Option<seq<byte>>)
    ensures a.None? ==> Append(Some(done), Append(a, rest)).None?
    ensures a.Some? ==> Append(Some(done), Append(a, rest)) == Append(Some(done + a.value), rest)
  {
    if a.Some? && rest.Some? { assert done + (a.value + rest.value) == done + a.value + rest.value; }
  }

  /** encode_array for packable entries: tag, size, entries. */
  method EncodePackedArray(stream: OStream, f: Field, items: seq<Value>) returns (status: Status)
    requires stream.Valid() && Packable(f.ltype) && SupportedField(f)
    modifies stream, stream.buf
    ensures stream.Valid() && stream.maxSize == old(stream.maxSize)
    ensures var e := EncPackedArray(f, items);
            Reports(status, e, stream.writing, old(stream.Free())) &&
            (status == Ok ==> stream.Now() == After(old(stream.Now()), e.value))
  {
    hide EncPacked, EncTag, EncodeVarint, Splice, SupportedField;
    ghost var start := stream.Now();
    ghost var tag := EncTag(WT_STRING, f.tag);
    status := WriteTag(stream, WT_STRING, f.tag);
    if status != Ok {
      return;
    }
    var size;
    status, size := PackedSize(f, items);
    if status != Ok {
      return;
    }
    ghost var head, body := EncodeVarint(size % M64), EncPacked(f, items).value;
    status := WriteVarint(stream, size % M64);
    if status != Ok {
      return;
    }
    AfterBoth(start, tag, head);
    AfterBoth(start, tag + head, body);
    assert tag + head + body == tag + EncString(body);
    if !stream.writing {
      var _ := stream.Write([], size);
      return Ok;
    }
    status := EncodeItems(stream, f, items);
  }

  /** encode_array for the other entries: each behind its own tag. */
  method EncodeUnpackedArray(stream: OStream, f: Field, items: seq<Value>) returns (status: Status)
    requires stream.Valid() && SupportedField(f)
    modifies stream, stream.buf
    ensures stream.Valid() && stream.maxSize == old(stream.maxSize)
    ensures Reports(status, EncUnpacked(f, items), stream.writing, old(stream.Free()))
    ensures status == Ok ==> stream.Now() == After(old(stream.Now()), EncUnpacked(f, items).value)
    decreases f, 6
  {
    hide Tagged, Splice, SupportedField;
    ghost var start, done := stream.Now(), [];
    AfterNothing(start);
    AppendNothing(EncUnpacked(f, items));
    var i := 0;
    assert items[0..] == items;
    while i < |items|
      invariant i <= |items| && stream.Valid() && stream.maxSize == old(stream.maxSize)
      invariant stream.Now() == After(start, done)
      invariant stream.writing ==> start.written + |done| <= stream.maxSize
      invariant EncUnpacked(f, items) == Append(Some(done), EncUnpacked(f, items[i..]))
    {
      assert items[i..][1..] == items[i + 1..];
      AppendStep(done, Tagged(f, items[i]), EncUnpacked(f, items[i + 1..]));
      if Tagged(f, items[i]).Some? { AfterBoth(start, done, Tagged(f, items[i]).value); }
      status := EncodeTagged(stream, f, items[i]);
      if status != Ok {
        return;
      }
      done := done + Tagged(f, items[i]).value;
      i := i + 1;
    }
    AppendDone(done);
    status := Ok;
  }

  method EncodeArray(stream: OStream, f: Field, items: seq<Value>) returns (status: Status)
    requires stream.Valid() && SupportedField(f)
    modifies stream, stream.buf
    ensures stream.Valid() && stream.maxSize == old(stream.maxSize)
    ensures Reports(status, EncArray(f, items), stream.writing, old(stream.Free()))
    ensures status == Ok ==> stream.Now() == After(old(stream.Now()), EncArray(f, items).value)
    decreases f, 7
  {
    hide EncPacked, EncUnpacked, EncTag, EncString, Splice, SupportedField, Packable;
    AfterNothing(stream.Now());
    if |items| == 0 {
      return Ok;
    }
    if |items| > f.arraySize {
      return Unencodable;
    }
    if Packable(f.ltype) {
      status := EncodePackedArray(stream, f, items);
    } else {
      status := EncodeUnpackedArray(stream, f, items);
    }
  }

  /** encode_basic_field for the entry the iterator is on. */
  method EncodeBasicField(stream: OStream, iter: FieldIter, m: Message) returns (status: Status)
    requires stream.Valid() && iter.Valid() && Supported(iter.start) && iter.pos < |iter.start|
    modifies stream, stream.buf
    ensures stream.Valid() && stream.maxSize == old(stream.maxSize)
    ensures var e := EncField(iter.Field(), m, iter.pData);
            Reports(status, e, stream.writing, old(stream.Free())) &&
            (status == Ok ==> stream.Now() == After(old(stream.Now()), e.value))
    decreases iter.start, 8
  {
    hide EncArray, Tagged, ZeroOrEmpty, Splice, Supported, SupportedField, DataAt, SizeAt;
    var f, at := iter.start[iter.pos], iter.pData;
    SupportedAt(iter.start, iter.pos);
    AfterNothing(stream.Now());
    var present := true;
    if f.htype.Optional? {
      if f.sizeOffset != 0 {
        present := at in m && m[at].SOpt? && m[at].has;
      } else {
        var isDefault := CheckProto3Default(iter, m);
        present := !isDefault;
      }
    } else if f.htype.Oneof? {
      present := at in m && m[at].SUnion? && m[at].which == f.tag;
    }
    if f.htype.Repeated? {
      status := EncodeArray(stream, f, OldItems(m, at));
      ArrayOfNone(f);
    } else if present {
      status := EncodeTagged(stream, f, Content(f, m, at));
    } else {
      status := Ok;
    }
  }

  lemma ArrayOfNone(f: Field)
    ensures EncArray(f, []) == Some([])
  {
  }

  /** pb_encode: the bytes of every field, in the order of the table. */
  method PbEncode(stream: OStream, d: seq<Field>, m: Message) returns (status: Status)
    requires stream.Valid() && Supported(d)
    modifies stream, stream.buf
    ensures stream.Valid() && stream.maxSize == old(stream.maxSize)
    ensures Reports(status, Encode(d, m), stream.writing, old(stream.Free()))
    ensures status == Ok ==> stream.Now() == After(old(stream.Now()), Encode(d, m).value)
    decreases d, 9
  {
    hide EncField, Splice, Supported, SupportedField, DataAt, SizeAt, FieldIter.Valid;
    SupportedTags(d);
    ghost var start, done := stream.Now(), [];
    AfterNothing(start);
    var iter := new FieldIter(d);
    var more := iter.Begin();
    AppendNothing(Encode(d, m));
    while more
      invariant fresh(iter) && iter.Valid() && iter.start == d && (more ==> iter.pos < |d|)
      invariant stream.Valid() && stream.maxSize == old(stream.maxSize)
      invariant stream.Now() == After(start, done)
      invariant stream.writing ==> start.written + |done| <= stream.maxSize
      invariant Encode(d, m) == Append(Some(done), EncFrom(d, m, if more then iter.pos else |d|))
      decreases more, |d| - iter.pos
    {
      ghost var e := EncField(d[iter.pos], m, DataAt(d, iter.pos));
      AppendStep(done, e, EncFrom(d, m, iter.pos + 1));
      if e.Some? { AfterBoth(start, done, e.value); }
      IterHere(iter);
      status := EncodeBasicField(stream, iter, m);
      if status != Ok {
        return;
      }
      done := done + e.value;
      more := iter.Next();
    }
    AppendDone(done);
    status := Ok;
  }

  lemma IterHere(iter: FieldIter)
    requires iter.Valid() && iter.pos < |iter.start|
    ensures iter.pData == DataAt(iter.start, iter.pos) && iter.Field() == iter.start[iter.pos]
  {
    hide DataAt, SizeAt;
  }

  lemma AppendNothing(e: Option<seq<byte>>)
    ensures Append(Some([]), e) == e
  {
    if e.Some? { assert [] + e.value == e.value; }
  }

  lemma AppendDone(done: seq<byte>)
    ensures Append(Some(done), Some([])) == Some(done)
  {
    assert done + [] == done;
  }

  /** pb_get_encoded_size: exactly the number of bytes that encoding writes. */
  method GetEncodedSize(d: seq<Field>, m: Message) returns (ok: bool, size: nat)
    requires Supported(d)
    ensures ok == Encode(d, m).Some?
    ensures ok ==> size == |Encode(d, m).value|
  {
    hide Encode, Supported, Splice;
    var stream := new OStream.Sizing();
    var status := PbEncode(stream, d, m);
    size := stream.bytesWritten;
    ok := status == Ok;
  }

  /** Encoding into a buffer, as callers do: it succeeds exactly when the size that
      pb_get_encoded_size reports fits the buffer, and then the buffer starts with the
      encoding and is otherwise as it was. */
  method EncodeToBuffer(d: seq<Field>, m: Message, buf: array<byte>) returns (ok: bool, bytesWritten: nat)
    requires Supported(d)
    modifies buf
    ensures ok <==> Encode(d, m).Some? && |Encode(d, m).value| <= buf.Length
    ensures ok ==> bytesWritten == |Encode(d, m).value|
    ensures ok ==> buf[..] == Encode(d, m).value + old(buf[bytesWritten..])
  {
    hide Encode, Supported;
    var stream := new OStream(buf, buf.Length);
    var status := PbEncode(stream, d, m);
    bytesWritten := stream.bytesWritten;
    ok := status == Ok;
  }
}
