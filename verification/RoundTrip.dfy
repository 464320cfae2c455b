/** Decoding an encoded struct gives the struct back. */
module RoundTrip {
  import opened Bits
  import opened Descriptors
  import opened Varints
  import opened Decoding
  import opened Encoding

  // ---------- what is asked of a descriptor and of a struct ----------

  /** Tags are distinct and fit the wire format; only members of a union share storage;
      and a singular field, which is left out when it is zero, has no other default. */
  predicate WellFormed(d: seq<Field>) {
    && Supported(d)
    && DistinctTags(d)
    && (forall i | 0 <= i < |d| :: d[i].tag < 0x2000_0000)
    && OwnStorage(d)
    && (forall f | f in d :: WellFormedField(f))
  }

  predicate OwnStorage(d: seq<Field>) {
    forall i, j | 0 <= i < j < |d| ::
      DataAt(d, i) == DataAt(d, j) ==> d[i].htype.Oneof? && d[j].htype.Oneof?
  }

  predicate WellFormedField(f: Field) {
    && (f.ltype.Submessage? && f.ptr.SubFields? ==> WellFormed(f.ptr.fields))
    && (f.htype.Optional? && f.sizeOffset == 0 && !f.ltype.Submessage? ==> DefaultValue(f) == ZeroValue(f))
  }

  /** The field can hold the value: an integer has the size of the field, a string has
      room for its terminator and no NUL inside, a byte array fits its buffer. */
  predicate Fits(f: Field, v: Value)
    decreases f, 0
  {
    match f.ltype
    case Bool => v.VBool?
    case Varint => v.VNum? && IntSize(f.dataSize) && Cast(v.i, f.dataSize, true) == v.i
    case SVarint => v.VNum? && IntSize(f.dataSize) && Cast(v.i, f.dataSize, true) == v.i
    case UVarint => v.VNum? && IntSize(f.dataSize) && Cast(v.i, f.dataSize, false) == v.i
    case Fixed32 => v.VNum? && 0 <= v.i < M32
    case Fixed64 => v.VNum? && 0 <= v.i < M64
    case Bytes => v.VBytes? && |v.bs| <= PB_SIZE_MAX
    case String => v.VBytes? && |v.bs| < f.dataSize && 0 !in v.bs
    case FixedLengthBytes => v.VBytes? && |v.bs| == f.dataSize <= PB_SIZE_MAX
    case Submessage => v.VMsg? && f.ptr.SubFields? && Storable(f.ptr.fields, v.m)
    case Extension => false
  }

  /** The struct holds a slot of the right kind for every field, and every value in use fits. */
  predicate Storable(d: seq<Field>, m: Message)
    decreases d, 1
  {
    forall i | 0 <= i < |d| :: StorableAt(d, i, m)
  }

  predicate StorableAt(d: seq<Field>, i: nat, m: Message)
    requires i < |d|
    decreases d, 0
  {
    var f, at := d[i], DataAt(d, i);
    at in m &&
    match f.htype
    case Required => m[at].SOne? && Fits(f, m[at].v)
    case Optional =>
      if f.sizeOffset != 0 then m[at].SOpt? && (m[at].has ==> Fits(f, m[at].v))
      else m[at].SOne? && Fits(f, m[at].v)
    case Repeated => m[at].SRep? && forall v | v in m[at].items :: Fits(f, v)
    case Oneof =>
      && m[at].SUnion?
      && (m[at].which == f.tag ==> Fits(f, m[at].v))
      && (m[at].which == 0 || exists k | 0 <= k < |d| ::
            d[k].htype.Oneof? && DataAt(d, k) == at && d[k].tag == m[at].which)
  }

  // ---------- what it means to give a struct back ----------

  predicate SameValue(f: Field, v: Value, w: Value)
    decreases f, 0
  {
    if f.ltype.Submessage? then
      v.VMsg? && w.VMsg? && f.ptr.SubFields? && Restored(f.ptr.fields, v.m, w.m)
    else v == w
  }

  /** w has every present value of m: scalars, strings, byte arrays, the entries of
      arrays in order, the selected members of unions, and nested messages likewise.
      Absent optional fields are absent and hold their defaults. */
  predicate Restored(d: seq<Field>, m: Message, w: Message)
    decreases d, 1
  {
    forall i | 0 <= i < |d| :: RestoredAt(d, i, m, w)
  }

  predicate RestoredAt(d: seq<Field>, i: nat, m: Message, w: Message)
    requires i < |d|
    decreases d, 0
  {
    var f, at := d[i], DataAt(d, i);
    at in m && at in w &&
    match f.htype
    case Required => m[at].SOne? && w[at].SOne? && SameValue(f, m[at].v, w[at].v)
    case Optional =>
      if f.sizeOffset != 0 then
        && m[at].SOpt? && w[at].SOpt? && m[at].has == w[at].has
        && (if m[at].has then SameValue(f, m[at].v, w[at].v) else w[at].v == DefaultValue(f))
      else m[at].SOne? && w[at].SOne? && SameValue(f, m[at].v, w[at].v)
    case Repeated =>
      && m[at].SRep? && w[at].SRep? && |m[at].items| == |w[at].items|
      && forall k | 0 <= k < |m[at].items| :: SameValue(f, m[at].items[k], w[at].items[k])
    case Oneof =>
      && m[at].SUnion? && w[at].SUnion? && m[at].which == w[at].which
      && (m[at].which == f.tag ==> SameValue(f, m[at].v, w[at].v))
  }

  // ---------- the struct that decoding produces ----------

  function Rebuilt(f: Field, v: Value): Value
    decreases f, 0
  {
    if f.ltype.Submessage? && f.ptr.SubFields? then VMsg(RebuiltMessage(f.ptr.fields, SubMessage(v))) else v
  }

  function RebuiltFrom(f: Field, items: seq<Value>): (r: seq<Value>)
    ensures |r| == |items|
    ensures forall k | 0 <= k < |items| :: r[k] == Rebuilt(f, items[k])
    decreases f, 1, |items|
  {
    if items == [] then [] else [Rebuilt(f, items[0])] + RebuiltFrom(f, items[1..])
  }

  function RebuiltSlot(f: Field, m: Message, at: int): Slot
    decreases f, 2
  {
    match f.htype
    case Required => SOne(Rebuilt(f, Content(f, m, at)))
    case Optional =>
      var v := Rebuilt(f, Content(f, m, at));
      if f.sizeOffset != 0 then SOpt(true, v) else SOne(v)
    case Repeated => SRep(RebuiltFrom(f, OldItems(m, at)))
    case Oneof => SUnion(f.tag, Rebuilt(f, Content(f, m, at)))
  }

  /** The defaults, overwritten by the present ones among the fields before i. */
  function RebuiltBefore(d: seq<Field>, m: Message, i: nat): Message
    requires i <= |d|
    decreases d, 3, i
  {
    if i == 0 then Defaults(d)
    else
      var w, at := RebuiltBefore(d, m, i - 1), DataAt(d, i - 1);
      if Present(d[i - 1], m, at) then w[at := RebuiltSlot(d[i - 1], m, at)] else w
  }

  function RebuiltMessage(d: seq<Field>, m: Message): Message
    decreases d, 4
  {
    RebuiltBefore(d, m, |d|)
  }

  // ---------- scalars ----------

  lemma Varint32RoundTrip(v: nat, t: seq<byte>)
    requires v < M32
    ensures DecodeVarint32(EncodeVarint(v) + t) == Got(v, t)
  {
    Varint32Ranges(v, t);
  }

  lemma FixedRoundTrip(v: nat, n: nat)
    requires (n == 4 && v < M32) || (n == 8 && v < M64)
    ensures LittleEndian(FixedBytes(v, n)) == v
  {
    FixedValue(v, n, if n == 4 then M32 else M64);
  }

  function Pow256(n: nat): nat {
    if n == 0 then 1 else 256 * Pow256(n - 1)
  }

  lemma {:induction false} FixedValue(v: nat, n: nat, bound: nat)
    requires v < bound == Pow256(n)
    ensures LittleEndian(FixedBytes(v, n)) == v
  {
    if n > 0 {
      var bs := FixedBytes(v, n);
      assert bs[1..] == FixedBytes(v / 256, n - 1);
      FixedValue(v / 256, n - 1, Pow256(n - 1));
    }
  }

  lemma StringRoundTrip(bs: seq<byte>, t: seq<byte>)
    requires |bs| < M32
    ensures Delimited(EncString(bs) + t) == Got(bs, t)
    ensures DecodeVarint32(EncString(bs) + t) == Got(|bs|, bs + t)
    ensures Take(bs + t, |bs|) == Got(bs, t)
  {
    hide EncodeVarint, DecodeVarint32;
    Varint32RoundTrip(|bs|, bs + t);
    assert EncString(bs) + t == EncodeVarint(|bs|) + (bs + t);
    TakeAll(bs, t);
    hide Take;
  }

  lemma TakeAll(bs: seq<byte>, t: seq<byte>)
    ensures Take(bs + t, |bs|) == Got(bs, t)
  {
    assert (bs + t)[..|bs|] == bs && (bs + t)[|bs|..] == t;
  }

  lemma {:induction false} WholeCString(s: seq<byte>, max: nat)
    requires 0 !in s && |s| <= max
    ensures CStringLength(s, max) == |s|
  {
    if s != [] {
      assert s[0] in s;
      WholeCString(s[1..], max - 1);
    }
  }

  /** A signed integer of any field size survives the sign-extended 64-bit varint. */
  lemma SignedRoundTripField(f: Field, i: int, t: seq<byte>)
    requires IntSize(f.dataSize) && Cast(i, f.dataSize, true) == i
    ensures DecVarint(f, EncodeVarint(ToUnsigned(i, 64)) + t) == Got(VNum(i), t)
  {
    hide DecodeVarint, EncodeVarint;
    VarintRoundTrip(ToUnsigned(i, 64), t);
    Narrowed(i, f.dataSize);
  }

  lemma ZigZagRoundTripField(f: Field, i: int, t: seq<byte>)
    requires IntSize(f.dataSize) && Cast(i, f.dataSize, true) == i
    ensures DecSVarint(f, EncodeVarint(ZigZag(ToSigned(i, 64))) + t) == Got(VNum(i), t)
  {
    hide DecodeVarint, EncodeVarint;
    Widened(i, f.dataSize);
    ZigZagRoundTrip(i, 0);
    VarintRoundTrip(ZigZag(i), t);
  }

  lemma UnsignedRoundTripField(f: Field, i: int, t: seq<byte>)
    requires IntSize(f.dataSize) && Cast(i, f.dataSize, false) == i
    ensures DecUVarint(f, EncodeVarint(ToUnsigned(i, 64)) + t) == Got(VNum(i), t)
  {
    hide DecodeVarint, EncodeVarint;
    assert ToUnsigned(i, 64) == i;
    VarintRoundTrip(i, t);
  }

  lemma Widened(i: int, size: nat)
    requires IntSize(size) && Cast(i, size, true) == i
    ensures ToSigned(i, 64) == i
  {
  }

  lemma Narrowed(i: int, size: nat)
    requires IntSize(size) && Cast(i, size, true) == i
    ensures ToSigned(ToUnsigned(i, 64), if size == 8 then 64 else 32) == i
  {
    if size == 8 {
      SignedRoundTrip(i, 64);
    } else {
      FitsInt32(i, size);
      NarrowedInt32(i);
    }
  }

  lemma FitsInt32(i: int, size: nat)
    requires IntSize(size) && size != 8 && Cast(i, size, true) == i
    ensures -0x8000_0000 <= i < 0x8000_0000
  {
  }

  lemma NarrowedInt32(i: int)
    requires -0x8000_0000 <= i < 0x8000_0000
    ensures ToSigned(ToUnsigned(i, 64), 32) == i
  {
    if i >= 0 { LowHalf(i, 0); } else { LowHalf(i + M32, M32 - 1); }
  }

  lemma LowHalf(low: nat, high: nat)
    requires low < M32 && high < M32
    ensures low + M32 * high < M64 && (low + M32 * high) % M64 == low + M32 * high
    ensures (low + M32 * high) % M32 == low
  {
  }

  lemma FixedFieldRoundTrip(v: nat, n: nat, t: seq<byte>)
    requires (n == 4 && v < M32) || (n == 8 && v < M64)
    ensures DecFixed(FixedBytes(v, n) + t, n) == Got(VNum(v), t)
  {
    hide FixedBytes, LittleEndian;
    var bs := FixedBytes(v, n);
    assert (bs + t)[..n] == bs && (bs + t)[n..] == t;
    FixedRoundTrip(v, n);
  }

  lemma FixedWord(v: nat, bits: nat)
    requires (bits == 32 && v < M32) || (bits == 64 && v < M64)
    ensures ToUnsigned(v, bits) == v
  {
  }

  lemma BytesFieldRoundTrip(f: Field, bs: seq<byte>, t: seq<byte>)
    requires f.ltype.Bytes? || f.ltype.String? || f.ltype.FixedLengthBytes?
    requires Fits(f, VBytes(bs)) && EncScalar(f, VBytes(bs)).Some? && |EncScalar(f, VBytes(bs)).value| < M32
    ensures DecScalar(f, EncScalar(f, VBytes(bs)).value + t) == Got(VBytes(bs), t)
  {
    if f.ltype.String? {
      WholeCString(bs, f.dataSize);
      assert bs[..|bs|] == bs;
    }
    if f.ltype.FixedLengthBytes? { assert Inline(bs, f.dataSize) == bs; }
    assert |bs| < |EncString(bs)|;
    StringRoundTrip(bs, t);
    if f.ltype.FixedLengthBytes? && bs == [] {
      assert Zeros(0) == bs;
    }
  }

  /** Every scalar that fits its field is read back, and exactly its bytes are consumed. */
  lemma ScalarRoundTrip(f: Field, v: Value, t: seq<byte>)
    requires !f.ltype.Submessage? && Fits(f, v)
    requires EncScalar(f, v).Some? && |EncScalar(f, v).value| < M32
    ensures DecScalar(f, EncScalar(f, v).value + t) == Got(v, t)
  {
    hide DecodeVarint32, EncodeVarint, DecVarint, DecUVarint, DecSVarint, DecFixed, FixedBytes, ToUnsigned, ToSigned,
         ZigZag, Cast;
    match f.ltype
    case Bool => Varint32RoundTrip(if v.b then 1 else 0, t);
    case Varint => SignedRoundTripField(f, v.i, t);
    case UVarint => UnsignedRoundTripField(f, v.i, t);
    case SVarint => ZigZagRoundTripField(f, v.i, t);
    case Fixed32 => FixedWord(v.i, 32); FixedFieldRoundTrip(v.i, 4, t);
    case Fixed64 => FixedWord(v.i, 64); FixedFieldRoundTrip(v.i, 8, t);
    case Bytes => BytesFieldRoundTrip(f, v.bs, t);
    case String => BytesFieldRoundTrip(f, v.bs, t);
    case FixedLengthBytes => BytesFieldRoundTrip(f, v.bs, t);
    case Submessage =>
    case Extension =>
  }

  /** A string is read back exactly when it has no NUL inside and leaves room for one
      behind it. */
  lemma StringRestoredIff(f: Field, bs: seq<byte>, t: seq<byte>)
    requires f.ltype.String? && |bs| < M32
    ensures DecScalar(f, EncScalar(f, VBytes(bs)).value + t) == Got(VBytes(bs), t)
            <==> 0 !in bs && |bs| < f.dataSize
  {
    var n := CStringLength(bs, f.dataSize);
    var shown := bs[..n];
    StringRoundTrip(shown, t);
    if 0 !in bs && |bs| < f.dataSize {
      WholeCString(bs, f.dataSize);
      assert shown == bs;
    } else if n == |bs| {
      CStringHasNoNul(bs, f.dataSize);
    }
  }

  lemma {:induction false} CStringHasNoNul(s: seq<byte>, max: nat)
    ensures 0 !in s[..CStringLength(s, max)]
  {
    var n := CStringLength(s, max);
    if n > 0 {
      CStringHasNoNul(s[1..], max - 1);
      assert s[..n] == [s[0]] + s[1..][..n - 1];
    }
  }

  // ---------- one field on the wire ----------

  lemma {:induction false} SearchFinds(d: seq<Field>, i: nat, from: nat)
    requires DistinctTags(d) && from <= i < |d| && !d[i].ltype.Extension?
    ensures Search(d, d[i].tag, from) == i
    decreases i - from
  {
    if from < i { SearchFinds(d, i, from + 1); }
  }

  lemma TagWord(wireType: nat, tag: nat)
    requires wireType < 8 && 0 < tag < 0x2000_0000
    ensures var temp := (tag * 8 + wireType) % M64;
            0 < temp < M32 && temp / 8 == tag && temp % 8 == wireType
  {
  }

  lemma TagRoundTrip(wireType: nat, tag: nat, t: seq<byte>)
    requires wireType < 8 && 0 < tag < 0x2000_0000
    ensures DecodeTag(EncTag(wireType, tag) + t) == TagOf(wireType, tag, t)
  {
    hide DecodeVarint32, EncodeVarint;
    TagWord(wireType, tag);
    Varint32RoundTrip((tag * 8 + wireType) % M64, t);
  }

  lemma TagNonZero(f: Field)
    requires SupportedField(f)
    ensures f.tag != 0 && !f.ltype.Extension?
  {
  }

  /** A tag that the message has, and then the field's bytes: one turn of the loop. */
  lemma FieldTurn(d: seq<Field>, i: nat, wireType: nat, body: seq<byte>, m: Message, m': Message, t: seq<byte>,
      seen: set<nat>)
    requires WellFormed(d) && i < |d| && wireType < 8
    requires DecField(d[i], DataAt(d, i), wireType, body + t, m) == Got(m', t)
    ensures RunFields(d, EncTag(wireType, d[i].tag) + body + t, m, seen) == RunFields(d, t, m', Mark(d, i, seen))
  {
    hide DecField, DecodeTag, EncTag, Search, WellFormedField, SupportedField;
    var s := EncTag(wireType, d[i].tag) + body + t;
    assert SupportedField(d[i]) by { assert d[i] in d; }
    TagNonZero(d[i]);
    TagRoundTrip(wireType, d[i].tag, body + t);
    assert s == EncTag(wireType, d[i].tag) + (body + t);
    SearchFinds(d, i, 0);
  }

  // ---------- what RebuiltBefore holds for the fields still to come ----------

  lemma {:induction false} DefaultsAt(d: seq<Field>, i: nat, n: nat)
    requires OwnStorage(d) && i < n <= |d|
    ensures DataAt(d, i) in DefaultsBefore(d, n)
    ensures d[i].htype.Oneof? || DefaultsBefore(d, n)[DataAt(d, i)] == DefaultSlot(d[i])
  {
    hide DataAt, DefaultSlot;
    if i < n - 1 {
      DefaultsAt(d, i, n - 1);
    }
  }

  /** Until its turn comes, a field other than a union member holds its default. */
  lemma {:induction false} StillDefault(d: seq<Field>, m: Message, i: nat, n: nat)
    requires OwnStorage(d) && n <= i < |d| && !d[i].htype.Oneof?
    ensures DataAt(d, i) in RebuiltBefore(d, m, n)
    ensures RebuiltBefore(d, m, n)[DataAt(d, i)] == DefaultSlot(d[i])
  {
    hide DataAt, DefaultSlot, DefaultsBefore, RebuiltSlot, Present;
    if n == 0 {
      DefaultsAt(d, i, |d|);
    } else {
      StillDefault(d, m, i, n - 1);
    }
  }

  // ---------- values, arrays, fields, messages ----------

  /** The value a submessage field is decoded on top of. */
  predicate FreshPrior(f: Field, prior: Value) {
    f.ltype.Submessage? && f.ptr.SubFields? && !f.htype.Repeated? ==> prior == VMsg(Defaults(f.ptr.fields))
  }

  lemma {:induction false} ValueRoundTrip(f: Field, v: Value, prior: Value, t: seq<byte>)
    requires SupportedField(f) && WellFormedField(f) && Fits(f, v) && FreshPrior(f, prior)
    requires EncValue(f, v).Some? && |EncValue(f, v).value| < M32
    ensures DecValue(f, EncValue(f, v).value + t, prior) == Got(Rebuilt(f, v), t)
    decreases f, 0
  {
    hide DecScalar, EncScalar, DecodeNoInit, Encode, EncodeVarint, DecodeVarint32, Delimited, Defaults, Storable,
         WellFormed, RebuiltMessage, Supported;
    if f.ltype.Submessage? {
      var d := f.ptr.fields;
      var body := Encode(d, v.m).value;
      StringRoundTrip(body, t);
      MessageRoundTrip(d, v.m);
    } else {
      ScalarRoundTrip(f, v, t);
    }
  }

  /** The entries of a packed array, decoded behind those already there, whether or not the
      array has room for them. */
  lemma {:induction false} PackedOutcome(f: Field, items: seq<Value>, before: seq<Value>)
    requires Packable(f.ltype) && forall v | v in items :: Fits(f, v)
    requires EncPacked(f, items).Some? && |EncPacked(f, items).value| < M32
    requires |before| <= f.arraySize
    ensures DecPacked(f, EncPacked(f, items).value, before) ==
            if |before| + |items| <= f.arraySize then Got(before + items, []) else Fail
    decreases |items|
  {
    hide DecScalar, EncScalar, Fits;
    if items == [] {
      assert before + items == before;
    } else {
      var rest := EncPacked(f, items[1..]).value;
      assert items[0] in items;
      PackedNotEmpty(f, items[0]);
      if |before| < f.arraySize {
        ScalarRoundTrip(f, items[0], rest);
        PackedOutcome(f, items[1..], before + [items[0]]);
        assert before + [items[0]] + items[1..] == before + items;
      }
    }
  }

  lemma PackedNotEmpty(f: Field, v: Value)
    requires Packable(f.ltype) && EncScalar(f, v).Some?
    ensures EncScalar(f, v).value != []
  {
  }

  /** The entries of an array that is not packed, each with its own tag. */
  lemma {:induction false} UnpackedRoundTrip(d: seq<Field>, i: nat, items: seq<Value>, before: seq<Value>, m: Message,
      t: seq<byte>, seen: set<nat>)
    requires WellFormed(d) && i < |d| && d[i].htype.Repeated? && !Packable(d[i].ltype)
    requires forall v | v in items :: Fits(d[i], v)
    requires EncUnpacked(d[i], items).Some? && |EncUnpacked(d[i], items).value| < M32
    requires |before| + |items| <= d[i].arraySize
    requires DataAt(d, i) in m && m[DataAt(d, i)] == SRep(before)
    ensures RunFields(d, EncUnpacked(d[i], items).value + t, m, seen) ==
            RunFields(d, t, m[DataAt(d, i) := SRep(before + RebuiltFrom(d[i], items))], seen)
    decreases d[i], 1, |items|
  {
    hide WellFormed, RunFields, DataAt, Fits, Rebuilt, RebuiltFrom, EncUnpacked, Packable;
    var f, at := d[i], DataAt(d, i);
    FirstUnpacked(f, items);
    if items == [] {
      NothingAppended(m, at, before, t);
    } else {
      var v := Rebuilt(f, items[0]);
      UnpackedTurn(d, i, items, before, m, t, seen);
      UnpackedRoundTrip(d, i, items[1..], before + [v], m[at := SRep(before + [v])], t, seen);
      AppendedTwice(m, at, before, v, RebuiltFrom(f, items[1..]));
    }
  }

  lemma FirstUnpacked(f: Field, items: seq<Value>)
    requires EncUnpacked(f, items).Some?
    ensures items == [] ==> EncUnpacked(f, items).value == [] && RebuiltFrom(f, items) == []
    ensures items != [] ==>
              && EncUnpacked(f, items[1..]).Some?
              && |EncUnpacked(f, items[1..]).value| <= |EncUnpacked(f, items).value|
              && RebuiltFrom(f, items) == [Rebuilt(f, items[0])] + RebuiltFrom(f, items[1..])
  {
    hide Tagged, Rebuilt;
  }

  lemma NothingAppended(m: Message, at: int, before: seq<Value>, t: seq<byte>)
    requires at in m && m[at] == SRep(before)
    ensures [] + t == t && m[at := SRep(before + [])] == m
  {
    assert before + [] == before;
  }

  lemma AppendedTwice(m: Message, at: int, before: seq<Value>, v: Value, after: seq<Value>)
    ensures m[at := SRep(before + [v])][at := SRep(before + [v] + after)] == m[at := SRep(before + ([v] + after))]
  {
    assert before + [v] + after == before + ([v] + after);
  }

  lemma WellFormedAt(d: seq<Field>, i: nat)
    requires WellFormed(d) && i < |d|
    ensures SupportedField(d[i]) && WellFormedField(d[i]) && 0 < d[i].tag < 0x2000_0000
  {
    hide SupportedField, WellFormedField, OwnStorage, DistinctTags;
    assert d[i] in d;
    TagNonZero(d[i]);
  }

  lemma DecOneItem(f: Field, at: int, wireType: nat, s: seq<byte>, m: Message, before: seq<Value>)
    requires f.htype.Repeated? && !Packable(f.ltype)
    requires at in m && m[at] == SRep(before) && |before| < f.arraySize
    requires DecValue(f, s, VNum(0)).Got?
    ensures var r := DecValue(f, s, VNum(0));
            DecField(f, at, wireType, s, m) == Got(m[at := SRep(before + [r.value])], r.rest)
  {
    hide DecValue;
  }

  lemma UnpackedTurn(d: seq<Field>, i: nat, items: seq<Value>, before: seq<Value>, m: Message, t: seq<byte>,
      seen: set<nat>)
    requires WellFormed(d) && i < |d| && d[i].htype.Repeated? && !Packable(d[i].ltype)
    requires items != [] && forall v | v in items :: Fits(d[i], v)
    requires EncUnpacked(d[i], items).Some? && |EncUnpacked(d[i], items).value| < M32
    requires |before| < d[i].arraySize
    requires DataAt(d, i) in m && m[DataAt(d, i)] == SRep(before)
    ensures RunFields(d, EncUnpacked(d[i], items).value + t, m, seen) ==
            RunFields(d, EncUnpacked(d[i], items[1..]).value + t,
                      m[DataAt(d, i) := SRep(before + [Rebuilt(d[i], items[0])])], seen)
    decreases d[i], 1, 0
  {
    hide DecValue, DecField, EncValue, RunFields, Fits, Rebuilt, EncTag, WellFormed, SupportedField, WellFormedField,
         Packable, DataAt, WireTypeOf;
    var f, at := d[i], DataAt(d, i);
    var head, tail := EncValue(f, items[0]).value, EncUnpacked(f, items[1..]).value;
    WellFormedAt(d, i);
    assert items[0] in items;
    ValueRoundTrip(f, items[0], VNum(0), tail + t);
    var wireType := WireTypeOf(f.ltype);
    DecOneItem(f, at, wireType, head + (tail + t), m, before);
    var m' := m[at := SRep(before + [Rebuilt(f, items[0])])];
    WireTypeSmall(f.ltype);
    FieldTurn(d, i, wireType, head, m, m', tail + t, seen);
    RepeatedNotMarked(d, i, seen);
    assert EncUnpacked(f, items).value + t == EncTag(wireType, f.tag) + head + (tail + t);
  }

  lemma WireTypeSmall(l: LType)
    ensures WireTypeOf(l) < 8
  {
  }

  lemma RepeatedNotMarked(d: seq<Field>, i: nat, seen: set<nat>)
    requires i < |d| && !d[i].htype.Required?
    ensures Mark(d, i, seen) == seen
  {
  }

  /** Decoding a single value into a field that holds its default. */
  lemma DecOneValue(f: Field, at: int, m: Message, w: Message, s: seq<byte>)
    requires !f.htype.Repeated?
    requires f.htype.Oneof? || (at in w && w[at] == DefaultSlot(f))
    requires DecValue(f, s, DefaultValue(f)).Got?
    ensures var r := DecValue(f, s, DefaultValue(f));
            r.value == Rebuilt(f, Content(f, m, at)) ==>
            DecField(f, at, WireTypeOf(f.ltype), s, w) == Got(w[at := RebuiltSlot(f, m, at)], r.rest)
  {
    hide DecValue, DefaultValue, Rebuilt, Content;
  }

  lemma SingleFieldRoundTrip(d: seq<Field>, m: Message, i: nat, t: seq<byte>, seen: set<nat>)
    requires WellFormed(d) && Storable(d, m) && i < |d|
    requires !d[i].htype.Repeated? && Present(d[i], m, DataAt(d, i))
    requires Tagged(d[i], Content(d[i], m, DataAt(d, i))).Some?
    requires |Tagged(d[i], Content(d[i], m, DataAt(d, i))).value| < M32
    ensures var w := RebuiltBefore(d, m, i);
            RunFields(d, Tagged(d[i], Content(d[i], m, DataAt(d, i))).value + t, w, seen) ==
            RunFields(d, t, w[DataAt(d, i) := RebuiltSlot(d[i], m, DataAt(d, i))], Mark(d, i, seen))
    decreases d[i], 2
  {
    hide RunFields, EncValue, DecValue, DecField, EncTag, WireTypeOf, DataAt, WellFormed, OwnStorage, Fits, Rebuilt,
         RebuiltBefore, RebuiltSlot, DefaultSlot, DefaultValue, Mark, Storable, Content, Present, SupportedField,
         WellFormedField;
    var f, at, w := d[i], DataAt(d, i), RebuiltBefore(d, m, i);
    var v := Content(f, m, at);
    var body := EncValue(f, v).value;
    WellFormedAt(d, i);
    ContentFits(d, m, i);
    PriorIsFresh(f);
    if !f.htype.Oneof? {
      StorageOf(d);
      StillDefault(d, m, i, i);
    }
    ValueRoundTrip(f, v, DefaultValue(f), t);
    DecOneValue(f, at, m, w, body + t);
    WireTypeSmall(f.ltype);
    FieldTurn(d, i, WireTypeOf(f.ltype), body, w, w[at := RebuiltSlot(f, m, at)], t, seen);
  }

  lemma StorageOf(d: seq<Field>)
    requires WellFormed(d)
    ensures OwnStorage(d)
  {
  }

  lemma PriorIsFresh(f: Field)
    ensures FreshPrior(f, DefaultValue(f))
  {
  }

  lemma ContentFits(d: seq<Field>, m: Message, i: nat)
    requires Storable(d, m) && i < |d| && !d[i].htype.Repeated? && Present(d[i], m, DataAt(d, i))
    ensures Fits(d[i], Content(d[i], m, DataAt(d, i)))
  {
    hide Fits, DataAt, ZeroOrEmpty;
    assert StorableAt(d, i, m);
  }

  lemma ArrayFieldRoundTrip(d: seq<Field>, m: Message, i: nat, t: seq<byte>, seen: set<nat>)
    requires WellFormed(d) && Storable(d, m) && i < |d| && d[i].htype.Repeated?
    requires var e := EncArray(d[i], OldItems(m, DataAt(d, i))); e.Some? && |e.value| < M32
    requires OldItems(m, DataAt(d, i)) != []
    ensures var w := RebuiltBefore(d, m, i);
            RunFields(d, EncArray(d[i], OldItems(m, DataAt(d, i))).value + t, w, seen) ==
            RunFields(d, t, w[DataAt(d, i) := RebuiltSlot(d[i], m, DataAt(d, i))], seen)
    decreases d[i], 2
  {
    hide RunFields, EncPacked, EncUnpacked, DecField, EncTag, EncString, Packable, DataAt, WellFormed, OwnStorage,
         Fits, Rebuilt, RebuiltBefore, Mark, Storable, SupportedField, WellFormedField;
    var f, at, w := d[i], DataAt(d, i), RebuiltBefore(d, m, i);
    var items := OldItems(m, at);
    ItemsFit(d, m, i);
    StorageOf(d);
    StillDefault(d, m, i, i);
    if Packable(f.ltype) {
      var body := EncPacked(f, items).value;
      assert EncArray(f, items).value == EncTag(WT_STRING, f.tag) + EncString(body);
      PackedFieldStep(f, items, at, w, t);
      FieldTurn(d, i, WT_STRING, EncString(body), w, w[at := SRep(items)], t, seen);
      RepeatedNotMarked(d, i, seen);
      PackedRebuilt(f, items);
    } else {
      UnpackedRoundTrip(d, i, items, [], w, t, seen);
      assert [] + RebuiltFrom(f, items) == RebuiltFrom(f, items);
    }
  }

  lemma ItemsFit(d: seq<Field>, m: Message, i: nat)
    requires Storable(d, m) && i < |d| && d[i].htype.Repeated?
    ensures forall v | v in OldItems(m, DataAt(d, i)) :: Fits(d[i], v)
  {
    hide Fits, DataAt;
    assert StorableAt(d, i, m);
  }

  lemma PackedFieldStep(f: Field, items: seq<Value>, at: int, w: Message, t: seq<byte>)
    requires f.htype.Repeated? && Packable(f.ltype) && |items| <= f.arraySize
    requires forall v | v in items :: Fits(f, v)
    requires EncPacked(f, items).Some? && |EncString(EncPacked(f, items).value)| < M32
    requires at in w && w[at] == SRep([])
    ensures DecField(f, at, WT_STRING, EncString(EncPacked(f, items).value) + t, w) == Got(w[at := SRep(items)], t)
  {
    hide EncPacked, DecPacked, Fits, Delimited;
    var body := EncPacked(f, items).value;
    StringRoundTrip(body, t);
    PackedOutcome(f, items, []);
    assert [] + items == items;
  }

  lemma {:induction false} PackedRebuilt(f: Field, items: seq<Value>)
    requires Packable(f.ltype)
    ensures RebuiltFrom(f, items) == items
  {
    if items != [] { PackedRebuilt(f, items[1..]); }
  }

  /** The bytes of field i take the struct from RebuiltBefore(i) to RebuiltBefore(i + 1). */
  lemma FieldRoundTrip(d: seq<Field>, m: Message, i: nat, t: seq<byte>, seen: set<nat>)
    requires WellFormed(d) && Storable(d, m) && i < |d|
    requires EncField(d[i], m, DataAt(d, i)).Some? && |EncField(d[i], m, DataAt(d, i)).value| < M32
    ensures RunFields(d, EncField(d[i], m, DataAt(d, i)).value + t, RebuiltBefore(d, m, i), seen) ==
            RunFields(d, t, RebuiltBefore(d, m, i + 1), Mark(d, i, seen))
    decreases d[i], 3
  {
    hide RunFields, DataAt, WellFormed, Storable, Tagged, EncArray, Content, RebuiltSlot, DefaultsBefore, ZeroOrEmpty,
         DecField;
    var f, at := d[i], DataAt(d, i);
    if !Present(f, m, at) {
      assert [] + t == t;
      assert Mark(d, i, seen) == seen;
    } else if f.htype.Repeated? {
      ArrayFieldRoundTrip(d, m, i, t, seen);
      RepeatedNotMarked(d, i, seen);
    } else {
      SingleFieldRoundTrip(d, m, i, t, seen);
    }
  }

  /** The required fields noted while the fields from i on are decoded. */
  function MarkedFrom(d: seq<Field>, i: nat, seen: set<nat>): set<nat>
    requires i <= |d|
    decreases |d| - i
  {
    if i == |d| then seen else MarkedFrom(d, i + 1, Mark(d, i, seen))
  }

  lemma {:induction false} MarkedAll(d: seq<Field>, i: nat, seen: set<nat>)
    requires i <= |d|
    requires forall k: nat :: k < RequiredBefore(d, i) && k < PB_MAX_REQUIRED_FIELDS ==> k in seen
    ensures AllRequiredSeen(d, MarkedFrom(d, i, seen))
    decreases |d| - i
  {
    if i < |d| { MarkedAll(d, i + 1, Mark(d, i, seen)); }
  }

  lemma {:induction false} FieldsRoundTrip(d: seq<Field>, m: Message, i: nat, seen: set<nat>)
    requires WellFormed(d) && Storable(d, m) && i <= |d|
    requires EncFrom(d, m, i).Some? && |EncFrom(d, m, i).value| < M32
    ensures RunFields(d, EncFrom(d, m, i).value, RebuiltBefore(d, m, i), seen) ==
            Ran(RebuiltMessage(d, m), MarkedFrom(d, i, seen), [], false)
    decreases d, 1, |d| - i
  {
    hide DataAt, WellFormed, Storable, EncField, DecodeTag, DecFound, RebuiltBefore, Mark, Search;
    if i < |d| {
      var tail := EncFrom(d, m, i + 1).value;
      FieldRoundTrip(d, m, i, tail, seen);
      FieldsRoundTrip(d, m, i + 1, Mark(d, i, seen));
    }
  }

  lemma MessageRoundTrip(d: seq<Field>, m: Message)
    requires WellFormed(d) && Storable(d, m)
    requires Encode(d, m).Some? && |Encode(d, m).value| < M32
    ensures DecodeNoInit(d, Encode(d, m).value, Defaults(d)) == Got(RebuiltMessage(d, m), [])
    decreases d, 2
  {
    hide WellFormed, Storable, EncFrom, RunFields, AllRequiredSeen, MarkedFrom, DefaultsBefore;
    FieldsRoundTrip(d, m, 0, {});
    MarkedAll(d, 0, {});
  }
}
