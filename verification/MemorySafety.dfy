/** Whatever the bytes, the decoder stores in every field only what the field can hold. */
module MemorySafety {
  import opened Bits
  import opened Descriptors
  import opened Varints
  import opened Decoding
  import opened RoundTrip
  import opened RoundTripMeaning

  /** The value stays inside the storage of the field: a number fits its width, a byte
      array its buffer, and a string leaves room for its terminator. */
  predicate InBounds(f: Field, v: Value)
    decreases f, 0
  {
    match f.ltype
    case Bool => v.VBool?
    case Varint => v.VNum? && IntSize(f.dataSize) && Cast(v.i, f.dataSize, true) == v.i
    case SVarint => v.VNum? && IntSize(f.dataSize) && Cast(v.i, f.dataSize, true) == v.i
    case UVarint => v.VNum? && IntSize(f.dataSize) && Cast(v.i, f.dataSize, false) == v.i
    case Fixed32 => v.VNum? && 0 <= v.i < M32
    case Fixed64 => v.VNum? && 0 <= v.i < M64
    case Bytes => v.VBytes? && |v.bs| + BYTES_HEADER <= f.dataSize
    case String => v.VBytes? && |v.bs| + 1 <= f.dataSize
    case FixedLengthBytes => v.VBytes? && |v.bs| == f.dataSize
    case Submessage => v.VMsg? && f.ptr.SubFields? && StructInBounds(f.ptr.fields, v.m)
    case Extension => false
  }

  /** Every entry of the struct is one of its fields, of the right kind and in bounds; an
      array never has more entries than there is storage for. */
  predicate StructInBounds(d: seq<Field>, m: Message)
    decreases d, 1
  {
    forall i | 0 <= i < |d| :: SlotInBounds(d, i, m)
  }

  predicate SlotInBounds(d: seq<Field>, i: nat, m: Message)
    requires i < |d|
    decreases d, 0
  {
    var f, at := d[i], DataAt(d, i);
    at in m &&
    match f.htype
    case Required => m[at].SOne? && InBounds(f, m[at].v)
    case Optional =>
      if f.sizeOffset != 0 then m[at].SOpt? && InBounds(f, m[at].v)
      else m[at].SOne? && InBounds(f, m[at].v)
    case Repeated =>
      m[at].SRep? && |m[at].items| <= f.arraySize && forall v | v in m[at].items :: InBounds(f, v)
    case Oneof => m[at].SUnion? && (m[at].which == f.tag ==> InBounds(f, m[at].v))
  }

  /** The initial values that the table gives are in bounds, for nested tables too. */
  predicate GoodDefaults(d: seq<Field>) {
    forall f | f in d :: GoodDefault(f)
  }

  predicate GoodDefault(f: Field) {
    match f.ptr
    case SubFields(d) => GoodDefaults(d)
    case Default(v) => f.htype.Repeated? || f.htype.Oneof? || InBounds(f, v)
    case Null => f.htype.Repeated? || f.htype.Oneof? || InBounds(f, ZeroValue(f))
  }

  lemma {:induction false} LittleEndianBound(bs: seq<byte>, n: nat)
    requires |bs| == n
    ensures LittleEndian(bs) < Pow256(n)
  {
    if n > 0 { LittleEndianBound(bs[1..], n - 1); }
  }

  /** A decoded scalar is in bounds, whatever the bytes. */
  lemma ScalarInBounds(f: Field, s: seq<byte>)
    requires DecScalar(f, s).Got?
    ensures InBounds(f, DecScalar(f, s).value)
  {
    hide DecodeVarint, DecodeVarint32, Cast, ToSigned, UnZigZag, LittleEndian;
    match f.ltype {
      case Fixed32 =>
        LittleEndianBound(Take(s, 4).value, 4);
        assert Pow256(4) == M32;
      case Fixed64 =>
        LittleEndianBound(Take(s, 8).value, 8);
        assert Pow256(8) == M64;
      case _ =>
    }
  }

  lemma {:induction false} PackedInBounds(f: Field, s: seq<byte>, items: seq<Value>)
    requires DecPacked(f, s, items).Got? && |items| <= f.arraySize
    requires forall v | v in items :: InBounds(f, v)
    ensures var r := DecPacked(f, s, items).value; |r| <= f.arraySize && forall v | v in r :: InBounds(f, v)
    decreases |s|
  {
    hide DecScalar, InBounds;
    if s != [] {
      ScalarInBounds(f, s);
      var r := DecScalar(f, s);
      PackedInBounds(f, r.rest, items + [r.value]);
    }
  }

  lemma {:induction false} DefaultInBounds(f: Field)
    requires SupportedField(f) && WellFormedField(f) && GoodDefault(f) && !f.htype.Repeated?
             && (!f.htype.Oneof? || f.ltype.Submessage?)
    ensures InBounds(f, DefaultValue(f))
    decreases f, 0
  {
    hide WellFormed, Supported, GoodDefaults, Defaults;
    if f.ltype.Submessage? {
      DefaultsInBounds(f.ptr.fields);
    }
  }

  lemma {:induction false} DefaultsInBounds(d: seq<Field>)
    requires WellFormed(d) && GoodDefaults(d)
    ensures StructInBounds(d, Defaults(d))
    decreases d, 1
  {
    hide WellFormed, DataAt, InBounds, DefaultValue, DefaultsBefore, GoodDefault;
    forall i | 0 <= i < |d| ensures SlotInBounds(d, i, Defaults(d)) {
      DefaultSlotInBounds(d, i);
    }
  }

  lemma {:induction false} DefaultSlotInBounds(d: seq<Field>, i: nat)
    requires WellFormed(d) && GoodDefaults(d) && i < |d|
    ensures SlotInBounds(d, i, Defaults(d))
    decreases d, 0
  {
    hide WellFormed, DataAt, InBounds, DefaultValue, DefaultsBefore, GoodDefault, SupportedField, WellFormedField;
    WellFormedAt(d, i);
    StorageOf(d);
    assert d[i] in d;
    if d[i].htype.Oneof? {
      DefaultUnion(d, i, |d|);
    } else {
      DefaultsAt(d, i, |d|);
      if !d[i].htype.Repeated? { DefaultInBounds(d[i]); }
    }
  }

  lemma {:induction false} ValueInBounds(f: Field, s: seq<byte>, prior: Value)
    requires SupportedField(f) && WellFormedField(f) && GoodDefault(f)
    requires f.ltype.Submessage? && !f.htype.Repeated? ==> InBounds(f, prior)
    requires DecValue(f, s, prior).Got?
    ensures InBounds(f, DecValue(f, s, prior).value)
    decreases f, 0
  {
    hide WellFormed, Supported, GoodDefaults, Defaults, DecScalar, DecodeNoInit, Delimited, StructInBounds;
    if f.ltype.Submessage? {
      var d := f.ptr.fields;
      DefaultsInBounds(d);
      var start := if f.htype.Repeated? then Defaults(d) else SubMessage(prior);
      DecodedInBounds(d, Delimited(s).value, start);
    } else {
      ScalarInBounds(f, s);
    }
  }

  /** What decode_static_field stores is in bounds of its slot. */
  lemma {:induction false} StoredInBounds(d: seq<Field>, i: nat, wireType: nat, s: seq<byte>, m: Message)
    requires WellFormed(d) && GoodDefaults(d) && i < |d| && StructInBounds(d, m)
    requires DecField(d[i], DataAt(d, i), wireType, s, m).Got?
    ensures SlotInBounds(d, i, DecField(d[i], DataAt(d, i), wireType, s, m).value)
    decreases d[i], 1
  {
    hide WellFormed, GoodDefaults, DataAt, InBounds, DecValue, DecPacked, Delimited, DefaultValue, GoodDefault,
         SupportedField, WellFormedField, Packable;
    var f, at := d[i], DataAt(d, i);
    WellFormedAt(d, i);
    GoodDefaultAt(d, i);
    assert SlotInBounds(d, i, m);
    match f.htype {
      case Required => ValueInBounds(f, s, m[at].v);
      case Optional => ValueInBounds(f, s, m[at].v);
      case Oneof =>
        if f.ltype.Submessage? { DefaultInBounds(f); }
        ValueInBounds(f, s, DefaultValue(f));
      case Repeated =>
        if wireType == WT_STRING && Packable(f.ltype) {
          PackedInBounds(f, Delimited(s).value, m[at].items);
        } else {
          ValueInBounds(f, s, VNum(0));
        }
    }
  }

  lemma GoodDefaultAt(d: seq<Field>, i: nat)
    requires GoodDefaults(d) && i < |d|
    ensures GoodDefault(d[i])
  {
    hide GoodDefault;
    assert d[i] in d;
  }

  /** Storing into one field leaves the others as they are; a union member stored into
      unselects its siblings. */
  lemma {:induction false} FieldKeepsBounds(d: seq<Field>, i: nat, wireType: nat, s: seq<byte>, m: Message)
    requires WellFormed(d) && GoodDefaults(d) && i < |d| && StructInBounds(d, m)
    requires DecField(d[i], DataAt(d, i), wireType, s, m).Got?
    ensures StructInBounds(d, DecField(d[i], DataAt(d, i), wireType, s, m).value)
    decreases d[i], 2
  {
    hide WellFormed, GoodDefaults, DataAt, InBounds, DecValue, DecField, SlotInBounds, DistinctTags, OwnStorage;
    var m' := DecField(d[i], DataAt(d, i), wireType, s, m).value;
    StoredInBounds(d, i, wireType, s, m);
    forall j | 0 <= j < |d| ensures SlotInBounds(d, j, m') {
      assert SlotInBounds(d, j, m);
      if j != i { OthersKeepBounds(d, i, wireType, s, m, j); }
    }
  }

  lemma OthersKeepBounds(d: seq<Field>, i: nat, wireType: nat, s: seq<byte>, m: Message, j: nat)
    requires WellFormed(d) && i < |d| && j < |d| && i != j && SlotInBounds(d, j, m)
    requires DecField(d[i], DataAt(d, i), wireType, s, m).Got?
    ensures SlotInBounds(d, j, DecField(d[i], DataAt(d, i), wireType, s, m).value)
  {
    hide WellFormed, DataAt, InBounds, DecValue, DecPacked, Delimited, DefaultValue, Packable;
    StorageOf(d);
    TagsOf(d);
    var m' := DecField(d[i], DataAt(d, i), wireType, s, m).value;
    if DataAt(d, j) != DataAt(d, i) {
      assert m'[DataAt(d, j)] == m[DataAt(d, j)];
    } else {
      assert d[i].htype.Oneof? && d[j].htype.Oneof? && d[i].tag != d[j].tag;
    }
  }

  lemma {:induction false} RunInBounds(d: seq<Field>, s: seq<byte>, m: Message, seen: set<nat>)
    requires WellFormed(d) && GoodDefaults(d) && StructInBounds(d, m)
    requires RunFields(d, s, m, seen).Ran?
    ensures StructInBounds(d, RunFields(d, s, m, seen).m)
    decreases d, 3, |s|
  {
    hide WellFormed, GoodDefaults, SlotInBounds, DataAt, DecodeTag, SkipField, DecField, Search, Mark, DecBool;
    if s != [] && DecodeTag(s).TagOf? {
      var tag := DecodeTag(s);
      var i := Search(d, tag.tag, 0);
      if i < 0 {
        RunInBounds(d, SkipField(tag.rest, tag.wireType).rest, m, seen);
      } else {
        var r := DecFound(d, i, tag.wireType, tag.rest, m);
        if i < |d| {
          FieldKeepsBounds(d, i, tag.wireType, tag.rest, m);
        } else {
          SearchWithin(d, tag.tag);
        }
        RunInBounds(d, r.rest, r.value, Mark(d, i, seen));
      }
    }
  }

  /** Only in an empty table is the terminator found. */
  lemma SearchWithin(d: seq<Field>, tag: nat)
    ensures Search(d, tag, 0) == |d| ==> d == []
  {
  }

  lemma {:induction false} DecodedInBounds(d: seq<Field>, s: seq<byte>, m: Message)
    requires WellFormed(d) && GoodDefaults(d) && StructInBounds(d, m)
    requires DecodeNoInit(d, s, m).Got?
    ensures StructInBounds(d, DecodeNoInit(d, s, m).value)
    decreases d, 4
  {
    hide WellFormed, GoodDefaults, StructInBounds, RunFields, AllRequiredSeen;
    RunInBounds(d, s, m, {});
  }

  /** For every byte string, whatever pb_decode accepts is a struct that is in bounds:
      no number is truncated, no buffer, string or array overflows, at any depth. */
  lemma DecodeStaysInBounds(d: seq<Field>, s: seq<byte>)
    requires WellFormed(d) && GoodDefaults(d)
    requires Decode(d, s).Got?
    ensures StructInBounds(d, Decode(d, s).value)
  {
    hide WellFormed, GoodDefaults, StructInBounds, DecodeNoInit, Defaults;
    DefaultsInBounds(d);
    DecodedInBounds(d, s, Defaults(d));
  }
}
