/** What pb_decode.c computes, as functions from the bytes left in a stream to the value
    decoded and the bytes then left. Every `return false` of the C code is a `Fail`. */
module Decoding {
  import opened Bits
  import opened Descriptors
  import opened FieldIterator
  import opened Varints

  // ---------- tags and skipping ----------

  /** The outcomes of pb_decode_tag. `AtEnd` is a false return with `eof` set: the bytes
      ran out before the tag, or the tag was the zero that terminates a message. */
  datatype Tag = TagFail | AtEnd(rest: seq<byte>) | TagOf(wireType: nat, tag: nat, rest: seq<byte>)

  const WT_VARINT := 0
  const WT_64BIT := 1
  const WT_STRING := 2
  const WT_32BIT := 5

  function DecodeTag(s: seq<byte>): (r: Tag)
    ensures r.TagOf? ==> |r.rest| < |s| && r.wireType < 8
  {
    if s == [] then AtEnd([])
    else
      match DecodeVarint32(s)
      case Fail => TagFail
      case Got(temp, rest) => if temp == 0 then AtEnd(rest) else TagOf(temp % 8, temp / 8, rest)
  }

  function Take(s: seq<byte>, n: nat): (r: Read<seq<byte>>)
    ensures r.Got? ==> |s| == n + |r.rest|
  {
    if n <= |s| then Got(s[..n], s[n..]) else Fail
  }

  function SkipVarint(s: seq<byte>): (r: Read<()>)
    ensures r.Got? ==> |r.rest| < |s|
  {
    if s == [] then Fail
    else if s[0] >= 128 then SkipVarint(s[1..])
    else Got((), s[1..])
  }

  /** Take, ignoring the bytes. */
  function Drop(s: seq<byte>, n: nat): (r: Read<()>)
    ensures r.Got? ==> |s| == n + |r.rest|
  {
    if n <= |s| then Got((), s[n..]) else Fail
  }

  function SkipString(s: seq<byte>): (r: Read<()>)
    ensures r.Got? ==> |r.rest| < |s|
  {
    match DecodeVarint32(s)
    case Fail => Fail
    case Got(length, rest) => Drop(rest, length)
  }

  function SkipField(s: seq<byte>, wireType: nat): (r: Read<()>)
    ensures r.Got? ==> |r.rest| <= |s|
  {
    if wireType == WT_VARINT then SkipVarint(s)
    else if wireType == WT_64BIT then Drop(s, 8)
    else if wireType == WT_STRING then SkipString(s)
    else if wireType == WT_32BIT then Drop(s, 4)
    else Fail
  }

  /** pb_make_string_substream: the bytes of a length-delimited field. */
  function Delimited(s: seq<byte>): (r: Read<seq<byte>>)
    ensures r.Got? ==> |r.value| + |r.rest| < |s|
  {
    match DecodeVarint32(s)
    case Fail => Fail
    case Got(size, rest) => Take(rest, size)
  }

  // ---------- scalars ----------

  /** The integer sizes that the varint decoders know. */
  predicate IntSize(n: nat) {
    n == 1 || n == 2 || n == 4 || n == 8
  }

  /** A cast to the signed or unsigned integer type of `size` bytes. */
  function Cast(i: int, size: nat, signed: bool): int
    requires IntSize(size)
  {
    if signed then ToSigned(i, 8 * size) else ToUnsigned(i, 8 * size)
  }

  /** Stores a 64-bit value in a field of `size` bytes, if it keeps its value there. */
  function Clamp(i: int, size: nat, signed: bool, rest: seq<byte>): Read<Value> {
    if IntSize(size) && Cast(i, size, signed) == i then Got(VNum(i), rest) else Fail
  }

  /** The little-endian number in the first n bytes. */
  function LittleEndian(s: seq<byte>): nat {
    if s == [] then 0 else s[0] + 256 * LittleEndian(s[1..])
  }

  function DecFixed(s: seq<byte>, n: nat): (r: Read<Value>)
    requires n > 0
    ensures r.Got? ==> |r.rest| < |s|
  {
    match Take(s, n)
    case Fail => Fail
    case Got(bs, rest) => Got(VNum(LittleEndian(bs)), rest)
  }

  function DecBytes(f: Field, s: seq<byte>): (r: Read<Value>)
    ensures r.Got? ==> |r.rest| < |s|
  {
    match DecodeVarint32(s)
    case Fail => Fail
    case Got(size, rest) =>
      if size > PB_SIZE_MAX || size + BYTES_HEADER > f.dataSize then Fail
      else match Take(rest, size)
        case Fail => Fail
        case Got(bs, rest') => Got(VBytes(bs), rest')
  }

  function DecString(f: Field, s: seq<byte>): (r: Read<Value>)
    ensures r.Got? ==> |r.rest| < |s|
  {
    match DecodeVarint32(s)
    case Fail => Fail
    case Got(size, rest) =>
      if size + 1 > f.dataSize then Fail
      else match Take(rest, size)
        case Fail => Fail
        case Got(bs, rest') => Got(VBytes(bs), rest')
  }

  function Zeros(n: nat): (bs: seq<byte>)
    ensures |bs| == n
  {
    seq(n, _ => 0)
  }

  function DecFixedLengthBytes(f: Field, s: seq<byte>): (r: Read<Value>)
    ensures r.Got? ==> |r.rest| < |s|
  {
    match DecodeVarint32(s)
    case Fail => Fail
    case Got(size, rest) =>
      if size > PB_SIZE_MAX then Fail
      else if size == 0 then Got(VBytes(Zeros(f.dataSize)), rest)
      else if size != f.dataSize then Fail
      else match Take(rest, f.dataSize)
        case Fail => Fail
        case Got(bs, rest') => Got(VBytes(bs), rest')
  }

  /** pb_dec_varint: fields of up to 32 bits first see the value as an int32. */
  function DecVarint(f: Field, s: seq<byte>): (r: Read<Value>)
    ensures r.Got? ==> |r.rest| < |s|
  {
    match DecodeVarint(s)
    case Fail => Fail
    case Got(v, rest) => Clamp(ToSigned(v, if f.dataSize == 8 then 64 else 32), f.dataSize, true, rest)
  }

  function DecUVarint(f: Field, s: seq<byte>): (r: Read<Value>)
    ensures r.Got? ==> |r.rest| < |s|
  {
    match DecodeVarint(s)
    case Fail => Fail
    case Got(v, rest) => Clamp(v, f.dataSize, false, rest)
  }

  function DecSVarint(f: Field, s: seq<byte>): (r: Read<Value>)
    ensures r.Got? ==> |r.rest| < |s|
  {
    match DecodeVarint(s)
    case Fail => Fail
    case Got(v, rest) => Clamp(UnZigZag(v), f.dataSize, true, rest)
  }

  function DecBool(s: seq<byte>): (r: Read<Value>)
    ensures r.Got? ==> |r.rest| < |s|
  {
    match DecodeVarint32(s)
    case Fail => Fail
    case Got(v, rest) => Got(VBool(v != 0), rest)
  }

  /** PB_DECODERS[ltype], except for submessages. */
  function DecScalar(f: Field, s: seq<byte>): (r: Read<Value>)
    ensures r.Got? ==> |r.rest| < |s|
  {
    match f.ltype
    case Bool => DecBool(s)
    case Varint => DecVarint(f, s)
    case UVarint => DecUVarint(f, s)
    case SVarint => DecSVarint(f, s)
    case Fixed32 => DecFixed(s, 4)
    case Fixed64 => DecFixed(s, 8)
    case Bytes => DecBytes(f, s)
    case String => DecString(f, s)
    case FixedLengthBytes => DecFixedLengthBytes(f, s)
    case Submessage => Fail
    case Extension => Fail
  }

  // ---------- defaults ----------

  function ZeroValue(f: Field): Value {
    match f.ltype
    case Bool => VBool(false)
    case Varint => VNum(0)
    case UVarint => VNum(0)
    case SVarint => VNum(0)
    case Fixed32 => VNum(0)
    case Fixed64 => VNum(0)
    case Bytes => VBytes([])
    case String => VBytes([])
    case FixedLengthBytes => VBytes(Zeros(f.dataSize))
    case Submessage => VMsg(map[])
    case Extension => VBool(false)
  }

  function DefaultValue(f: Field): Value
    decreases f, 1
  {
    match f.ptr
    case SubFields(d) => VMsg(Defaults(d))
    case Default(v) => v
    case Null => ZeroValue(f)
  }

  /** pb_field_set_to_default. The contents of an empty array or an unselected union are
      left as they are; nothing reads them. */
  function DefaultSlot(f: Field): Slot
    decreases f, 2
  {
    match f.htype
    case Required => SOne(DefaultValue(f))
    case Optional => if f.sizeOffset != 0 then SOpt(false, DefaultValue(f)) else SOne(DefaultValue(f))
    case Repeated => SRep([])
    case Oneof => SUnion(0, VNum(0))
  }

  /** pb_message_set_to_defaults, for the fields before i. */
  function DefaultsBefore(d: seq<Field>, i: nat): Message
    requires i <= |d|
    decreases d, 0, i
  {
    if i == 0 then map[]
    else DefaultsBefore(d, i - 1)[DataAt(d, i - 1) := DefaultSlot(d[i - 1])]
  }

  function Defaults(d: seq<Field>): Message
    decreases d, 1
  {
    DefaultsBefore(d, |d|)
  }

  // ---------- fields and messages ----------

  /** The value a slot holds for a plain, optional or singular field. */
  function OldValue(m: Message, at: int): Value {
    if at in m && m[at].SOne? then m[at].v
    else if at in m && m[at].SOpt? then m[at].v
    else VNum(0)
  }

  function OldItems(m: Message, at: int): seq<Value> {
    if at in m && m[at].SRep? then m[at].items else []
  }

  function SubMessage(v: Value): Message {
    if v.VMsg? then v.m else map[]
  }

  /** The loop over a packed array; it stops with an error when the array is full. */
  function DecPacked(f: Field, s: seq<byte>, items: seq<Value>): Read<seq<Value>>
    decreases |s|
  {
    if s == [] then Got(items, [])
    else if |items| >= f.arraySize then Fail
    else match DecScalar(f, s)
      case Fail => Fail
      case Got(v, rest) => DecPacked(f, rest, items + [v])
  }

  /** pb_dec_submessage: `prior` is what the destination holds. */
  function DecSubmessage(f: Field, s: seq<byte>, prior: Value): (r: Read<Value>)
    ensures r.Got? ==> |r.rest| < |s|
    decreases f, 3
  {
    match Delimited(s)
    case Fail => Fail
    case Got(body, rest) =>
      if !f.ptr.SubFields? then Fail
      else
        var start := if f.htype.Repeated? then Defaults(f.ptr.fields) else SubMessage(prior);
        match DecodeNoInit(f.ptr.fields, body, start)
        case Fail => Fail
        case Got(m, _) => Got(VMsg(m), rest)
  }

  function DecValue(f: Field, s: seq<byte>, prior: Value): (r: Read<Value>)
    ensures r.Got? ==> |r.rest| < |s|
    decreases f, 4
  {
    if f.ltype.Submessage? then DecSubmessage(f, s, prior) else DecScalar(f, s)
  }

  /** decode_static_field for the field whose data lies at `at`. */
  function DecField(f: Field, at: int, wireType: nat, s: seq<byte>, m: Message): (r: Read<Message>)
    ensures r.Got? ==> |r.rest| < |s|
    decreases f, 5
  {
    match f.htype
    case Required =>
      (match DecValue(f, s, OldValue(m, at))
       case Fail => Fail
       case Got(v, rest) => Got(m[at := SOne(v)], rest))
    case Optional =>
      (match DecValue(f, s, OldValue(m, at))
       case Fail => Fail
       case Got(v, rest) => Got(m[at := if f.sizeOffset != 0 then SOpt(true, v) else SOne(v)], rest))
    case Repeated =>
      var items := OldItems(m, at);
      if wireType == WT_STRING && Packable(f.ltype) then
        (match Delimited(s)
         case Fail => Fail
         case Got(body, rest) =>
           match DecPacked(f, body, items)
           case Fail => Fail
           case Got(items', _) => Got(m[at := SRep(items')], rest))
      else if |items| >= f.arraySize then Fail
      else
        (match DecValue(f, s, VNum(0))
         case Fail => Fail
         case Got(v, rest) => Got(m[at := SRep(items + [v])], rest))
    case Oneof =>
      (match DecValue(f, s, DefaultValue(f))
       case Fail => Fail
       case Got(v, rest) => Got(m[at := SUnion(f.tag, v)], rest))
  }

  /** The position pb_field_iter_find stops at when tags are distinct, or -1. */
  function Search(d: seq<Field>, tag: nat, from: nat): (p: int)
    requires from <= |d|
    ensures p >= 0 ==> p <= |d| && Matches(d, p, tag)
    ensures p < 0 ==> forall i: nat :: from <= i <= |d| ==> !Matches(d, i, tag)
    decreases |d| - from
  {
    if Matches(d, from, tag) then from
    else if from < |d| then Search(d, tag, from + 1)
    else -1
  }

  /** The end of the field loop of pb_decode_noinit: the struct, the indices of the
      required fields seen, the bytes left, and whether a zero tag ended the message. */
  datatype Run = RunFail | Ran(m: Message, seen: set<nat>, rest: seq<byte>, zeroEnded: bool)

  /** The index of a required field is tracked only below PB_MAX_REQUIRED_FIELDS. */
  function Mark(d: seq<Field>, i: nat, seen: set<nat>): set<nat>
    requires i <= |d|
  {
    var index := RequiredBefore(d, if i < |d| then i else 0);
    if FieldAt(d, i).htype.Required? && index < PB_MAX_REQUIRED_FIELDS then seen + {index} else seen
  }

  /** Decoding into the field found. The terminator of an empty table, which only tag 0
      reaches, acts as a required bool at the start of the struct. */
  function DecFound(d: seq<Field>, i: nat, wireType: nat, s: seq<byte>, m: Message): (r: Read<Message>)
    requires i <= |d|
    ensures r.Got? ==> |r.rest| < |s|
    decreases d, 6
  {
    if i < |d| then DecField(d[i], DataAt(d, i), wireType, s, m)
    else
      match DecBool(s)
      case Fail => Fail
      case Got(v, rest) => Got(m[DataAt(d, i) := SOne(v)], rest)
  }

  /** The field loop of pb_decode_noinit. */
  function RunFields(d: seq<Field>, s: seq<byte>, m: Message, seen: set<nat>): Run
    decreases d, 7, |s|
  {
    if s == [] then Ran(m, seen, [], false)
    else
      match DecodeTag(s)
      case TagFail => RunFail
      case AtEnd(rest) => Ran(m, seen, rest, true)
      case TagOf(wireType, tag, rest) =>
        var i := Search(d, tag, 0);
        if i < 0 then
          match SkipField(rest, wireType)
          case Fail => RunFail
          case Got(_, rest') => RunFields(d, rest', m, seen)
        else
          match DecFound(d, i, wireType, rest, m)
          case Fail => RunFail
          case Got(m', rest') => RunFields(d, rest', m', Mark(d, i, seen))
  }

  lemma RunStops(d: seq<Field>, m: Message, seen: set<nat>)
    ensures RunFields(d, [], m, seen) == Ran(m, seen, [], false)
  {
  }

  /** Were all required fields seen that the decoder keeps track of? */
  predicate AllRequiredSeen(d: seq<Field>, seen: set<nat>) {
    forall k: nat :: k < RequiredBefore(d, |d|) && k < PB_MAX_REQUIRED_FIELDS ==> k in seen
  }

  function DecodeNoInit(d: seq<Field>, s: seq<byte>, m: Message): Read<Message>
    decreases d, 8
  {
    match RunFields(d, s, m, {})
    case RunFail => Fail
    case Ran(m', seen, rest, _) => if AllRequiredSeen(d, seen) then Got(m', rest) else Fail
  }

  /** pb_decode */
  function Decode(d: seq<Field>, s: seq<byte>): Read<Message> {
    DecodeNoInit(d, s, Defaults(d))
  }
}
