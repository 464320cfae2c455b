/** What pb_encode.c writes for a struct, as functions to byte sequences. `None` is a
    `return false` that has nothing to do with the room in the output stream. */
module Encoding {
  import opened Bits
  import opened Descriptors
  import opened Varints
  import opened Decoding

  datatype Option<+T> = None | Some(value: T)

  /** The concatenation of two parts, if both can be encoded. */
  function Append(a: Option<seq<byte>>, b: Option<seq<byte>>): Option<seq<byte>> {
    if a.Some? && b.Some? then Some(a.value + b.value) else None
  }

  /** ((uint64_t)field_number << 3) | wiretype */
  function EncTag(wireType: nat, tag: nat): seq<byte> {
    EncodeVarint((tag * 8 + wireType) % M64)
  }

  function WireTypeOf(l: LType): nat {
    match l
    case Bool => WT_VARINT
    case Varint => WT_VARINT
    case UVarint => WT_VARINT
    case SVarint => WT_VARINT
    case Fixed32 => WT_32BIT
    case Fixed64 => WT_64BIT
    case _ => WT_STRING
  }

  function EncTagFor(f: Field): seq<byte> {
    EncTag(WireTypeOf(f.ltype), f.tag)
  }

  /** The n low bytes of a number, least significant first. */
  function FixedBytes(v: nat, n: nat): (bs: seq<byte>)
    ensures |bs| == n
  {
    if n == 0 then [] else [v % 256] + FixedBytes(v / 256, n - 1)
  }

  function EncString(bs: seq<byte>): seq<byte> {
    EncodeVarint(|bs| % M64) + bs
  }

  /** strnlen(s, max): the bytes before the first NUL, at most max of them. */
  function CStringLength(s: seq<byte>, max: nat): (n: nat)
    ensures n <= |s| && n <= max
  {
    if s == [] || max == 0 || s[0] == 0 then 0 else 1 + CStringLength(s[1..], max - 1)
  }

  /** What the stored bytes of a scalar mean to the encoder. */
  function NumberOf(v: Value): int {
    if v.VNum? then v.i else 0
  }

  function BytesOf(v: Value): seq<byte> {
    if v.VBytes? then v.bs else []
  }

  /** The n bytes of an inline byte array. */
  function Inline(bs: seq<byte>, n: nat): (r: seq<byte>)
    ensures |r| == n
  {
    if |bs| >= n then bs[..n] else bs + Zeros(n - |bs|)
  }

  function EncInt(f: Field, w: nat): Option<seq<byte>> {
    if IntSize(f.dataSize) then Some(EncodeVarint(w)) else None
  }

  /** PB_ENCODERS[ltype], except for submessages. */
  function EncScalar(f: Field, v: Value): Option<seq<byte>> {
    match f.ltype
    case Bool => Some(EncodeVarint(if v == VBool(true) then 1 else 0))
    case Varint => EncInt(f, ToUnsigned(NumberOf(v), 64))
    case UVarint => EncInt(f, ToUnsigned(NumberOf(v), 64))
    case SVarint => EncInt(f, ZigZag(ToSigned(NumberOf(v), 64)))
    case Fixed32 => Some(FixedBytes(ToUnsigned(NumberOf(v), 32), 4))
    case Fixed64 => Some(FixedBytes(ToUnsigned(NumberOf(v), 64), 8))
    case Bytes =>
      if |BytesOf(v)| + BYTES_HEADER > f.dataSize then None else Some(EncString(BytesOf(v)))
    case String => Some(EncString(BytesOf(v)[..CStringLength(BytesOf(v), f.dataSize)]))
    case FixedLengthBytes => Some(EncString(Inline(BytesOf(v), f.dataSize)))
    case Submessage => None
    case Extension => None
  }

  function EncSubmessage(f: Field, v: Value): Option<seq<byte>>
    decreases f, 1
  {
    if !f.ptr.SubFields? then None
    else
      match Encode(f.ptr.fields, SubMessage(v))
      case None => None
      case Some(body) => Some(EncString(body))
  }

  function EncValue(f: Field, v: Value): Option<seq<byte>>
    decreases f, 2
  {
    if f.ltype.Submessage? then EncSubmessage(f, v) else EncScalar(f, v)
  }

  function Tagged(f: Field, v: Value): Option<seq<byte>>
    decreases f, 3
  {
    Append(Some(EncTagFor(f)), EncValue(f, v))
  }

  /** The items of a packed array, without tags. */
  function EncPacked(f: Field, items: seq<Value>): Option<seq<byte>> {
    if items == [] then Some([]) else Append(EncScalar(f, items[0]), EncPacked(f, items[1..]))
  }

  /** A packed array: one tag, the size of the items, the items. */
  function EncPackedArray(f: Field, items: seq<Value>): Option<seq<byte>> {
    match EncPacked(f, items)
    case None => None
    case Some(body) => Some(EncTag(WT_STRING, f.tag) + EncString(body))
  }

  function EncUnpacked(f: Field, items: seq<Value>): Option<seq<byte>>
    decreases f, 4, |items|
  {
    if items == [] then Some([]) else Append(Tagged(f, items[0]), EncUnpacked(f, items[1..]))
  }

  /** encode_array: arrays of packable items are always packed. */
  function EncArray(f: Field, items: seq<Value>): Option<seq<byte>>
    decreases f, 5
  {
    if items == [] then Some([])
    else if |items| > f.arraySize then None
    else if Packable(f.ltype) then EncPackedArray(f, items)
    else EncUnpacked(f, items)
  }

  // ---------- proto3 presence ----------

  /** pb_check_proto3_default_value: would a proto3 encoder leave this field out? */
  predicate ProtoDefault(f: Field, m: Message, at: int)
    decreases f, 1
  {
    match f.htype
    case Required => false
    case Repeated => OldItems(m, at) == []
    case Oneof => at !in m || !m[at].SUnion? || m[at].which == 0
    case Optional =>
      if f.sizeOffset != 0 then at !in m || !m[at].SOpt? || !m[at].has
      else ZeroOrEmpty(f, OldValue(m, at))
  }

  /** The value test for singular fields. */
  predicate ZeroOrEmpty(f: Field, v: Value)
    decreases f, 0
  {
    match f.ltype
    case Bytes => BytesOf(v) == []
    case String => BytesOf(v) == [] || BytesOf(v)[0] == 0
    case FixedLengthBytes => f.dataSize == 0
    case Submessage =>
      f.ptr.SubFields? ==>
        forall i | 0 <= i < |f.ptr.fields| ::
          ProtoDefault(f.ptr.fields[i], SubMessage(v), DataAt(f.ptr.fields, i))
    case Bool => v != VBool(true)
    case _ => NumberOf(v) == 0
  }

  // ---------- fields and messages ----------

  /** Is there anything to encode for the field whose data lies at `at`? */
  predicate Present(f: Field, m: Message, at: int) {
    match f.htype
    case Required => true
    case Optional =>
      if f.sizeOffset != 0 then at in m && m[at].SOpt? && m[at].has
      else !ZeroOrEmpty(f, OldValue(m, at))
    case Repeated => OldItems(m, at) != []
    case Oneof => at in m && m[at].SUnion? && m[at].which == f.tag
  }

  /** The value a present field has. */
  function Content(f: Field, m: Message, at: int): Value {
    if f.htype.Oneof? then (if at in m && m[at].SUnion? then m[at].v else VNum(0)) else OldValue(m, at)
  }

  /** encode_basic_field */
  function EncField(f: Field, m: Message, at: int): Option<seq<byte>>
    decreases f, 6
  {
    if !Present(f, m, at) then Some([])
    else if f.htype.Repeated? then EncArray(f, OldItems(m, at))
    else Tagged(f, Content(f, m, at))
  }

  /** The fields from i on. */
  function EncFrom(d: seq<Field>, m: Message, i: nat): Option<seq<byte>>
    requires i <= |d|
    decreases d, 7, |d| - i
  {
    if i == |d| then Some([])
    else Append(EncField(d[i], m, DataAt(d, i)), EncFrom(d, m, i + 1))
  }

  /** pb_encode */
  function Encode(d: seq<Field>, m: Message): Option<seq<byte>>
    decreases d, 8
  {
    EncFrom(d, m, 0)
  }
}
