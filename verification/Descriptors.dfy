/** The descriptor tables of pb.h and the C structs they describe.

    A message struct in memory is a map from the byte offset of a field's data
    (the iterator's `pData`, relative to the start of the struct) to what is stored
    there. The members of a union share one offset, hence one entry of the map. */
module Descriptors {

  type byte = b: int | 0 <= b < 256

  /** `pb_size_t` is 8, 16 or 32 bits wide, depending on a build option; the model is
      proved for all three. */
  type PbSizeMax = n: nat | n == 0xFF || n == 0xFFFF || n == 0xFFFF_FFFF witness 0xFF
  const PB_SIZE_MAX: PbSizeMax

  /** offsetof(pb_bytes_array_t, bytes): the size of the count that precedes the bytes. */
  const BYTES_HEADER: nat :=
    if PB_SIZE_MAX == 0xFF then 1 else if PB_SIZE_MAX == 0xFFFF then 2 else 4

  const PB_MAX_REQUIRED_FIELDS: nat := 64

  /** Allocation, repetition rule and data type: the three parts of `pb_type_t`. */
  datatype AType = Static | Pointer | Callback
  datatype HType = Required | Optional | Repeated | Oneof
  datatype LType =
    | Bool | Varint | UVarint | SVarint | Fixed32 | Fixed64
    | Bytes | String | Submessage | Extension | FixedLengthBytes

  /** `ptr` of a field: NULL, the initial value of a scalar, or a submessage's fields. */
  datatype Ptr = Null | Default(value: Value) | SubFields(fields: seq<Field>)

  datatype Field = Field(
    tag: nat, atype: AType, htype: HType, ltype: LType,
    dataOffset: nat, sizeOffset: int, dataSize: nat, arraySize: nat, ptr: Ptr)

  /** A stored datum. `VBytes` stands for a counted byte array, for the bytes of a C
      string up to its terminator, or for an inline byte array. */
  datatype Value = VBool(b: bool) | VNum(i: int) | VBytes(bs: seq<byte>) | VMsg(m: Message)

  /** What a struct holds for one field: a plain datum; a `has_` flag and a datum; the
      first `count` entries of an array; or a union's `which_` and the member it selects. */
  datatype Slot =
    | SOne(v: Value)
    | SOpt(has: bool, v: Value)
    | SRep(items: seq<Value>)
    | SUnion(which: nat, v: Value)

  type Message = map<int, Slot>

  /** PB_LAST_FIELD, the all-zero entry that ends a descriptor table. */
  const TERMINATOR := Field(0, Static, Required, Bool, 0, 0, 0, 0, Null)

  /** Entry i of a table, whose last entry is the terminator. */
  function FieldAt(d: seq<Field>, i: nat): Field
    requires i <= |d|
  {
    if i < |d| then d[i] else TERMINATOR
  }

  predicate Packable(l: LType) {
    l.Bool? || l.Varint? || l.UVarint? || l.SVarint? || l.Fixed32? || l.Fixed64?
  }

  /** Is entry i a further member of the union that entry i - 1 belongs to? */
  predicate InSameUnion(d: seq<Field>, i: nat)
    requires 0 < i < |d|
  {
    d[i - 1].htype.Oneof? && d[i].htype.Oneof? && d[i].dataOffset == PB_SIZE_MAX
  }

  /** The bytes of the struct that entry f itself takes up. */
  function Footprint(f: Field): nat {
    if f.atype.Static? && f.htype.Repeated? then f.dataSize * f.arraySize
    else if f.atype.Pointer? then 8
    else f.dataSize
  }

  /** Where the data of entry i lies in the struct. The table stores only the gap after
      the previous entry. */
  function DataAt(d: seq<Field>, i: nat): int
    requires i <= |d|
  {
    if i == 0 || i == |d| then FieldAt(d, 0).dataOffset
    else if InSameUnion(d, i) then DataAt(d, i - 1)
    else DataAt(d, i - 1) + Footprint(d[i - 1]) + d[i].dataOffset
  }

  /** Where the `has_` flag, count or `which_` of entry i lies. */
  function SizeAt(d: seq<Field>, i: nat): int
    requires i <= |d|
  {
    if 0 < i < |d| && InSameUnion(d, i) then SizeAt(d, i - 1)
    else DataAt(d, i) + FieldAt(d, i).sizeOffset
  }

  /** How many of the first i entries are required. */
  function RequiredBefore(d: seq<Field>, i: nat): (n: nat)
    requires i <= |d|
  {
    if i == 0 then 0
    else RequiredBefore(d, i - 1) + (if d[i - 1].htype.Required? then 1 else 0)
  }

  /** The entries that the codec in this model handles: all in static storage, no
      extensions, every repeated field with a count and every union with a `which_`. */
  predicate Supported(d: seq<Field>) {
    forall f | f in d :: SupportedField(f)
  }

  predicate SupportedField(f: Field) {
    && f.tag != 0
    && f.atype.Static?
    && !f.ltype.Extension?
    && (f.htype.Repeated? || f.htype.Oneof? ==> f.sizeOffset != 0)
    && (f.ltype.Submessage? ==> f.ptr.SubFields? && Supported(f.ptr.fields))
    && (!f.ltype.Submessage? ==> !f.ptr.SubFields?)
  }

  lemma SupportedAt(d: seq<Field>, i: nat)
    requires Supported(d) && i < |d|
    ensures SupportedField(d[i]) && d[i].tag != 0 && d[i].atype.Static? && !d[i].ltype.Extension?
  {
  }

  predicate DistinctTags(d: seq<Field>) {
    forall i, j | 0 <= i < j < |d| :: d[i].tag != d[j].tag
  }

  lemma {:induction false} RequiredBeforeMonotone(d: seq<Field>, i: nat, j: nat)
    requires i <= j <= |d|
    ensures RequiredBefore(d, i) <= RequiredBefore(d, j) <= RequiredBefore(d, i) + (j - i)
  {
    if i < j { RequiredBeforeMonotone(d, i, j - 1); }
  }
}
