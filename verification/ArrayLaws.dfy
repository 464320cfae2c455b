/** Packed and unpacked occurrences of a repeated field mean the same. */
module ArrayLaws {
  import opened Descriptors
  import opened Varints
  import opened Decoding
  import opened Encoding
  import opened RoundTrip

  /** One occurrence of a repeated field on the wire: a packed run of values, or one value. */
  datatype Occurrence = Packed(values: seq<Value>) | Single(value: Value)

  function ValuesOf(o: Occurrence): seq<Value> {
    if o.Packed? then o.values else [o.value]
  }

  function AllValues(os: seq<Occurrence>): seq<Value> {
    if os == [] then [] else ValuesOf(os[0]) + AllValues(os[1..])
  }

  /** The bytes of an occurrence, tag included. */
  function OccurrenceBytes(f: Field, o: Occurrence): Option<seq<byte>> {
    match o
    case Packed(values) => EncPackedArray(f, values)
    case Single(value) => Append(Some(EncTagFor(f)), EncScalar(f, value))
  }

  predicate GoodOccurrence(f: Field, o: Occurrence) {
    && (forall v | v in ValuesOf(o) :: Fits(f, v))
    && OccurrenceBytes(f, o).Some? && |OccurrenceBytes(f, o).value| < M32
  }

  function AllBytes(f: Field, os: seq<Occurrence>): seq<byte>
    requires forall o | o in os :: GoodOccurrence(f, o)
  {
    if os == [] then [] else
      assert os[0] in os && GoodOccurrence(f, os[0]);
      OccurrenceBytes(f, os[0]).value + AllBytes(f, os[1..])
  }

  /** One occurrence either appends its values or overflows the array. */
  lemma OccurrenceStep(f: Field, at: int, o: Occurrence, m: Message, items: seq<Value>, body: seq<byte>, t: seq<byte>)
    requires f.htype.Repeated? && Packable(f.ltype) && GoodOccurrence(f, o)
    requires at in m && m[at] == SRep(items) && |items| <= f.arraySize
    requires OccurrenceBytes(f, o).value == EncTag(if o.Packed? then WT_STRING else WireTypeOf(f.ltype), f.tag) + body
    ensures DecField(f, at, if o.Packed? then WT_STRING else WireTypeOf(f.ltype), body + t, m) ==
            if |items| + |ValuesOf(o)| <= f.arraySize then Got(m[at := SRep(items + ValuesOf(o))], t) else Fail
  {
    hide EncPacked, DecPacked, EncScalar, DecScalar, EncTag, Delimited, Fits;
    var tag := EncTag(if o.Packed? then WT_STRING else WireTypeOf(f.ltype), f.tag);
    match o {
      case Packed(values) =>
        SameTail(tag, body, EncString(EncPacked(f, values).value));
        StringRoundTrip(EncPacked(f, values).value, t);
        PackedOutcome(f, values, items);
      case Single(value) =>
        SameTail(tag, body, EncScalar(f, value).value);
        assert value in ValuesOf(o);
        ScalarRoundTrip(f, value, t);
    }
  }

  lemma SameTail(a: seq<byte>, b: seq<byte>, c: seq<byte>)
    ensures a + b == a + c ==> b == c
  {
    if a + b == a + c { assert b == (a + b)[|a|..] && c == (a + c)[|a|..]; }
  }

  /** Any mix of packed and single occurrences decodes to the values already there
      followed by all of theirs, in order, exactly when they fit the array together; one
      value too many fails, however it is encoded. */
  lemma {:induction false} PackedAndUnpackedAgree(d: seq<Field>, i: nat, os: seq<Occurrence>, m: Message,
      items: seq<Value>, t: seq<byte>, seen: set<nat>)
    requires WellFormed(d) && i < |d| && d[i].htype.Repeated? && Packable(d[i].ltype)
    requires forall o | o in os :: GoodOccurrence(d[i], o)
    requires DataAt(d, i) in m && m[DataAt(d, i)] == SRep(items) && |items| <= d[i].arraySize
    ensures RunFields(d, AllBytes(d[i], os) + t, m, seen) ==
            if |items| + |AllValues(os)| <= d[i].arraySize
            then RunFields(d, t, m[DataAt(d, i) := SRep(items + AllValues(os))], seen)
            else RunFail
    decreases |os|
  {
    hide RunFields, WellFormed, DataAt, DecField, OccurrenceBytes, EncTag, Packable, WireTypeOf;
    var f, at := d[i], DataAt(d, i);
    if os == [] {
      assert AllBytes(f, os) + t == t;
      assert items + AllValues(os) == items;
      assert m[at := SRep(items)] == m;
    } else {
      var o := os[0];
      assert o in os;
      var wireType := if o.Packed? then WT_STRING else WireTypeOf(f.ltype);
      var tail := AllBytes(f, os[1..]) + t;
      var body := TailOfOccurrence(f, o);
      OccurrenceStep(f, at, o, m, items, body, tail);
      assert AllBytes(f, os) + t == EncTag(wireType, f.tag) + body + tail;
      WireTypeSmall(f.ltype);
      if |items| + |ValuesOf(o)| <= f.arraySize {
        var m' := m[at := SRep(items + ValuesOf(o))];
        FieldTurn(d, i, wireType, body, m, m', tail, seen);
        RepeatedNotMarked(d, i, seen);
        PackedAndUnpackedAgree(d, i, os[1..], m', items + ValuesOf(o), t, seen);
        assert items + ValuesOf(o) + AllValues(os[1..]) == items + AllValues(os);
        assert m'[at := SRep(items + AllValues(os))] == m[at := SRep(items + AllValues(os))];
      } else {
        FailedTurn(d, i, wireType, body, m, tail, seen);
      }
    }
  }

  lemma TailOfOccurrence(f: Field, o: Occurrence) returns (body: seq<byte>)
    requires GoodOccurrence(f, o)
    ensures OccurrenceBytes(f, o).value == EncTag(if o.Packed? then WT_STRING else WireTypeOf(f.ltype), f.tag) + body
  {
    hide EncTag, WireTypeOf, EncScalar, EncPacked;
    if o.Packed? { body := EncString(EncPacked(f, o.values).value); } else { body := EncScalar(f, o.value).value; }
  }

  /** A field that cannot be decoded ends the run. */
  lemma FailedTurn(d: seq<Field>, i: nat, wireType: nat, body: seq<byte>, m: Message, t: seq<byte>, seen: set<nat>)
    requires WellFormed(d) && i < |d| && wireType < 8
    requires DecField(d[i], DataAt(d, i), wireType, body + t, m).Fail?
    ensures RunFields(d, EncTag(wireType, d[i].tag) + body + t, m, seen) == RunFail
  {
    hide DecField, DecodeTag, EncTag, Search, WellFormedField, SupportedField;
    var s := EncTag(wireType, d[i].tag) + body + t;
    assert SupportedField(d[i]) by { assert d[i] in d; }
    TagNonZero(d[i]);
    TagRoundTrip(wireType, d[i].tag, body + t);
    assert s == EncTag(wireType, d[i].tag) + (body + t);
    SearchFinds(d, i, 0);
  }
}
