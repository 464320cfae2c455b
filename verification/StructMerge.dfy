/** Decoding an encoded struct on top of another one: what the merged struct holds, and when
    there is one. */
module StructMerge {
  import opened Descriptors
  import opened Varints
  import opened Decoding
  import opened Encoding
  import opened Merging
  import opened RoundTrip
  import opened RoundTripMeaning
  import opened ArrayLaws
  import opened MemorySafety

  // ---------- the merged struct ----------

  /** A nested message is merged into the one that is there; anything else replaces it. */
  function MergedValue(f: Field, prior: Value, v: Value): Value
    decreases f, 0
  {
    if f.ltype.Submessage? && f.ptr.SubFields? then
      VMsg(MergedMessage(f.ptr.fields, SubMessage(prior), SubMessage(v)))
    else v
  }

  /** What a present field of m becomes in w: the last scalar, all entries of both arrays,
      the last union member. */
  function MergedSlot(f: Field, w: Message, m: Message, at: int): Slot
    decreases f, 1
  {
    match f.htype
    case Required => SOne(MergedValue(f, OldValue(w, at), Content(f, m, at)))
    case Optional =>
      var v := MergedValue(f, OldValue(w, at), Content(f, m, at));
      if f.sizeOffset != 0 then SOpt(true, v) else SOne(v)
    case Repeated => SRep(OldItems(w, at) + RebuiltFrom(f, OldItems(m, at)))
    case Oneof => SUnion(f.tag, Rebuilt(f, Content(f, m, at)))
  }

  function MergedBefore(d: seq<Field>, w: Message, m: Message, i: nat): Message
    requires i <= |d|
    decreases d, 2, i
  {
    if i == 0 then w
    else
      var r, at := MergedBefore(d, w, m, i - 1), DataAt(d, i - 1);
      if Present(d[i - 1], m, at) then r[at := MergedSlot(d[i - 1], r, m, at)] else r
  }

  function MergedMessage(d: seq<Field>, w: Message, m: Message): Message
    decreases d, 3
  {
    MergedBefore(d, w, m, |d|)
  }

  predicate ValueMergeable(f: Field, prior: Value, v: Value)
    decreases f, 0
  {
    f.ltype.Submessage? && f.ptr.SubFields? ==> Mergeable(f.ptr.fields, SubMessage(prior), SubMessage(v))
  }

  predicate FieldMergeable(f: Field, w: Message, m: Message, at: int)
    decreases f, 1
  {
    Present(f, m, at) ==>
      match f.htype
      case Required => ValueMergeable(f, OldValue(w, at), Content(f, m, at))
      case Optional => ValueMergeable(f, OldValue(w, at), Content(f, m, at))
      case Repeated => |OldItems(w, at)| + |OldItems(m, at)| <= f.arraySize
      case Oneof => true
  }

  /** Every array has room for the entries of both structs, in nested messages too. */
  predicate Mergeable(d: seq<Field>, w: Message, m: Message)
    decreases d, 2
  {
    forall i | 0 <= i < |d| :: FieldMergeable(d[i], w, m, DataAt(d, i))
  }

  // ---------- what the merged struct holds ----------

  /** Until its turn comes, a field other than a union member holds what it held. */
  lemma {:induction false} StillThere(d: seq<Field>, w: Message, m: Message, i: nat, n: nat)
    requires OwnStorage(d) && n <= i < |d| && !d[i].htype.Oneof? && DataAt(d, i) in w
    ensures DataAt(d, i) in MergedBefore(d, w, m, n) && MergedBefore(d, w, m, n)[DataAt(d, i)] == w[DataAt(d, i)]
  {
    hide DataAt, MergedSlot, Present;
    if n > 0 { StillThere(d, w, m, i, n - 1); }
  }

  /** A field that is not a union member is merged if m has it, and is left alone otherwise. */
  lemma {:induction false} MergedAt(d: seq<Field>, w: Message, m: Message, i: nat, n: nat)
    requires OwnStorage(d) && i < n <= |d| && !d[i].htype.Oneof? && DataAt(d, i) in w
    ensures var at := DataAt(d, i);
            && at in MergedBefore(d, w, m, n)
            && MergedBefore(d, w, m, n)[at] == if Present(d[i], m, at) then MergedSlot(d[i], w, m, at) else w[at]
  {
    hide DataAt, MergedValue, Present;
    if i < n - 1 {
      MergedAt(d, w, m, i, n - 1);
    } else {
      StillThere(d, w, m, i, i);
    }
  }

  /** A union holds the member that m selects, or what it held if m selects none. */
  lemma {:induction false} MergedUnionAt(d: seq<Field>, w: Message, m: Message, i: nat, n: nat)
    requires OwnStorage(d) && DistinctTags(d) && i < |d| && n <= |d| && d[i].htype.Oneof? && DataAt(d, i) in w
    ensures var at, r := DataAt(d, i), MergedBefore(d, w, m, n);
            && at in r
            && (forall k: nat | k < n && Selects(d, m, at, k) :: r[at] == MergedSlot(d[k], w, m, at))
            && ((forall k: nat | k < n :: !Selects(d, m, at, k)) ==> r[at] == w[at])
  {
    hide DataAt, Rebuilt;
    var at := DataAt(d, i);
    if n > 0 {
      MergedUnionAt(d, w, m, i, n - 1);
      if Selects(d, m, at, n - 1) {
        assert Present(d[n - 1], m, at);
        forall k: nat | k < n && Selects(d, m, at, k) ensures k == n - 1 {
        }
      } else if DataAt(d, n - 1) == at {
        assert d[n - 1].htype.Oneof? && !Present(d[n - 1], m, at);
        assert MergedBefore(d, w, m, n) == MergedBefore(d, w, m, n - 1);
      }
    }
  }

  /** Merged into the defaults, a struct is what its round trip rebuilds. */
  lemma {:induction false} MergedIntoDefaults(d: seq<Field>, m: Message, i: nat)
    requires WellFormed(d) && i <= |d|
    ensures MergedBefore(d, Defaults(d), m, i) == RebuiltBefore(d, m, i)
    decreases d, i
  {
    hide WellFormed, OwnStorage, DataAt, Present, Content, MergedValue, Rebuilt, DefaultValue, Defaults, SupportedField,
         WellFormedField;
    if i > 0 {
      MergedIntoDefaults(d, m, i - 1);
      var f, at := d[i - 1], DataAt(d, i - 1);
      if !f.htype.Oneof? {
        StorageOf(d);
        StillDefault(d, m, i - 1, i - 1);
        assert [] + RebuiltFrom(f, OldItems(m, at)) == RebuiltFrom(f, OldItems(m, at));
        NestedIntoDefault(d, i - 1, Content(f, m, at));
      }
    }
  }

  lemma {:induction false} NestedIntoDefault(d: seq<Field>, i: nat, v: Value)
    requires WellFormed(d) && i < |d|
    ensures MergedValue(d[i], DefaultValue(d[i]), v) == Rebuilt(d[i], v)
    decreases d[i], 0
  {
    hide WellFormed, Defaults, MergedBefore, RebuiltBefore;
    WellFormedAt(d, i);
    if d[i].ltype.Submessage? && d[i].ptr.SubFields? {
      MergedIntoDefaults(d[i].ptr.fields, SubMessage(v), |d[i].ptr.fields|);
    }
  }

  // ---------- decoding on top of a struct ----------

  lemma {:induction false} ValueMerge(f: Field, v: Value, prior: Value, t: seq<byte>)
    requires SupportedField(f) && WellFormedField(f) && Fits(f, v) && !f.htype.Repeated? && InBounds(f, prior)
    requires EncValue(f, v).Some? && |EncValue(f, v).value| < M32
    ensures DecValue(f, EncValue(f, v).value + t, prior) ==
            if ValueMergeable(f, prior, v) then Got(MergedValue(f, prior, v), t) else Fail
    decreases f, 0
  {
    hide DecScalar, EncScalar, DecodeNoInit, Encode, EncodeVarint, DecodeVarint32, Delimited, Defaults, Storable,
         WellFormed, MergedMessage, Mergeable, StructInBounds, Supported;
    if f.ltype.Submessage? {
      var d := f.ptr.fields;
      var body := Encode(d, v.m).value;
      StringRoundTrip(body, t);
      MessageMerge(d, v.m, prior.m);
    } else {
      ScalarRoundTrip(f, v, t);
    }
  }

  lemma DecMerged(f: Field, at: int, w: Message, m: Message, s: seq<byte>)
    requires f.htype.Required? || f.htype.Optional?
    ensures var r := DecValue(f, s, OldValue(w, at));
            && (r.Fail? ==> DecField(f, at, WireTypeOf(f.ltype), s, w) == Fail)
            && (r.Got? && r.value == MergedValue(f, OldValue(w, at), Content(f, m, at)) ==>
                  DecField(f, at, WireTypeOf(f.ltype), s, w) == Got(w[at := MergedSlot(f, w, m, at)], r.rest))
  {
    hide DecValue, MergedValue, Content;
  }

  lemma SingleMerge(d: seq<Field>, m: Message, w: Message, i: nat, t: seq<byte>, seen: set<nat>)
    requires WellFormed(d) && Storable(d, m) && i < |d| && Present(d[i], m, DataAt(d, i))
    requires d[i].htype.Required? || d[i].htype.Optional?
    requires InBounds(d[i], OldValue(w, DataAt(d, i)))
    requires Tagged(d[i], Content(d[i], m, DataAt(d, i))).Some?
    requires |Tagged(d[i], Content(d[i], m, DataAt(d, i))).value| < M32
    ensures RunFields(d, Tagged(d[i], Content(d[i], m, DataAt(d, i))).value + t, w, seen) ==
            if FieldMergeable(d[i], w, m, DataAt(d, i))
            then RunFields(d, t, w[DataAt(d, i) := MergedSlot(d[i], w, m, DataAt(d, i))], Mark(d, i, seen))
            else RunFail
    decreases d[i], 2
  {
    hide RunFields, EncValue, DecValue, DecField, EncTag, WireTypeOf, DataAt, WellFormed, Fits, MergedSlot, MergedValue,
         ValueMergeable, Mark, Storable, Content, Present, SupportedField, WellFormedField, InBounds, OldValue;
    var f, at := d[i], DataAt(d, i);
    var v := Content(f, m, at);
    var body := EncValue(f, v).value;
    WellFormedAt(d, i);
    ContentFits(d, m, i);
    ValueMerge(f, v, OldValue(w, at), t);
    DecMerged(f, at, w, m, body + t);
    WireTypeSmall(f.ltype);
    if ValueMergeable(f, OldValue(w, at), v) {
      FieldTurn(d, i, WireTypeOf(f.ltype), body, w, w[at := MergedSlot(f, w, m, at)], t, seen);
    } else {
      FailedTurn(d, i, WireTypeOf(f.ltype), body, w, t, seen);
    }
  }

  lemma UnionMerge(d: seq<Field>, m: Message, w: Message, i: nat, t: seq<byte>, seen: set<nat>)
    requires WellFormed(d) && Storable(d, m) && i < |d| && d[i].htype.Oneof? && Present(d[i], m, DataAt(d, i))
    requires Tagged(d[i], Content(d[i], m, DataAt(d, i))).Some?
    requires |Tagged(d[i], Content(d[i], m, DataAt(d, i))).value| < M32
    ensures RunFields(d, Tagged(d[i], Content(d[i], m, DataAt(d, i))).value + t, w, seen) ==
            RunFields(d, t, w[DataAt(d, i) := MergedSlot(d[i], w, m, DataAt(d, i))], Mark(d, i, seen))
  {
    hide RunFields, EncValue, DecValue, DecField, EncTag, WireTypeOf, DataAt, WellFormed, Fits, Rebuilt, DefaultValue,
         Mark, Storable, Content, Present, SupportedField, WellFormedField;
    var f, at := d[i], DataAt(d, i);
    var v := Content(f, m, at);
    var body := EncValue(f, v).value;
    WellFormedAt(d, i);
    ContentFits(d, m, i);
    PriorIsFresh(f);
    ValueRoundTrip(f, v, DefaultValue(f), t);
    DecOneValue(f, at, m, w, body + t);
    WireTypeSmall(f.ltype);
    FieldTurn(d, i, WireTypeOf(f.ltype), body, w, w[at := RebuiltSlot(f, m, at)], t, seen);
  }

  /** One entry too many, after those that still fit. */
  lemma {:induction false} UnpackedOverflow(d: seq<Field>, i: nat, items: seq<Value>, before: seq<Value>, m: Message,
      t: seq<byte>, seen: set<nat>)
    requires WellFormed(d) && i < |d| && d[i].htype.Repeated? && !Packable(d[i].ltype)
    requires forall v | v in items :: Fits(d[i], v)
    requires EncUnpacked(d[i], items).Some? && |EncUnpacked(d[i], items).value| < M32
    requires |before| <= d[i].arraySize < |before| + |items|
    requires DataAt(d, i) in m && m[DataAt(d, i)] == SRep(before)
    ensures RunFields(d, EncUnpacked(d[i], items).value + t, m, seen) == RunFail
    decreases |items|
  {
    hide WellFormed, RunFields, DataAt, Fits, Rebuilt, RebuiltFrom, EncUnpacked, Packable;
    var f, at := d[i], DataAt(d, i);
    FirstUnpacked(f, items);
    if |before| < f.arraySize {
      var v := Rebuilt(f, items[0]);
      UnpackedTurn(d, i, items, before, m, t, seen);
      UnpackedOverflow(d, i, items[1..], before + [v], m[at := SRep(before + [v])], t, seen);
    } else {
      FullArray(d, i, items, before, m, t, seen);
    }
  }

  lemma FullArray(d: seq<Field>, i: nat, items: seq<Value>, before: seq<Value>, m: Message, t: seq<byte>,
      seen: set<nat>)
    requires WellFormed(d) && i < |d| && d[i].htype.Repeated? && !Packable(d[i].ltype)
    requires items != [] && EncUnpacked(d[i], items).Some? && |before| == d[i].arraySize
    requires DataAt(d, i) in m && m[DataAt(d, i)] == SRep(before)
    ensures RunFields(d, EncUnpacked(d[i], items).value + t, m, seen) == RunFail
  {
    hide DecValue, EncValue, RunFields, EncTag, WellFormed, Packable, DataAt, WireTypeOf;
    var f := d[i];
    var head, tail := EncValue(f, items[0]).value, EncUnpacked(f, items[1..]).value;
    var wireType := WireTypeOf(f.ltype);
    WireTypeSmall(f.ltype);
    FailedTurn(d, i, wireType, head, m, tail + t, seen);
    assert EncUnpacked(f, items).value + t == EncTag(wireType, f.tag) + head + (tail + t);
  }

  lemma OnePacked(f: Field, items: seq<Value>) returns (os: seq<Occurrence>)
    requires Packable(f.ltype) && items != [] && forall v | v in items :: Fits(f, v)
    requires EncArray(f, items).Some? && |EncArray(f, items).value| < M32
    ensures forall o | o in os :: GoodOccurrence(f, o)
    ensures AllBytes(f, os) == EncArray(f, items).value && AllValues(os) == items
  {
    hide EncPackedArray, Fits, Packable;
    os := [Packed(items)];
    assert os[1..] == [];
    assert AllBytes(f, os) == EncArray(f, items).value + [];
    assert AllValues(os) == items + [];
  }

  lemma ArrayMerge(d: seq<Field>, m: Message, w: Message, i: nat, before: seq<Value>, t: seq<byte>, seen: set<nat>)
    requires WellFormed(d) && Storable(d, m) && i < |d| && d[i].htype.Repeated?
    requires var e := EncArray(d[i], OldItems(m, DataAt(d, i))); e.Some? && |e.value| < M32
    requires OldItems(m, DataAt(d, i)) != [] && |before| <= d[i].arraySize
    requires DataAt(d, i) in w && w[DataAt(d, i)] == SRep(before)
    ensures var items := OldItems(m, DataAt(d, i));
            RunFields(d, EncArray(d[i], items).value + t, w, seen) ==
            if |before| + |items| <= d[i].arraySize
            then RunFields(d, t, w[DataAt(d, i) := SRep(before + RebuiltFrom(d[i], items))], seen)
            else RunFail
  {
    hide RunFields, EncPacked, EncUnpacked, EncTag, EncString, Packable, DataAt, WellFormed, Fits, Rebuilt, Storable;
    var f, items := d[i], OldItems(m, DataAt(d, i));
    ItemsFit(d, m, i);
    if Packable(f.ltype) {
      var os := OnePacked(f, items);
      PackedAndUnpackedAgree(d, i, os, w, before, t, seen);
      PackedRebuilt(f, items);
    } else if |before| + |items| <= f.arraySize {
      UnpackedRoundTrip(d, i, items, before, w, t, seen);
    } else {
      UnpackedOverflow(d, i, items, before, w, t, seen);
    }
  }

  /** The bytes of field i take the merge from MergedBefore(i) to MergedBefore(i + 1), or
      fail if the field cannot be merged. */
  lemma FieldMerge(d: seq<Field>, m: Message, w: Message, i: nat, t: seq<byte>, seen: set<nat>)
    requires WellFormed(d) && Storable(d, m) && StructInBounds(d, w) && i < |d|
    requires EncField(d[i], m, DataAt(d, i)).Some? && |EncField(d[i], m, DataAt(d, i)).value| < M32
    ensures RunFields(d, EncField(d[i], m, DataAt(d, i)).value + t, MergedBefore(d, w, m, i), seen) ==
            if FieldMergeable(d[i], w, m, DataAt(d, i))
            then RunFields(d, t, MergedBefore(d, w, m, i + 1), Mark(d, i, seen))
            else RunFail
    decreases d[i], 3
  {
    hide RunFields, DataAt, WellFormed, Storable, Tagged, EncArray, Content, MergedValue, ValueMergeable, Present, Mark,
         InBounds, Rebuilt, StructInBounds;
    var f, at, r := d[i], DataAt(d, i), MergedBefore(d, w, m, i);
    SlotBounds(d, w, i);
    StorageOf(d);
    if !Present(f, m, at) {
      assert [] + t == t;
      NotMarked(d, m, i, seen);
    } else if f.htype.Oneof? {
      UnionMerge(d, m, r, i, t, seen);
    } else {
      StillThere(d, w, m, i, i);
      if f.htype.Repeated? {
        PresentItems(f, m, at);
        ArrayMerge(d, m, r, i, w[at].items, t, seen);
        RepeatedNotMarked(d, i, seen);
      } else {
        SingleMerge(d, m, r, i, t, seen);
      }
    }
  }

  lemma NotMarked(d: seq<Field>, m: Message, i: nat, seen: set<nat>)
    requires i < |d| && !Present(d[i], m, DataAt(d, i))
    ensures Mark(d, i, seen) == seen
  {
  }

  lemma PresentItems(f: Field, m: Message, at: int)
    requires Present(f, m, at) && f.htype.Repeated?
    ensures OldItems(m, at) != []
  {
  }

  lemma SlotBounds(d: seq<Field>, w: Message, i: nat)
    requires StructInBounds(d, w) && i < |d|
    ensures SlotInBounds(d, i, w)
  {
    hide InBounds;
  }

  lemma {:induction false} FieldsMerge(d: seq<Field>, m: Message, w: Message, i: nat, seen: set<nat>)
    requires WellFormed(d) && Storable(d, m) && StructInBounds(d, w) && i <= |d|
    requires EncFrom(d, m, i).Some? && |EncFrom(d, m, i).value| < M32
    ensures RunFields(d, EncFrom(d, m, i).value, MergedBefore(d, w, m, i), seen) ==
            if forall j | i <= j < |d| :: FieldMergeable(d[j], w, m, DataAt(d, j))
            then Ran(MergedMessage(d, w, m), MarkedFrom(d, i, seen), [], false)
            else RunFail
    decreases d, 1, |d| - i
  {
    hide DataAt, WellFormed, Storable, EncField, RunFields, MergedBefore, Mark, FieldMergeable, StructInBounds;
    if i < |d| {
      FieldMerge(d, m, w, i, EncFrom(d, m, i + 1).value, seen);
      FieldsMerge(d, m, w, i + 1, Mark(d, i, seen));
    } else {
      RunStops(d, MergedBefore(d, w, m, i), seen);
    }
  }

  /** Decoding an encoding into any struct merges it into that struct, and fails exactly if
      some array, at any depth, has no room for the entries of both. */
  lemma MessageMerge(d: seq<Field>, m: Message, w: Message)
    requires WellFormed(d) && Storable(d, m) && StructInBounds(d, w)
    requires Encode(d, m).Some? && |Encode(d, m).value| < M32
    ensures DecodeNoInit(d, Encode(d, m).value, w) ==
            if Mergeable(d, w, m) then Got(MergedMessage(d, w, m), []) else Fail
    decreases d, 2
  {
    hide WellFormed, Storable, StructInBounds, EncFrom, RunFields, AllRequiredSeen, MarkedFrom, FieldMergeable, DataAt,
         MergedSlot;
    FieldsMerge(d, m, w, 0, {});
    MarkedAll(d, 0, {});
  }

  /** An encoding behind any complete fields: the whole decodes to the first struct with the
      second one merged into it. */
  lemma EncodingBehind(d: seq<Field>, s: seq<byte>, n: Message)
    requires WellFormed(d) && GoodDefaults(d) && Storable(d, n)
    requires Encode(d, n).Some? && |Encode(d, n).value| < M32
    requires CompleteRun(RunFields(d, s, Defaults(d), {}))
    ensures var w := RunFields(d, s, Defaults(d), {}).m;
            Decode(d, s + Encode(d, n).value) ==
            if Mergeable(d, w, n) then Got(MergedMessage(d, w, n), []) else Fail
  {
    hide WellFormed, Storable, StructInBounds, EncFrom, RunFields, AllRequiredSeen, MarkedFrom, FieldMergeable, DataAt,
         MergedSlot, Defaults, GoodDefaults;
    var r := RunFields(d, s, Defaults(d), {});
    DefaultsInBounds(d);
    RunInBounds(d, s, Defaults(d), {});
    RunThen(d, s, Encode(d, n).value, Defaults(d), {});
    FieldsMerge(d, n, r.m, 0, r.seen);
    MarkedAll(d, 0, r.seen);
  }

  /** Two encodings behind one another decode to the second struct merged into the first. */
  lemma EncodingsMerge(d: seq<Field>, m: Message, n: Message)
    requires WellFormed(d) && GoodDefaults(d) && Storable(d, m) && Storable(d, n)
    requires Encode(d, m).Some? && |Encode(d, m).value| < M32
    requires Encode(d, n).Some? && |Encode(d, n).value| < M32
    ensures var w := RebuiltMessage(d, m);
            Restored(d, m, w) &&
            Decode(d, Encode(d, m).value + Encode(d, n).value) ==
            if Mergeable(d, w, n) then Got(MergedMessage(d, w, n), []) else Fail
  {
    hide WellFormed, Storable, EncFrom, RunFields, GoodDefaults, Mergeable, MergedMessage, Restored, DefaultsBefore;
    FieldsRoundTrip(d, m, 0, {});
    RebuiltRestores(d, m);
    EncodingBehind(d, Encode(d, m).value, n);
  }
}
