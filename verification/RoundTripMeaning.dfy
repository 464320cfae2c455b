/** The struct that decoding rebuilds has the content of the struct that was encoded. */
module RoundTripMeaning {
  import opened Descriptors
  import opened Varints
  import opened Decoding
  import opened Encoding
  import opened RoundTrip

  /** A field that is not a union member ends up with its rebuilt or its default slot. */
  lemma {:induction false} RebuiltAt(d: seq<Field>, m: Message, i: nat, n: nat)
    requires OwnStorage(d) && i < n <= |d| && !d[i].htype.Oneof?
    ensures var at := DataAt(d, i);
            at in RebuiltBefore(d, m, n) &&
            RebuiltBefore(d, m, n)[at] == if Present(d[i], m, at) then RebuiltSlot(d[i], m, at) else DefaultSlot(d[i])
  {
    hide DataAt, DefaultSlot, RebuiltSlot, Present;
    if i < n - 1 {
      RebuiltAt(d, m, i, n - 1);
    } else {
      StillDefault(d, m, i, i);
    }
  }

  /** Is k the member that the union at `at` selects? */
  predicate Selects(d: seq<Field>, m: Message, at: int, k: nat) {
    k < |d| && d[k].htype.Oneof? && DataAt(d, k) == at && at in m && m[at].SUnion? && m[at].which == d[k].tag
  }

  /** A union ends up with the member it selects, or with none. */
  lemma {:induction false} UnionAt(d: seq<Field>, m: Message, i: nat, n: nat)
    requires OwnStorage(d) && DistinctTags(d) && i < |d| && n <= |d| && d[i].htype.Oneof?
    ensures var at, w := DataAt(d, i), RebuiltBefore(d, m, n);
            at in w &&
            (forall k: nat | k < n && Selects(d, m, at, k) :: w[at] == RebuiltSlot(d[k], m, at)) &&
            ((forall k: nat | k < n :: !Selects(d, m, at, k)) ==> w[at] == SUnion(0, VNum(0)))
  {
    hide DataAt, RebuiltSlot, DefaultValue, DefaultsBefore;
    var at := DataAt(d, i);
    if n == 0 {
      DefaultUnion(d, i, |d|);
    } else {
      UnionAt(d, m, i, n - 1);
      if Selects(d, m, at, n - 1) {
        assert Present(d[n - 1], m, at);
        forall k: nat | k < n && Selects(d, m, at, k) ensures k == n - 1 {
        }
      } else if DataAt(d, n - 1) == at {
        assert d[n - 1].htype.Oneof?;
        assert !Present(d[n - 1], m, at);
        assert RebuiltBefore(d, m, n) == RebuiltBefore(d, m, n - 1);
      }
    }
  }

  lemma {:induction false} DefaultUnion(d: seq<Field>, i: nat, n: nat)
    requires OwnStorage(d) && i < n <= |d| && d[i].htype.Oneof?
    ensures DataAt(d, i) in DefaultsBefore(d, n) && DefaultsBefore(d, n)[DataAt(d, i)] == SUnion(0, VNum(0))
  {
    hide DataAt, DefaultValue;
    if i < n - 1 { DefaultUnion(d, i, n - 1); }
  }

  lemma {:induction false} RebuiltSame(f: Field, v: Value)
    requires SupportedField(f) && WellFormedField(f) && Fits(f, v)
    ensures SameValue(f, v, Rebuilt(f, v))
    decreases f, 0
  {
    hide Restored, RebuiltMessage, WellFormed, Storable;
    if f.ltype.Submessage? { RebuiltRestores(f.ptr.fields, v.m); }
  }

  /** What a proto3 encoder leaves out because it is zero is what the defaults restore. */
  lemma {:induction false} ZeroRestored(f: Field, v: Value)
    requires SupportedField(f) && WellFormedField(f) && Fits(f, v) && ZeroOrEmpty(f, v)
    requires !f.ltype.Submessage? ==> DefaultValue(f) == ZeroValue(f)
    ensures SameValue(f, v, DefaultValue(f))
    decreases f, 0
  {
    hide WellFormed, Defaults;
    if f.ltype.Submessage? {
      var d := f.ptr.fields;
      forall i | 0 <= i < |d| ensures RestoredAt(d, i, v.m, Defaults(d)) {
        AbsentRestored(d, v.m, i);
      }
      assert Restored(d, v.m, Defaults(d));
    } else if f.ltype.FixedLengthBytes? {
      assert v.bs == Zeros(0);
    } else if f.ltype.String? {
      NoNulFirst(v.bs);
    }
  }

  lemma NoNulFirst(bs: seq<byte>)
    requires 0 !in bs
    ensures bs == [] || bs[0] != 0
  {
  }

  lemma {:induction false} AbsentRestored(d: seq<Field>, m: Message, i: nat)
    requires WellFormed(d) && Storable(d, m) && i < |d| && ProtoDefault(d[i], m, DataAt(d, i))
    ensures RestoredAt(d, i, m, Defaults(d))
    decreases d, 0
  {
    hide DataAt, WellFormed, DefaultsBefore, ZeroOrEmpty, SupportedField, WellFormedField, Fits, DefaultValue;
    var f, at := d[i], DataAt(d, i);
    WellFormedAt(d, i);
    StorageOf(d);
    assert StorableAt(d, i, m);
    if f.htype.Oneof? {
      DefaultUnion(d, i, |d|);
      assert f.tag != 0;
    } else {
      DefaultsAt(d, i, |d|);
      if f.htype.Optional? && f.sizeOffset == 0 {
        SingularDefault(f);
        ZeroRestored(f, m[at].v);
      }
    }
  }

  lemma SingularDefault(f: Field)
    requires WellFormedField(f) && f.htype.Optional? && f.sizeOffset == 0
    ensures !f.ltype.Submessage? ==> DefaultValue(f) == ZeroValue(f)
  {
  }

  lemma {:induction false} RebuiltRestores(d: seq<Field>, m: Message)
    requires WellFormed(d) && Storable(d, m)
    ensures Restored(d, m, RebuiltMessage(d, m))
    decreases d, 3
  {
    hide WellFormed, Storable, RestoredAt, RebuiltMessage;
    forall i | 0 <= i < |d| ensures RestoredAt(d, i, m, RebuiltMessage(d, m)) {
      SlotRestored(d, m, i);
    }
  }

  lemma {:induction false} SlotRestored(d: seq<Field>, m: Message, i: nat)
    requires WellFormed(d) && Storable(d, m) && i < |d|
    ensures RestoredAt(d, i, m, RebuiltMessage(d, m))
    decreases d, 2
  {
    hide DataAt, WellFormed, Rebuilt, ZeroOrEmpty, SupportedField, WellFormedField, Fits, DefaultValue, RebuiltBefore,
         SameValue, OwnStorage;
    var f, at, w := d[i], DataAt(d, i), RebuiltMessage(d, m);
    WellFormedAt(d, i);
    StorageOf(d);
    assert StorableAt(d, i, m);
    if f.htype.Oneof? {
      UnionRestored(d, m, i);
    } else {
      RebuiltAt(d, m, i, |d|);
      if f.htype.Repeated? {
        forall k | 0 <= k < |m[at].items| ensures SameValue(f, m[at].items[k], Rebuilt(f, m[at].items[k])) {
          assert m[at].items[k] in m[at].items;
          RebuiltSame(f, m[at].items[k]);
        }
      } else if Present(f, m, at) {
        RebuiltSame(f, m[at].v);
      } else if f.sizeOffset == 0 {
        SingularDefault(f);
        ZeroRestored(f, m[at].v);
      }
    }
  }

  lemma {:induction false} UnionRestored(d: seq<Field>, m: Message, i: nat)
    requires WellFormed(d) && Storable(d, m) && i < |d| && d[i].htype.Oneof?
    ensures RestoredAt(d, i, m, RebuiltMessage(d, m))
    decreases d, 1
  {
    hide DataAt, WellFormed, Rebuilt, ZeroOrEmpty, SupportedField, WellFormedField, Fits, DefaultValue, RebuiltBefore,
         SameValue, OwnStorage;
    var f, at, w := d[i], DataAt(d, i), RebuiltMessage(d, m);
    WellFormedAt(d, i);
    StorageOf(d);
    TagsOf(d);
    assert StorableAt(d, i, m);
    UnionAt(d, m, i, |d|);
    if m[at].which == 0 {
      forall k: nat | k < |d| ensures !Selects(d, m, at, k) {
        WellFormedAt(d, k);
      }
    } else {
      var k: nat :| k < |d| && d[k].htype.Oneof? && DataAt(d, k) == at && d[k].tag == m[at].which;
      assert Selects(d, m, at, k);
      if f.tag == m[at].which {
        assert k == i;
        RebuiltSame(f, m[at].v);
      }
    }
  }

  lemma TagsOf(d: seq<Field>)
    requires WellFormed(d)
    ensures DistinctTags(d)
  {
  }

  /** The round trip: encoding a struct and decoding the bytes, all of which are consumed,
      gives back everything the struct held. */
  lemma EncodeDecode(d: seq<Field>, m: Message)
    requires WellFormed(d) && Storable(d, m)
    requires Encode(d, m).Some? && |Encode(d, m).value| < M32
    ensures var r := Decode(d, Encode(d, m).value);
            r.Got? && r.rest == [] && Restored(d, m, r.value)
  {
    hide DecodeNoInit, Encode, Restored, RebuiltMessage, WellFormed, Storable, Defaults;
    MessageRoundTrip(d, m);
    RebuiltRestores(d, m);
  }
}
