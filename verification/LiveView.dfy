/** What a snapshot of a LevelDB database contains: the live view of a sorted list of
    (user key, sequence number, put or delete) entries, and a plain cursor over it. */
module LiveView {
  import opened Descriptors

  type Slice = seq<byte>

  datatype ValueType = Deletion | Put

  datatype Entry = Entry(userKey: Slice, sequence: nat, kind: ValueType, value: Slice)

  /** The user comparator, given by a rank: byte strings are countable, so every total
      order on them, also one that identifies some of them, is the order of such a rank. */
  type Order = Slice -> real

  function Compare(order: Order, a: Slice, b: Slice): int {
    if order(a) < order(b) then -1 else if order(a) > order(b) then 1 else 0
  }

  /** PackSequenceAndType */
  function Pack(sequence: nat, kind: ValueType): nat {
    sequence * 256 + (if kind.Put? then 1 else 0)
  }

  /** InternalKeyComparator: ascending user keys, then descending sequence numbers and types. */
  predicate AtOrBefore(order: Order, a: Entry, b: Entry) {
    || order(a.userKey) < order(b.userKey)
    || (order(a.userKey) == order(b.userKey) && Pack(a.sequence, a.kind) >= Pack(b.sequence, b.kind))
  }

  predicate Sorted(order: Order, es: seq<Entry>) {
    forall i, j | 0 <= i < j < |es| :: AtOrBefore(order, es[i], es[j])
  }

  /** Entry e, coming right after `before`, is the newest entry of its key that the
      snapshot can see, and a put. */
  predicate LiveAfter(order: Order, snapshot: nat, before: seq<Entry>, e: Entry) {
    && e.sequence <= snapshot
    && e.kind.Put?
    && forall b | b in before :: b.sequence <= snapshot ==> order(b.userKey) != order(e.userKey)
  }

  predicate Live(order: Order, snapshot: nat, es: seq<Entry>, i: int) {
    0 <= i < |es| && LiveAfter(order, snapshot, es[..i], es[i])
  }

  /** The keys and values a reader at the snapshot sees, in order. */
  function View(order: Order, snapshot: nat, es: seq<Entry>): seq<(Slice, Slice)> {
    if es == [] then []
    else
      var before, e := es[..|es| - 1], es[|es| - 1];
      View(order, snapshot, before)
      + (if LiveAfter(order, snapshot, before, e) then [(e.userKey, e.value)] else [])
  }

  /** Where a live entry stands in the view. */
  function Rank(order: Order, snapshot: nat, es: seq<Entry>, i: nat): nat
    requires i <= |es|
  {
    |View(order, snapshot, es[..i])|
  }

  lemma {:induction false} ViewSplit(order: Order, snapshot: nat, es: seq<Entry>, i: nat)
    requires i <= |es|
    ensures View(order, snapshot, es[..i]) <= View(order, snapshot, es)
    decreases |es|
  {
    if i == |es| {
      assert es[..i] == es;
    } else {
      var before := es[..|es| - 1];
      assert before[..i] == es[..i];
      ViewSplit(order, snapshot, before, i);
    }
  }

  lemma ViewStep(order: Order, snapshot: nat, es: seq<Entry>, i: nat)
    requires i < |es|
    ensures View(order, snapshot, es[..i + 1]) ==
            View(order, snapshot, es[..i])
            + (if Live(order, snapshot, es, i) then [(es[i].userKey, es[i].value)] else [])
  {
    var p := es[..i + 1];
    assert p[..|p| - 1] == es[..i];
  }

  /** A live entry is in the view at its rank. */
  lemma LiveInView(order: Order, snapshot: nat, es: seq<Entry>, i: int)
    requires Live(order, snapshot, es, i)
    ensures Rank(order, snapshot, es, i) < |View(order, snapshot, es)|
    ensures View(order, snapshot, es)[Rank(order, snapshot, es, i)] == (es[i].userKey, es[i].value)
  {
    ViewStep(order, snapshot, es, i);
    ViewSplit(order, snapshot, es, i + 1);
  }

  /** Without live entries from i up to j, nothing is added to the view in between. */
  lemma {:induction false} NoLiveBetween(order: Order, snapshot: nat, es: seq<Entry>, i: nat, j: nat)
    requires i <= j <= |es|
    requires forall k | i <= k < j :: !Live(order, snapshot, es, k)
    ensures View(order, snapshot, es[..i]) == View(order, snapshot, es[..j])
    decreases j - i
  {
    if i < j {
      ViewStep(order, snapshot, es, j - 1);
      NoLiveBetween(order, snapshot, es, i, j - 1);
    }
  }

  // ---------- what the view is ----------

  /** The view has a put exactly for every key whose newest visible entry is one, and its
      keys ascend strictly. */
  lemma {:induction false} ViewMeaning(order: Order, snapshot: nat, es: seq<Entry>, k: Slice, v: Slice)
    requires Sorted(order, es)
    ensures (k, v) in View(order, snapshot, es) <==>
            exists i | 0 <= i < |es| :: Live(order, snapshot, es, i) && es[i].userKey == k && es[i].value == v
  {
    if es != [] {
      var n := |es| - 1;
      var before := es[..n];
      ViewMeaning(order, snapshot, before, k, v);
      LiveBefore(order, snapshot, es);
      hide Sorted, LiveAfter;
      if exists i | 0 <= i < |es| :: Live(order, snapshot, es, i) && es[i].userKey == k && es[i].value == v {
        var i :| 0 <= i < |es| && Live(order, snapshot, es, i) && es[i].userKey == k && es[i].value == v;
        if i < n { assert Live(order, snapshot, before, i) && before[i].userKey == k && before[i].value == v; }
      }
      if (k, v) in View(order, snapshot, before) {
        var i :| 0 <= i < n && Live(order, snapshot, before, i) && before[i].userKey == k && before[i].value == v;
        assert Live(order, snapshot, es, i) && es[i].userKey == k && es[i].value == v;
      } else if (k, v) in View(order, snapshot, es) {
        assert Live(order, snapshot, es, n) && es[n].userKey == k && es[n].value == v;
      }
    }
  }

  /** Later entries do not decide whether one is live. */
  lemma LiveBefore(order: Order, snapshot: nat, es: seq<Entry>)
    requires es != []
    ensures forall i | 0 <= i < |es| - 1 :: Live(order, snapshot, es, i) == Live(order, snapshot, es[..|es| - 1], i)
    ensures Live(order, snapshot, es, |es| - 1) == LiveAfter(order, snapshot, es[..|es| - 1], es[|es| - 1])
  {
    var before := es[..|es| - 1];
    forall i | 0 <= i < |es| - 1 ensures Live(order, snapshot, es, i) == Live(order, snapshot, before, i) {
      assert before[..i] == es[..i];
    }
  }

  lemma {:induction false} ViewAscends(order: Order, snapshot: nat, es: seq<Entry>)
    requires Sorted(order, es)
    ensures var view := View(order, snapshot, es);
            && (forall a, b | 0 <= a < b < |view| :: order(view[a].0) < order(view[b].0))
            && (forall p | p in view :: exists e | e in es :: e.sequence <= snapshot && e.userKey == p.0)
  {
    if es != [] {
      var before, e := es[..|es| - 1], es[|es| - 1];
      ViewAscends(order, snapshot, before);
      var view := View(order, snapshot, before);
      forall p | p in view
        ensures exists x | x in es :: x.sequence <= snapshot && x.userKey == p.0
        ensures LiveAfter(order, snapshot, before, e) ==> order(p.0) < order(e.userKey)
      {
        assert exists e | e in before :: e.sequence <= snapshot && e.userKey == p.0;
        var x :| x in before && x.sequence <= snapshot && x.userKey == p.0;
        var i :| 0 <= i < |before| && before[i] == x;
        assert es[i] == x && AtOrBefore(order, es[i], es[|es| - 1]);
        assert x in es;
      }
      assert e in es;
    }
  }

  // ---------- entries newer than the snapshot ----------

  function Visible(snapshot: nat, es: seq<Entry>): (r: seq<Entry>)
    ensures forall e :: e in r <==> e in es && e.sequence <= snapshot
  {
    if es == [] then []
    else
      var r := Visible(snapshot, es[..|es| - 1]);
      var e := es[|es| - 1];
      assert es == es[..|es| - 1] + [e];
      if e.sequence <= snapshot then r + [e] else r
  }

  /** Entries newer than the snapshot do not change the view: writes that come after a
      reader's snapshot are never observed. */
  lemma {:induction false} NewerEntriesUnseen(order: Order, snapshot: nat, es: seq<Entry>)
    ensures View(order, snapshot, Visible(snapshot, es)) == View(order, snapshot, es)
  {
    if es != [] {
      var before, e := es[..|es| - 1], es[|es| - 1];
      NewerEntriesUnseen(order, snapshot, before);
      if e.sequence <= snapshot {
        var r := Visible(snapshot, before) + [e];
        assert r[..|r| - 1] == Visible(snapshot, before);
      }
    }
  }

  lemma {:induction false} VisibleSorted(order: Order, snapshot: nat, es: seq<Entry>)
    requires Sorted(order, es)
    ensures Sorted(order, Visible(snapshot, es))
  {
    if es != [] {
      var before, e := es[..|es| - 1], es[|es| - 1];
      VisibleSorted(order, snapshot, before);
      forall b | b in Visible(snapshot, before) ensures AtOrBefore(order, b, e) {
        var i :| 0 <= i < |before| && before[i] == b;
        assert AtOrBefore(order, es[i], es[|es| - 1]);
      }
    }
  }

  // ---------- a plain cursor ----------

  /** A cursor over the view: a position in it, or none (-1). */
  datatype Op = SeekToFirst | SeekToLast | Seek(target: Slice) | Next | Prev

  /** The position of the first key at or after the target. */
  function FirstAtOrAfter(order: Order, view: seq<(Slice, Slice)>, target: Slice, from: nat): (r: int)
    requires from <= |view|
    ensures r == -1 || from <= r < |view|
    decreases |view| - from
  {
    if from == |view| then -1
    else if order(view[from].0) >= order(target) then from
    else FirstAtOrAfter(order, view, target, from + 1)
  }

  function Step(order: Order, view: seq<(Slice, Slice)>, at: int, op: Op): (r: int)
    requires -1 <= at < |view|
    ensures -1 <= r < |view|
  {
    match op
    case SeekToFirst => if view == [] then -1 else 0
    case SeekToLast => |view| - 1
    case Seek(target) => FirstAtOrAfter(order, view, target, 0)
    case Next => if 0 <= at < |view| - 1 then at + 1 else -1
    case Prev => if at > 0 then at - 1 else -1
  }

  lemma {:induction false} FirstIs(order: Order, view: seq<(Slice, Slice)>, target: Slice, p: nat, from: nat)
    requires from <= p <= |view|
    requires forall q | 0 <= q < p :: order(view[q].0) < order(target)
    requires p < |view| ==> order(view[p].0) >= order(target)
    ensures FirstAtOrAfter(order, view, target, from) == if p < |view| then p else -1
    decreases p - from
  {
    if from < p { FirstIs(order, view, target, p, from + 1); }
  }

  /** The first live entry at or after the target, or none (j past the end), is where the
      plain cursor goes. */
  lemma SeekPosition(order: Order, snapshot: nat, es: seq<Entry>, target: Slice, j: nat)
    requires Sorted(order, es) && j <= |es|
    requires j < |es| ==> Live(order, snapshot, es, j) && order(es[j].userKey) >= order(target)
    requires forall i | 0 <= i < j && Live(order, snapshot, es, i) :: order(es[i].userKey) < order(target)
    ensures FirstAtOrAfter(order, View(order, snapshot, es), target, 0) ==
            if j < |es| then Rank(order, snapshot, es, j) else -1
  {
    hide View, FirstAtOrAfter;
    var view, p := View(order, snapshot, es), Rank(order, snapshot, es, j);
    ViewSplit(order, snapshot, es, j);
    if j < |es| { LiveInView(order, snapshot, es, j); } else { assert es[..j] == es; }
    forall q | 0 <= q < p ensures order(view[q].0) < order(target) {
      var before := es[..j];
      assert view[q] in View(order, snapshot, before);
      ViewMeaning(order, snapshot, before, view[q].0, view[q].1);
      var i :| 0 <= i < |before| && Live(order, snapshot, before, i) && before[i].userKey == view[q].0
          && before[i].value == view[q].1;
      assert before[..i] == es[..i];
      assert Live(order, snapshot, es, i);
    }
    FirstIs(order, view, target, p, 0);
  }

  /** The next live entry, or none, is one step on; seen from the other side, the previous
      live entry, or none, is one step back. */
  lemma NeighbourPosition(order: Order, snapshot: nat, es: seq<Entry>, i: int, j: int)
    requires -1 <= i < j <= |es|
    requires i >= 0 ==> Live(order, snapshot, es, i)
    requires forall k | i < k < j :: !Live(order, snapshot, es, k)
    ensures Rank(order, snapshot, es, j) == if i >= 0 then Rank(order, snapshot, es, i) + 1 else 0
  {
    if i >= 0 { ViewStep(order, snapshot, es, i); }
    NoLiveBetween(order, snapshot, es, i + 1, j);
    if i == -1 { assert es[..0] == []; }
  }
}
