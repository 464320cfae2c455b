/** The bidirectional iterator of db/db_iter.cc, over an iterator of internal entries. */
module DbIter {
  import opened Encoding
  import opened LiveView

  /** The iterator over all entries in internal key order; its interface is that of
      leveldb/iterator.h. -1 stands for "not positioned at an entry". */
  class InternalIter {
    const entries: seq<Entry>
    const order: Order
    var pos: int

    ghost predicate Ok()
      reads this
    {
      -1 <= pos < |entries| && Sorted(order, entries)
    }

    constructor (es: seq<Entry>, o: Order)
      requires Sorted(o, es)
      ensures Ok() && entries == es && order == o
    {
      entries := es;
      order := o;
      pos := -1;
    }

    predicate Valid()
      reads this
    {
      pos >= 0
    }

    function Current(): Entry
      requires Ok() && Valid()
      reads this
    {
      entries[pos]
    }

    method SeekToFirst()
      requires Ok()
      modifies this
      ensures Ok() && pos == if entries == [] then -1 else 0
    {
      pos := if entries == [] then -1 else 0;
    }

    method SeekToLast()
      requires Ok()
      modifies this
      ensures Ok() && pos == |entries| - 1
    {
      pos := |entries| - 1;
    }

    /** Moves to the first entry at or past the given internal key. */
    method Seek(target: Entry)
      requires Ok()
      modifies this
      ensures Ok()
      ensures pos >= 0 ==> AtOrBefore(order, target, entries[pos])
      ensures forall i | 0 <= i < (if pos >= 0 then pos else |entries|) :: !AtOrBefore(order, target, entries[i])
    {
      pos := 0;
      while pos < |entries| && !AtOrBefore(order, target, entries[pos])
        invariant 0 <= pos <= |entries|
        invariant forall i | 0 <= i < pos :: !AtOrBefore(order, target, entries[i])
      {
        pos := pos + 1;
      }
      if pos == |entries| {
        pos := -1;
      }
    }

    method Next()
      requires Ok() && Valid()
      modifies this
      ensures Ok() && pos == if old(pos) + 1 < |entries| then old(pos) + 1 else -1
    {
      pos := if pos + 1 < |entries| then pos + 1 else -1;
    }

    method Prev()
      requires Ok() && Valid()
      modifies this
      ensures Ok() && pos == old(pos) - 1
    {
      pos := pos - 1;
    }
  }

  datatype Direction = Forward | Reverse

  class DBIter {
    const iter: InternalIter
    const sequence: nat
    var savedKey: Slice
    var savedValue: Slice
    var direction: Direction
    var valid: bool
    /** The entry that yields the current key and value. */
    ghost var cur: int

    /** Is entry i visible at the snapshot? */
    predicate Seen(i: int)
    {
      0 <= i < |iter.entries| && iter.entries[i].sequence <= sequence
    }

    predicate IsLive(i: int)
    {
      Live(iter.order, sequence, iter.entries, i)
    }

    function Key(i: int): real
      requires 0 <= i < |iter.entries|
    {
      iter.order(iter.entries[i].userKey)
    }

    /** Going forward, the inner iterator is on the entry that yields the current key and
        value. Going backward, all visible entries up to the inner iterator have smaller
        keys and all visible entries after it have at least the current key. */
    ghost predicate Valid()
      reads this, iter
    {
      && iter.Ok()
      && (valid ==> IsLive(cur))
      && (valid && direction.Forward? ==> iter.pos == cur)
      && (valid && direction.Reverse? ==>
            && savedKey == iter.entries[cur].userKey
            && savedValue == iter.entries[cur].value
            && (forall i | 0 <= i <= iter.pos && Seen(i) :: Key(i) < Key(cur))
            && (forall i | iter.pos < i < |iter.entries| && Seen(i) :: Key(cur) <= Key(i)))
    }

    constructor (it: InternalIter, snapshot: nat)
      requires it.Ok()
      ensures Valid() && !valid && iter == it && sequence == snapshot
    {
      iter := it;
      sequence := snapshot;
      savedKey, savedValue := [], [];
      direction := Forward;
      valid := false;
      cur := -1;
    }

    function CurrentKey(): (k: Slice)
      requires Valid() && valid
      reads this, iter
      ensures k == iter.entries[cur].userKey
    {
      if direction.Forward? then iter.Current().userKey else savedKey
    }

    function CurrentValue(): (v: Slice)
      requires Valid() && valid
      reads this, iter
      ensures v == iter.entries[cur].value
    {
      if direction.Forward? then iter.Current().value else savedValue
    }

    // ---------- finding entries ----------

    /** A live entry is a visible put that no earlier visible entry of its key hides. */
    lemma LiveMeaning(i: int)
      requires 0 <= i < |iter.entries|
      ensures IsLive(i) <==>
                && Seen(i) && iter.entries[i].kind.Put?
                && forall j | 0 <= j < i && Seen(j) :: Key(j) != Key(i)
    {
      var before := iter.entries[..i];
      if forall j | 0 <= j < i && Seen(j) :: Key(j) != Key(i) {
        forall b | b in before && b.sequence <= sequence ensures iter.order(b.userKey) != Key(i) {
          var j :| 0 <= j < |before| && before[j] == b;
          assert Seen(j);
        }
      }
      if IsLive(i) {
        forall j | 0 <= j < i && Seen(j) ensures Key(j) != Key(i) {
          assert before[j] in before;
        }
      }
    }

    /** What FindNextUserEntry looks for: a live entry, past the key to skip if there is one. */
    predicate Wanted(i: int, skipping: bool, skip: Slice) {
      IsLive(i) && (skipping ==> iter.order(skip) < Key(i))
    }

    /** FindNextUserEntry. Entries hidden by what came before the inner iterator are hidden
        by the key to skip, which no visible entry from there on undercuts. */
    method FindNextUserEntry(skipping0: bool)
      requires iter.Ok() && iter.Valid() && direction.Forward?
      requires forall i | 0 <= i < iter.pos && Seen(i) && Key(i) == Key(iter.pos) ::
                 skipping0 && Key(iter.pos) <= iter.order(savedKey)
      requires skipping0 ==> forall i | iter.pos <= i < |iter.entries| && Seen(i) :: iter.order(savedKey) <= Key(i)
      modifies this, iter
      ensures Valid() && direction.Forward?
      ensures valid ==> old(iter.pos) <= cur && Wanted(cur, skipping0, old(savedKey))
      ensures forall i | old(iter.pos) <= i < (if valid then cur else |iter.entries|) ::
                !Wanted(i, skipping0, old(savedKey))
    {
      var skipping := skipping0;
      while true
        invariant iter.Ok() && iter.Valid() && direction.Forward? && old(iter.pos) <= iter.pos
        invariant forall i | old(iter.pos) <= i < iter.pos :: !Wanted(i, skipping0, old(savedKey))
        invariant forall i | 0 <= i < iter.pos && Seen(i) && Key(i) == Key(iter.pos) ::
                    skipping && Key(iter.pos) <= iter.order(savedKey)
        invariant skipping0 ==> skipping && iter.order(old(savedKey)) <= iter.order(savedKey)
        invariant skipping && (!skipping0 || savedKey != old(savedKey)) ==>
                    exists i | 0 <= i < iter.pos :: Seen(i) && iter.entries[i].userKey == savedKey
        decreases |iter.entries| - iter.pos
      {
        var e := iter.Current();
        LiveMeaning(iter.pos);
        if e.sequence <= sequence {
          match e.kind {
            case Deletion =>
              savedKey := e.userKey;
              skipping := true;
            case Put =>
              if skipping && Compare(iter.order, e.userKey, savedKey) <= 0 {
                // hidden
              } else {
                valid := true;
                savedKey := [];
                cur := iter.pos;
                return;
              }
          }
        }
        iter.Next();
        if !iter.Valid() {
          break;
        }
      }
      savedKey := [];
      valid := false;
    }

    lemma KeysAscend(i: int, j: int)
      requires iter.Ok() && 0 <= i <= j < |iter.entries|
      ensures Key(i) <= Key(j)
    {
      if i < j { assert AtOrBefore(iter.order, iter.entries[i], iter.entries[j]); }
    }

    /** Moving backward past u, the next visible entry before v: if v is a deletion, or u
        has the same key, then v is not live. */
    lemma PassedNotLive(u: int, v: int)
      requires iter.Ok() && 0 <= u < v < |iter.entries| && Seen(u) && Seen(v)
      requires iter.entries[v].kind.Deletion? || Key(u) >= Key(v)
      ensures !IsLive(v)
    {
      LiveMeaning(v);
      KeysAscend(u, v);
    }

    /** If no visible entry before v, down to p, exists and those up to p have smaller keys,
        then a put at v is live, and the entries around it are as Valid wants them. */
    lemma StopsAtLive(p: int, v: int)
      requires iter.Ok() && -1 <= p < v < |iter.entries| && Seen(v) && iter.entries[v].kind.Put?
      requires forall i | p < i < v :: !Seen(i)
      requires p >= 0 ==> Key(p) < Key(v)
      ensures IsLive(v)
      ensures forall i | 0 <= i <= p && Seen(i) :: Key(i) < Key(v)
      ensures forall i | p < i < |iter.entries| && Seen(i) :: Key(v) <= Key(i)
    {
      forall i | 0 <= i <= p && Seen(i) ensures Key(i) < Key(v) {
        KeysAscend(i, p);
      }
      forall i | p < i < |iter.entries| && Seen(i) ensures Key(v) <= Key(i) {
        KeysAscend(v, i);
      }
      LiveMeaning(v);
    }

    lemma DeletionNotLive(v: int)
      requires 0 <= v < |iter.entries| && (!Seen(v) || iter.entries[v].kind.Deletion?)
      ensures !IsLive(v)
    {
      LiveMeaning(v);
    }

    /** Scanning backward from `start`, down to position p: v is the earliest visible entry
        passed so far, or start + 1, and no entry after it is live. */
    ghost predicate Scanned(start: int, p: int, v: int, kind: ValueType) {
      && -1 <= p < v <= start + 1 <= |iter.entries|
      && (forall i | p < i < v :: !Seen(i))
      && (forall i | v < i <= start :: !IsLive(i))
      && (v == start + 1 ==> kind.Deletion?)
      && (v <= start ==> Seen(v) && iter.entries[v].kind == kind)
    }

    lemma ScanOn(start: int, p: int, v: int, kind: ValueType)
      requires Scanned(start, p, v, kind) && p >= 0 && !Seen(p)
      ensures Scanned(start, p - 1, v, kind)
    {
      hide IsLive;
    }

    lemma ScanPasses(start: int, p: int, v: int, kind: ValueType)
      requires iter.Ok() && Scanned(start, p, v, kind) && p >= 0 && Seen(p)
      requires kind.Put? ==> Key(v) <= Key(p)
      ensures Scanned(start, p - 1, p, iter.entries[p].kind)
    {
      hide Sorted;
      if v <= start { PassedNotLive(p, v); }
      Unseen(p, v);
    }

    lemma ScanEnds(start: int, p: int, v: int, kind: ValueType)
      requires iter.Ok() && Scanned(start, p, v, kind)
      requires p == -1 || (kind.Put? && Key(p) < Key(v))
      ensures kind.Deletion? ==> forall i | -1 < i <= start :: !IsLive(i)
      ensures kind.Put? ==>
                && v <= start && IsLive(v) && (forall i | v < i <= start :: !IsLive(i))
                && (forall i | 0 <= i <= p && Seen(i) :: Key(i) < Key(v))
                && (forall i | p < i < |iter.entries| && Seen(i) :: Key(v) <= Key(i))
    {
      hide Sorted;
      Unseen(p, v);
      if kind.Deletion? {
        if v <= start { DeletionNotLive(v); }
      } else {
        StopsAtLive(p, v);
      }
    }

    /** FindPrevUserEntry: the last live entry up to where the inner iterator is. */
    method FindPrevUserEntry()
      requires iter.Ok() && direction.Reverse?
      modifies this, iter
      ensures Valid()
      ensures valid ==> direction.Reverse? && 0 <= cur <= old(iter.pos)
      ensures forall i | (if valid then cur else -1) < i <= old(iter.pos) :: !IsLive(i)
    {
      hide LiveAfter, Sorted, Scanned;
      ghost var start := iter.pos;
      ghost var v := start + 1;
      var valueType := Deletion;
      ScanBegins(start);
      if iter.Valid() {
        while true
          invariant iter.Ok() && iter.Valid() && direction.Reverse? && iter.pos <= start
          invariant Scanned(start, iter.pos, v, valueType)
          invariant valueType.Put? ==>
                      && 0 <= v < |iter.entries|
                      && savedKey == iter.entries[v].userKey && savedValue == iter.entries[v].value
          decreases iter.pos
        {
          var e := iter.Current();
          if e.sequence <= sequence {
            if valueType.Put? && Compare(iter.order, e.userKey, savedKey) < 0 {
              break;
            }
            ScanPasses(start, iter.pos, v, valueType);
            valueType := e.kind;
            v := iter.pos;
            if valueType.Deletion? {
              savedKey := [];
              savedValue := [];
            } else {
              savedKey := e.userKey;
              savedValue := e.value;
            }
          } else {
            ScanOn(start, iter.pos, v, valueType);
          }
          iter.Prev();
          if !iter.Valid() {
            break;
          }
        }
      }
      ScanEnds(start, iter.pos, v, valueType);
      if valueType.Deletion? {
        valid := false;
        savedKey := [];
        savedValue := [];
        direction := Forward;
      } else {
        valid := true;
        cur := v;
      }
    }

    lemma ScanBegins(start: int)
      requires -1 <= start < |iter.entries|
      ensures Scanned(start, start, start + 1, Deletion)
    {
    }

    /** No entry between two positions is live if none is visible. */
    lemma Unseen(p: int, v: int)
      requires -1 <= p && v <= |iter.entries| && forall i | p < i < v :: !Seen(i)
      ensures forall i | p < i < v :: !IsLive(i)
    {
      forall i | p < i < v ensures !IsLive(i) {
        DeletionNotLive(i);
      }
    }

    // ---------- the public operations ----------

    ghost function TheView(): seq<(Slice, Slice)> {
      View(iter.order, sequence, iter.entries)
    }

    /** The position in the view that the iterator shows, or -1. */
    ghost function Position(): (r: int)
      requires Valid()
      reads this, iter
      ensures -1 <= r < |TheView()|
      ensures valid <==> r >= 0
      ensures valid ==> TheView()[r] == (CurrentKey(), CurrentValue())
    {
      if valid then
        LiveInView(iter.order, sequence, iter.entries, cur);
        Rank(iter.order, sequence, iter.entries, cur)
      else -1
    }

    ghost function After(at: int, op: Op): int
      requires -1 <= at < |TheView()|
    {
      LiveView.Step(iter.order, TheView(), at, op)
    }

    /** From entry i on, or from the start if i is -1, the next live entry is j, or there is
        none and j is the number of entries: they are neighbours in the view. */
    lemma Neighbours(i: int, j: int)
      requires -1 <= i < j <= |iter.entries|
      requires i >= 0 ==> IsLive(i)
      requires forall k | i < k < j :: !IsLive(k)
      ensures Rank(iter.order, sequence, iter.entries, j) ==
              if i >= 0 then Rank(iter.order, sequence, iter.entries, i) + 1 else 0
      ensures j == |iter.entries| ==> Rank(iter.order, sequence, iter.entries, j) == |TheView()|
    {
      forall k | i < k < j ensures !Live(iter.order, sequence, iter.entries, k) {
        assert !IsLive(k);
      }
      NeighbourPosition(iter.order, sequence, iter.entries, i, j);
      assert iter.entries[..|iter.entries|] == iter.entries;
    }

    /** No two live entries have the same key. */
    lemma LiveKeysDiffer(i: int, j: int)
      requires iter.Ok() && 0 <= i < j < |iter.entries| && Seen(i) && IsLive(j)
      ensures Key(i) < Key(j)
    {
      LiveMeaning(j);
      KeysAscend(i, j);
    }

    method SeekToFirst()
      requires Valid()
      modifies this, iter
      ensures Valid() && Position() == After(old(Position()), Op.SeekToFirst)
    {
      hide LiveAfter, LiveView.View, Sorted;
      direction := Forward;
      savedValue := [];
      iter.SeekToFirst();
      ghost var skip := savedKey;
      if iter.Valid() {
        FindNextUserEntry(false);
      } else {
        valid := false;
      }
      ghost var j := if valid then cur else |iter.entries|;
      forall k | -1 < k < j ensures !IsLive(k) {
        assert !Wanted(k, false, skip);
      }
      Neighbours(-1, j);
    }

    method SeekToLast()
      requires Valid()
      modifies this, iter
      ensures Valid() && Position() == After(old(Position()), Op.SeekToLast)
    {
      hide LiveAfter, LiveView.View, Sorted;
      direction := Reverse;
      savedValue := [];
      iter.SeekToLast();
      FindPrevUserEntry();
      Neighbours(if valid then cur else -1, |iter.entries|);
    }

    /** Where the inner iterator lands: nothing before it is at or after the target and
        visible, and everything from it on has at least the target's key. */
    lemma SeekLands(target: Slice, p: int)
      requires iter.Ok() && 0 <= p <= |iter.entries|
      requires forall i | 0 <= i < p :: !AtOrBefore(iter.order, Entry(target, sequence, Put, []), iter.entries[i])
      requires p < |iter.entries| ==> AtOrBefore(iter.order, Entry(target, sequence, Put, []), iter.entries[p])
      ensures forall i | 0 <= i < p && Seen(i) :: Key(i) < iter.order(target)
      ensures forall i | p <= i < |iter.entries| :: iter.order(target) <= Key(i)
    {
      forall i | p <= i < |iter.entries| ensures iter.order(target) <= Key(i) {
        KeysAscend(p, i);
      }
    }

    method Seek(target: Slice)
      requires Valid()
      modifies this, iter
      ensures Valid() && Position() == After(old(Position()), Op.Seek(target))
    {
      hide LiveAfter, LiveView.View, Sorted, AtOrBefore, FirstAtOrAfter;
      direction := Forward;
      savedValue := [];
      savedKey := InternalKey(target, sequence, Put);
      iter.Seek(Entry(target, sequence, Put, []));
      ghost var start, skip := if iter.pos >= 0 then iter.pos else |iter.entries|, savedKey;
      SeekLands(target, start);
      if iter.Valid() {
        FindNextUserEntry(false);
      } else {
        valid := false;
      }
      ghost var j := if valid then cur else |iter.entries|;
      forall i | 0 <= i < j ensures Live(iter.order, sequence, iter.entries, i) ==> Key(i) < iter.order(target) {
        if i < start { LiveMeaning(i); } else { assert !Wanted(i, false, skip); }
      }
      if valid { assert iter.order(target) <= Key(cur); }
      SeekPosition(iter.order, sequence, iter.entries, target, j);
    }

    method Next()
      requires Valid() && valid
      modifies this, iter
      ensures Valid() && Position() == After(old(Position()), Op.Next)
    {
      hide LiveAfter, LiveView.View, Sorted;
      ghost var at := cur;
      LiveMeaning(at);
      if direction.Reverse? {
        direction := Forward;
        if !iter.Valid() {
          iter.SeekToFirst();
        } else {
          iter.Next();
        }
        if !iter.Valid() {
          // The source ends here, but cannot: the current entry is still ahead.
          assert false;
        }
      } else {
        savedKey := iter.Current().userKey;
        forall i | at <= i < |iter.entries| ensures Key(at) <= Key(i) {
          KeysAscend(at, i);
        }
      }
      ghost var start, skip := iter.pos, savedKey;
      assert iter.order(skip) == Key(at) && start <= at;
      FindNextUserEntry(true);
      ghost var j := if valid then cur else |iter.entries|;
      if j <= at {
        KeysAscend(j, at);
      }
      forall i | at < i < j ensures !IsLive(i) {
        assert !Wanted(i, true, skip);
        if IsLive(i) { LiveKeysDiffer(at, i); }
      }
      Neighbours(at, j);
    }

    method Prev()
      requires Valid() && valid
      modifies this, iter
      ensures Valid() && Position() == After(old(Position()), Op.Prev)
    {
      hide LiveAfter, LiveView.View, Sorted;
      ghost var at := cur;
      LiveMeaning(at);
      if direction.Forward? {
        savedKey := iter.Current().userKey;
        while true
          invariant iter.Ok() && iter.Valid() && iter.pos <= at && direction.Forward?
          invariant savedKey == iter.entries[at].userKey
          invariant forall i | iter.pos <= i < at :: Key(at) <= Key(i)
          decreases iter.pos
        {
          iter.Prev();
          if !iter.Valid() {
            valid := false;
            savedKey := [];
            savedValue := [];
            NotLiveBefore(-1, at);
            Neighbours(-1, at);
            return;
          }
          if Compare(iter.order, iter.Current().userKey, savedKey) < 0 {
            break;
          }
        }
        direction := Reverse;
      }
      NotLiveBefore(iter.pos, at);
      FindPrevUserEntry();
      Neighbours(if valid then cur else -1, at);
    }

    /** Visible entries before a live entry that do not have a smaller key are not live. */
    lemma NotLiveBefore(p: int, at: int)
      requires iter.Ok() && -1 <= p < at && IsLive(at)
      requires forall i | p < i < at && Seen(i) :: Key(at) <= Key(i)
      ensures forall i | p < i < at :: !IsLive(i)
    {
      forall i | p < i < at ensures !IsLive(i) {
        LiveMeaning(i);
        if IsLive(i) { LiveKeysDiffer(i, at); }
      }
    }
  }

  /** AppendInternalKey: the key and eight bytes for sequence and type, low-order byte first. */
  function InternalKey(userKey: Slice, sequence: nat, kind: ValueType): Slice {
    userKey + FixedBytes(Pack(sequence, kind), 8)
  }

  // ---------- whole runs ----------

  /** What a caller sees. */
  datatype Observation = AtEnd | At(key: Slice, value: Slice)

  function Observe(view: seq<(Slice, Slice)>, at: int): Observation
    requires -1 <= at < |view|
  {
    if at == -1 then AtEnd else At(view[at].0, view[at].1)
  }

  /** What a plain cursor over the view shows after each operation; Next and Prev are only
      called on a cursor that is somewhere. */
  function PlainRun(order: Order, view: seq<(Slice, Slice)>, at: int, ops: seq<Op>): seq<Observation>
    requires -1 <= at < |view|
    decreases |ops|
  {
    if ops == [] then []
    else if (ops[0].Next? || ops[0].Prev?) && at == -1 then PlainRun(order, view, at, ops[1..])
    else
      var to := LiveView.Step(order, view, at, ops[0]);
      [Observe(view, to)] + PlainRun(order, view, to, ops[1..])
  }

  method Apply(it: DBIter, op: Op)
    requires it.Valid() && ((op.Next? || op.Prev?) ==> it.valid)
    modifies it, it.iter
    ensures it.Valid() && it.Position() == it.After(old(it.Position()), op)
  {
    match op {
      case SeekToFirst => it.SeekToFirst();
      case SeekToLast => it.SeekToLast();
      case Seek(target) => it.Seek(target);
      case Next => it.Next();
      case Prev => it.Prev();
    }
  }

  /** Any run of operations shows what the same run of a plain cursor over the live view
      shows. */
  method Run(it: DBIter, ops: seq<Op>) returns (seen: seq<Observation>)
    requires it.Valid()
    modifies it, it.iter
    ensures it.Valid()
    ensures seen == PlainRun(it.iter.order, it.TheView(), old(it.Position()), ops)
  {
    hide LiveView.View, LiveView.Step, PlainRun, DBIter.Valid, DBIter.Position;
    seen := [];
    var i := 0;
    assert ops[0..] == ops;
    while i < |ops|
      invariant 0 <= i <= |ops| && it.Valid()
      invariant PlainRun(it.iter.order, it.TheView(), old(it.Position()), ops) ==
                seen + PlainRun(it.iter.order, it.TheView(), it.Position(), ops[i..])
    {
      assert ops[i..][1..] == ops[i + 1..];
      PlainTurn(it.iter.order, it.TheView(), it.Position(), ops[i..]);
      if (ops[i].Next? || ops[i].Prev?) && !it.valid {
        i := i + 1;
        continue;
      }
      Apply(it, ops[i]);
      var shown := if it.valid then At(it.CurrentKey(), it.CurrentValue()) else AtEnd;
      Joined(seen, shown, PlainRun(it.iter.order, it.TheView(), it.Position(), ops[i + 1..]));
      seen := seen + [shown];
      i := i + 1;
    }
    PlainEnd(it.iter.order, it.TheView(), it.Position());
    assert ops[i..] == [] && seen + [] == seen;
  }

  lemma Joined(seen: seq<Observation>, shown: Observation, rest: seq<Observation>)
    ensures seen + ([shown] + rest) == seen + [shown] + rest
  {
  }

  lemma PlainTurn(order: Order, view: seq<(Slice, Slice)>, at: int, ops: seq<Op>)
    requires -1 <= at < |view| && ops != []
    ensures PlainRun(order, view, at, ops) ==
            if (ops[0].Next? || ops[0].Prev?) && at == -1 then PlainRun(order, view, at, ops[1..])
            else
              var to := LiveView.Step(order, view, at, ops[0]);
              [Observe(view, to)] + PlainRun(order, view, to, ops[1..])
  {
    hide LiveView.Step;
  }

  lemma PlainEnd(order: Order, view: seq<(Slice, Slice)>, at: int)
    requires -1 <= at < |view|
    ensures PlainRun(order, view, at, []) == []
  {
  }

  /** Next and then Prev, or Prev and then Next, come back to the same key and value, if the
      step in the middle is somewhere. */
  method ThereAndBack(it: DBIter, forward: bool) returns (there: bool)
    requires it.Valid() && it.valid
    modifies it, it.iter
    ensures it.Valid()
    ensures there ==> it.valid && it.CurrentKey() == old(it.CurrentKey()) && it.CurrentValue() == old(it.CurrentValue())
    ensures there <==> (if forward then old(it.Position()) + 1 < |it.TheView()| else old(it.Position()) > 0)
  {
    hide LiveView.View;
    if forward { it.Next(); } else { it.Prev(); }
    there := it.valid;
    if there {
      if forward { it.Prev(); } else { it.Next(); }
    }
  }

  /** Two iterators at one snapshot, one over entries of which some are newer and one over the
      others only, show the same in every run. */
  method RunsIgnoreNewerEntries(it: DBIter, older: DBIter, ops: seq<Op>)
    returns (seen: seq<Observation>, seenOlder: seq<Observation>)
    requires it.Valid() && older.Valid() && it != older && it.iter != older.iter
    requires !it.valid && !older.valid && it.sequence == older.sequence && it.iter.order == older.iter.order
    requires older.iter.entries == Visible(it.sequence, it.iter.entries)
    modifies it, it.iter, older, older.iter
    ensures it.Valid() && older.Valid()
    ensures seen == seenOlder
  {
    hide LiveView.View, PlainRun, Visible;
    NewerEntriesUnseen(it.iter.order, it.sequence, it.iter.entries);
    seen := Run(it, ops);
    seenOlder := Run(older, ops);
  }

  /** The entries that are not newer are again a sorted list, so there is such an iterator. */
  method WithoutNewer(it: DBIter) returns (older: DBIter)
    requires it.Valid()
    ensures fresh(older) && fresh(older.iter) && older.Valid() && !older.valid && older.sequence == it.sequence
    ensures older.iter.order == it.iter.order && older.iter.entries == Visible(it.sequence, it.iter.entries)
  {
    VisibleSorted(it.iter.order, it.sequence, it.iter.entries);
    var inner := new InternalIter(Visible(it.sequence, it.iter.entries), it.iter.order);
    older := new DBIter(inner, it.sequence);
  }
}
