/** The first pass of ClassingPokers in pokerCore.swift: five cards of one suit with the
    ranks of a row of SHUNZI. The search for a row serves the straights as well. */
module StraightFlushes {
  import opened Cards

  // ---------- finding a row of five ----------

  predicate Missing(cs: seq<Card>, from: nat, end: nat, n: int)
    requires end <= |cs|
  {
    forall i | from <= i < end :: cs[i].num != n
  }

  predicate Descends(cs: seq<Card>, from: nat, end: nat)
    requires end <= |cs|
  {
    forall i, j | from <= i <= j < end :: cs[i].num >= cs[j].num
  }

  predicate Increasing(loc: seq<nat>, from: nat, end: nat) {
    && (forall k | 0 <= k < |loc| :: from <= loc[k] < end)
    && (forall j, k | 0 <= j < k < |loc| :: loc[j] < loc[k])
  }

  /** Looks for the ranks of a row, from its first one on. */
  method MatchRow(cs: seq<Card>, from: nat, end: nat, row: seq<int>) returns (loc: seq<nat>)
    requires from < end <= |cs| && IsRow(row) && cs[from].num == row[0]
    ensures 1 <= |loc| <= 5 && loc[0] == from && Increasing(loc, from, end)
    ensures forall k | 0 <= k < |loc| :: cs[loc[k]].num == row[k]
    ensures |loc| < 5 && Descends(cs, from, end) ==> Missing(cs, from, end, row[|loc|])
  {
    var times := 1;
    loc := [from];
    var count := from;
    while count < end && times < 5
      invariant from <= count <= end && 1 <= times == |loc| <= 5
      invariant loc[0] == from && Increasing(loc, from, if count == from then from + 1 else count)
      invariant forall k | 0 <= k < |loc| :: cs[loc[k]].num == row[k]
      invariant times < 5 && Descends(cs, from, end) ==> Missing(cs, from, count, row[times])
    {
      if cs[count].num == row[times] {
        times := times + 1;
        loc := loc + [count];
      }
      count := count + 1;
    }
  }

  /** The cards at these places. */
  function Picked(cs: seq<Card>, loc: seq<nat>): (r: seq<Card>)
    requires Increasing(loc, 0, |cs|)
    ensures |r| == |loc| && forall k | 0 <= k < |loc| :: r[k] == cs[loc[k]]
  {
    seq(|loc|, k requires 0 <= k < |loc| => cs[loc[k]])
  }

  /** What is left without the cards at these places. */
  function TakeOut(cs: seq<Card>, loc: seq<nat>): (r: seq<Card>)
    requires Increasing(loc, 0, |cs|)
    ensures |r| == |cs| - |loc|
    decreases |loc|
  {
    if loc == [] then cs
    else
      var n := |loc| - 1;
      TakeOut(RemoveAt(cs, loc[n]), loc[..n])
  }

  lemma PickedLast(cs: seq<Card>, loc: seq<nat>)
    requires loc != [] && Increasing(loc, 0, |cs|)
    ensures var n := |loc| - 1;
            && loc[n] < |cs| && Increasing(loc[..n], 0, |RemoveAt(cs, loc[n])|)
            && Picked(cs, loc) == Picked(RemoveAt(cs, loc[n]), loc[..n]) + [cs[loc[n]]]
  {
  }

  lemma Sums(rest: multiset<Card>, taken: multiset<Card>, less: multiset<Card>, one: multiset<Card>,
      all: multiset<Card>)
    requires rest + taken == less && less + one == all
    ensures rest + (taken + one) == all
  {
  }

  lemma {:induction false} TakeOutCards(cs: seq<Card>, loc: seq<nat>)
    requires Increasing(loc, 0, |cs|)
    ensures multiset(TakeOut(cs, loc)) + multiset(Picked(cs, loc)) == multiset(cs)
    decreases |loc|
  {
    if loc == [] {
    } else {
      var n := |loc| - 1;
      PickedLast(cs, loc);
      var less, picked := RemoveAt(cs, loc[n]), Picked(cs, loc);
      hide RemoveAt, Picked, Increasing;
      TakeOutCards(less, loc[..n]);
      Sums(multiset(TakeOut(less, loc[..n])), multiset(Picked(less, loc[..n])), multiset(less), multiset{cs[loc[n]]},
          multiset(cs));
    }
  }

  lemma {:induction false} TakeOutOrdered(order: By, cs: seq<Card>, loc: seq<nat>)
    requires Increasing(loc, 0, |cs|) && Ordered(order, cs)
    ensures Ordered(order, TakeOut(cs, loc))
    decreases |loc|
  {
    if loc == [] {
    } else {
      RemoveOrdered(order, cs, loc[|loc| - 1]);
      TakeOutOrdered(order, RemoveAt(cs, loc[|loc| - 1]), loc[..|loc| - 1]);
    }
  }

  /** Removes the cards one by one, the last place first. */
  method TakeCards(cs: seq<Card>, loc: seq<nat>) returns (rest: seq<Card>)
    requires Increasing(loc, 0, |cs|)
    ensures rest == TakeOut(cs, loc)
  {
    rest := cs;
    var k := |loc|;
    assert loc[..k] == loc;
    while k > 0
      invariant 0 <= k <= |loc| && Increasing(loc[..k], 0, |rest|)
      invariant TakeOut(rest, loc[..k]) == TakeOut(cs, loc)
    {
      assert loc[..k][..k - 1] == loc[..k - 1];
      k := k - 1;
      rest := RemoveAt(rest, loc[k]);
    }
  }

  /** Cards with the ranks of a row are already in order. */
  lemma RowInOrder(cs: seq<Card>, row: seq<int>)
    requires IsRow(row) && HasRanks(cs, row)
    ensures Sort(ByNum, cs) == cs
  {
    SortUnique(ByNum, cs, Sort(ByNum, cs));
  }

  // ---------- straight flushes ----------

  predicate Holds(cs: seq<Card>, s: Suit, n: int) {
    exists i | 0 <= i < |cs| :: cs[i].suitnum == s && cs[i].num == n
  }

  /** The hand holds a row of SHUNZI in one suit. */
  predicate HasRow(cs: seq<Card>, s: Suit, r: nat)
    requires r < 10
  {
    forall k | 0 <= k < 5 :: Holds(cs, s, Row(r)[k])
  }

  predicate HasStraightFlush(cs: seq<Card>) {
    exists s: Suit, r: nat | r < 10 :: HasRow(cs, s, r)
  }

  /** Of two complete rows of a suit the search meets the one with the higher first card; of
      the two rows that start with a two, the one listed first. */
  predicate MetBefore(r: nat, q: nat)
    requires r < 10 && q < 10
  {
    Row(r)[0] > Row(q)[0] || (Row(r)[0] == Row(q)[0] && r <= q)
  }

  /** The row of the suit that is taken. */
  ghost predicate TakesRow(cs: seq<Card>, s: Suit, r: nat)
    requires r < 10
  {
    HasRow(cs, s, r) && forall q: nat | q < 10 && HasRow(cs, s, q) :: MetBefore(r, q)
  }

  ghost predicate InTakenRow(cs: seq<Card>, c: Card) {
    exists r: nat | r < 10 :: TakesRow(cs, c.suitnum, r) && c.num in Row(r)
  }

  predicate InSegment(cs: seq<Card>, from: nat, end: nat, r: nat)
    requires end <= |cs| && r < 10
  {
    forall k | 0 <= k < 5 :: !Missing(cs, from, end, Row(r)[k])
  }

  /** If the card here starts the row, the row is not complete. */
  predicate Refuted(cs: seq<Card>, from: nat, at: nat, end: nat, r: nat)
    requires end <= |cs| && r < 10
  {
    at < end && cs[at].num == Row(r)[0] ==> !InSegment(cs, from, end, r)
  }

  lemma MissingFromStart(cs: seq<Card>, from: nat, at: nat, end: nat, r: nat, k: nat)
    requires from <= at < end <= |cs| && r < 10 && 0 < k < 5
    requires Descends(cs, from, end) && cs[at].num == Row(r)[0] && Missing(cs, at, end, Row(r)[k])
    ensures !InSegment(cs, from, end, r)
  {
    assert Missing(cs, from, end, Row(r)[k]);
  }

  /** A complete row needs five places. */
  lemma RoomForRow(cs: seq<Card>, from: nat, end: nat, r: nat) returns (p: nat)
    requires from <= end <= |cs| && r < 10 && Descends(cs, from, end)
    ensures InSegment(cs, from, end, r) ==> from <= p && p + 4 < end && cs[p].num == Row(r)[0]
  {
    if !InSegment(cs, from, end, r) { return 0; }
    var row := Row(r);
    assert forall k | 0 <= k < 5 :: !Missing(cs, from, end, row[k]);
    assert !Missing(cs, from, end, row[0]) && !Missing(cs, from, end, row[1]) && !Missing(cs, from, end, row[2])
        && !Missing(cs, from, end, row[3]) && !Missing(cs, from, end, row[4]);
    p :| from <= p < end && cs[p].num == row[0];
    var p1 :| from <= p1 < end && cs[p1].num == row[1];
    var p2 :| from <= p2 < end && cs[p2].num == row[2];
    var p3 :| from <= p3 < end && cs[p3].num == row[3];
    var p4 :| from <= p4 < end && cs[p4].num == row[4];
    assert p < p1 < p2 < p3 < p4;
  }

  /** The five cards of the row in this suit. */
  predicate IsRowOf(five: seq<Card>, s: Suit, r: nat)
    requires r < 10
  {
    |five| == 5 && forall k | 0 <= k < 5 :: five[k] == Card(s, Row(r)[k])
  }

  lemma FirstMet(cs: seq<Card>, from: nat, at: nat, end: nat, r: nat, q: nat)
    requires from <= at < end <= |cs| && r < 10 && q < 10 && Descends(cs, from, end)
    requires cs[at].num == Row(r)[0] && InSegment(cs, from, end, q)
    requires forall i: nat | from <= i < at :: Refuted(cs, from, i, end, q)
    requires q < r ==> Refuted(cs, from, at, end, q)
    ensures MetBefore(r, q)
  {
    hide InSegment, Row;
    var p := RoomForRow(cs, from, end, q);
    assert p < at ==> Refuted(cs, from, p, end, q);
  }

  /** The search within one suit: every start, every row. */
  method FindStraightFlush(cs: seq<Card>, suitS: nat, end: nat) returns (loc: seq<nat>, cmp: nat)
    requires suitS < end <= |cs| && Descends(cs, suitS, end)
    ensures loc == [] || |loc| == 5
    ensures |loc| == 5 ==> cmp < 10 && Increasing(loc, suitS, end)
    ensures |loc| == 5 ==> forall k | 0 <= k < 5 :: cs[loc[k]].num == Row(cmp)[k]
    ensures loc == [] <==> forall r: nat | r < 10 :: !InSegment(cs, suitS, end, r)
    ensures |loc| == 5 ==> InSegment(cs, suitS, end, cmp)
    ensures |loc| == 5 ==> forall q: nat | q < 10 && InSegment(cs, suitS, end, q) :: MetBefore(cmp, q)
  {
    hide InSegment, Missing, Row, MetBefore;
    var coun := suitS;
    cmp := 0;
    while coun < end - 4
      invariant suitS <= coun <= end && cmp < 10
      invariant forall r: nat, i: nat | r < 10 && suitS <= i < coun :: Refuted(cs, suitS, i, end, r)
      invariant forall r: nat | r < cmp :: Refuted(cs, suitS, coun, end, r)
      decreases end - coun, 10 - cmp
    {
      if cs[coun].num == Row(cmp)[0] {
        loc := MatchRow(cs, coun, end, Row(cmp));
        if |loc| == 5 {
          FoundInSegment(cs, suitS, end, loc, cmp);
          forall q: nat | q < 10 && InSegment(cs, suitS, end, q) ensures MetBefore(cmp, q) {
            FirstMet(cs, suitS, coun, end, cmp, q);
          }
          return;
        }
        MissingFromStart(cs, suitS, coun, end, cmp, |loc|);
      }
      assert Refuted(cs, suitS, coun, end, cmp);
      if cmp == 9 {
        coun := coun + 1;
        cmp := 0;
      } else {
        cmp := cmp + 1;
      }
    }
    loc := [];
    forall r: nat | r < 10 ensures !InSegment(cs, suitS, end, r) {
      var p := RoomForRow(cs, suitS, end, r);
      assert suitS <= p < coun ==> Refuted(cs, suitS, p, end, r);
    }
  }

  lemma FoundInSegment(cs: seq<Card>, from: nat, end: nat, loc: seq<nat>, r: nat)
    requires from <= end <= |cs| && r < 10 && |loc| == 5 && Increasing(loc, from, end)
    requires forall k | 0 <= k < 5 :: cs[loc[k]].num == Row(r)[k]
    ensures InSegment(cs, from, end, r)
  {
    forall k | 0 <= k < 5 ensures !Missing(cs, from, end, Row(r)[k]) {
      assert from <= loc[k] < end && cs[loc[k]].num == Row(r)[k];
    }
  }

  /** The segment holds all cards of one suit. */
  predicate WholeSuit(cs: seq<Card>, from: nat, end: nat) {
    && from < end <= |cs|
    && forall i | 0 <= i < |cs| :: cs[i].suitnum == cs[from].suitnum <==> from <= i < end
  }

  lemma SegmentRow(cs: seq<Card>, from: nat, end: nat, r: nat)
    requires WholeSuit(cs, from, end) && r < 10
    ensures HasRow(cs, cs[from].suitnum, r) <==> InSegment(cs, from, end, r)
  {
    forall k | 0 <= k < 5
      ensures Holds(cs, cs[from].suitnum, Row(r)[k]) <==> !Missing(cs, from, end, Row(r)[k])
    {
    }
  }

  lemma FourCardsNoRow(cs: seq<Card>, s: Suit, r: nat)
    requires |cs| <= 4 && r < 10
    ensures !HasRow(cs, s, r)
  {
    hide Row;
    if HasRow(cs, s, r) {
      var row := Row(r);
      assert Holds(cs, s, row[0]) && Holds(cs, s, row[1]) && Holds(cs, s, row[2]) && Holds(cs, s, row[3])
             && Holds(cs, s, row[4]);
      var p0 :| 0 <= p0 < |cs| && cs[p0].num == row[0];
      var p1 :| 0 <= p1 < |cs| && cs[p1].num == row[1];
      var p2 :| 0 <= p2 < |cs| && cs[p2].num == row[2];
      var p3 :| 0 <= p3 < |cs| && cs[p3].num == row[3];
      var p4 :| 0 <= p4 < |cs| && cs[p4].num == row[4];
      assert false;
    }
  }

  /** No row is complete in the suits of the cards before this place. */
  predicate NoRowBefore(cs: seq<Card>, at: nat) {
    forall i, r: nat | 0 <= i < at && i < |cs| && r < 10 :: !HasRow(cs, cs[i].suitnum, r)
  }

  /** The suits of the cards before this place do not go on after it. */
  predicate SuitEnds(cs: seq<Card>, at: nat) {
    forall i, j | 0 <= i < at <= j < |cs| :: cs[i].suitnum > cs[j].suitnum
  }

  lemma SegmentDone(cs: seq<Card>, from: nat, end: nat)
    requires Ordered(BySuit, cs) && SuitEnds(cs, from) && from < end <= |cs| && NoRowBefore(cs, from)
    requires forall i | from <= i < end :: cs[i].suitnum == cs[from].suitnum
    requires end < |cs| ==> cs[end].suitnum != cs[from].suitnum
    ensures SuitEnds(cs, end) && Descends(cs, from, end)
    ensures (forall r: nat | r < 10 :: !InSegment(cs, from, end, r)) ==> NoRowBefore(cs, end)
    ensures (exists r: nat | r < 10 :: InSegment(cs, from, end, r)) ==> HasStraightFlush(cs)
  {
    hide InSegment, HasRow;
    forall i, j | 0 <= i < end <= j < |cs| ensures cs[i].suitnum > cs[j].suitnum {
      assert !PokerSuitCompare(cs[j], cs[end]) && !PokerSuitCompare(cs[end], cs[i]);
    }
    assert WholeSuit(cs, from, end);
    forall r: nat | r < 10 ensures HasRow(cs, cs[from].suitnum, r) <==> InSegment(cs, from, end, r) {
      SegmentRow(cs, from, end, r);
    }
  }

  lemma StraightFlushShape(cs: seq<Card>, from: nat, end: nat, loc: seq<nat>, cmp: nat)
    requires end <= |cs| && |loc| == 5 && Increasing(loc, from, end) && cmp < 10
    requires forall k | 0 <= k < 5 :: cs[loc[k]].num == Row(cmp)[k]
    requires forall i | from <= i < end :: cs[i].suitnum == cs[from].suitnum
    ensures Shape(PokerSet(Sort(ByNum, Picked(cs, loc)), 7, 10 - cmp))
  {
    RowInOrder(Picked(cs, loc), Row(cmp));
  }

  lemma LastPlace(loc: seq<nat>, end: nat)
    requires loc != [] && Increasing(loc, 0, end)
    ensures loc[|loc| - 1] < end && Increasing(loc[..|loc| - 1], 0, end - 1)
  {
  }

  lemma RemovedBefore(cs: seq<Card>, i: nat, end: nat)
    requires i < end <= |cs|
    ensures |RemoveAt(cs, i)| == |cs| - 1 && RemoveAt(cs, i)[end - 1..] == cs[end..]
  {
  }

  /** What lies behind the places is still there. */
  lemma {:induction false} TakeOutTail(cs: seq<Card>, loc: seq<nat>, end: nat)
    requires Increasing(loc, 0, end) && |loc| <= end <= |cs| && Increasing(loc, 0, |cs|)
    ensures TakeOut(cs, loc)[end - |loc|..] == cs[end..]
    decreases |loc|
  {
    if loc != [] {
      LastPlace(loc, end);
      LastPlace(loc, |cs|);
      RemovedBefore(cs, loc[|loc| - 1], end);
      hide Increasing, RemoveAt;
      TakeOutTail(RemoveAt(cs, loc[|loc| - 1]), loc[..|loc| - 1], end - 1);
    }
  }

  method TakeRow(cs: seq<Card>, from: nat, end: nat, loc: seq<nat>, cmp: nat) returns (flush: PokerSet, rest: seq<Card>)
    requires Ordered(BySuit, cs) && end <= |cs| && |loc| == 5 && Increasing(loc, from, end) && cmp < 10
    requires forall k | 0 <= k < 5 :: cs[loc[k]].num == Row(cmp)[k]
    requires forall i | from <= i < end :: cs[i].suitnum == cs[from].suitnum
    ensures Shape(flush) && flush.classing == 7 && |rest| == |cs| - 5 && Ordered(BySuit, rest)
    ensures multiset(rest) + multiset(flush.cards) == multiset(cs)
    ensures from < end && 5 <= end && IsRowOf(flush.cards, cs[from].suitnum, cmp) && rest[end - 5..] == cs[end..]
  {
    StraightFlushShape(cs, from, end, loc, cmp);
    RowInOrder(Picked(cs, loc), Row(cmp));
    assert loc[0] < loc[1] < loc[2] < loc[3] < loc[4];
    TakeOutTail(cs, loc, end);
    TakeOutOrdered(BySuit, cs, loc);
    TakeOutCards(cs, loc);
    hide Shape, Ordered, TakeOut, Row;
    flush := PokerSet(Sort(ByNum, Picked(cs, loc)), 7, 10 - cmp);
    rest := TakeCards(cs, loc);
  }

  lemma StartOfHand(cs: seq<Card>)
    ensures SuitEnds(cs, 0) && NoRowBefore(cs, 0) && RowsTaken(cs, cs, 0, 4)
  {
  }

  /** The end of the cards of one suit. */
  method SuitEnd(cs: seq<Card>, suitS: nat) returns (coun: nat)
    requires Ordered(BySuit, cs) && suitS < |cs|
    ensures suitS < coun <= |cs| && Descends(cs, suitS, coun)
    ensures forall i | suitS <= i < coun :: cs[i].suitnum == cs[suitS].suitnum
    ensures coun < |cs| ==> cs[coun].suitnum != cs[suitS].suitnum
  {
    coun := suitS;
    while coun < |cs| && cs[coun].suitnum == cs[suitS].suitnum
      invariant suitS <= coun <= |cs|
      invariant forall i | suitS <= i < coun :: cs[i].suitnum == cs[suitS].suitnum
    {
      coun := coun + 1;
    }
  }

  /** The pass has been through the suits from `low` up, whose cards lie before place `at`; of
      them the cards of the rows taken are gone. */
  ghost predicate RowsTaken(cards: seq<Card>, cs: seq<Card>, at: nat, low: int) {
    && (forall i | 0 <= i < |cs| :: cs[i].suitnum >= low <==> i < at)
    && (forall c :: c in cs <==> c in cards && !(c.suitnum >= low && InTakenRow(cards, c)))
  }

  /** The next suit is complete, and there are no cards of a suit between. */
  lemma NextSuit(cards: seq<Card>, cs: seq<Card>, from: nat, end: nat, low: int)
    requires Ordered(BySuit, cs) && RowsTaken(cards, cs, from, low) && from < end <= |cs|
    requires forall i | from <= i < end :: cs[i].suitnum == cs[from].suitnum
    requires end < |cs| ==> cs[end].suitnum != cs[from].suitnum
    ensures cs[from].suitnum < low && forall i | 0 <= i < |cs| :: cs[i].suitnum >= cs[from].suitnum <==> i < end
    ensures forall c | c in cards && cs[from].suitnum <= c.suitnum < low :: c.suitnum == cs[from].suitnum
    ensures forall r: nat | r < 10 :: HasRow(cards, cs[from].suitnum, r) <==> InSegment(cs, from, end, r)
  {
    hide HasRow, InSegment, InTakenRow;
    var s := cs[from].suitnum;
    forall i | 0 <= i < |cs| ensures cs[i].suitnum >= s <==> i < end {
      if i >= end { assert !PokerSuitCompare(cs[i], cs[end]) && !PokerSuitCompare(cs[end], cs[from]); }
    }
    forall c | c in cards && s <= c.suitnum < low ensures c.suitnum == s {
      assert c in cs;
      var i :| 0 <= i < |cs| && cs[i] == c;
      assert from <= i < end;
    }
    forall r: nat | r < 10 ensures HasRow(cards, s, r) <==> InSegment(cs, from, end, r) {
      SegmentRow(cs, from, end, r);
      SameHolds(cards, cs, s, r);
    }
  }

  lemma SameHolds(a: seq<Card>, b: seq<Card>, s: Suit, r: nat)
    requires r < 10 && forall c: Card | c.suitnum == s :: c in a <==> c in b
    ensures HasRow(a, s, r) <==> HasRow(b, s, r)
  {
    forall n ensures Holds(a, s, n) <==> Holds(b, s, n) {
      assert Holds(a, s, n) ==> exists c :: c in a && c.suitnum == s && c.num == n;
      assert Holds(b, s, n) ==> exists c :: c in b && c.suitnum == s && c.num == n;
    }
  }

  /** A suit without a complete row keeps its cards. */
  lemma SuitKept(cards: seq<Card>, cs: seq<Card>, from: nat, end: nat, low: int)
    requires Ordered(BySuit, cs) && RowsTaken(cards, cs, from, low) && from < end <= |cs|
    requires forall i | from <= i < end :: cs[i].suitnum == cs[from].suitnum
    requires end < |cs| ==> cs[end].suitnum != cs[from].suitnum
    requires forall r: nat | r < 10 :: !InSegment(cs, from, end, r)
    ensures RowsTaken(cards, cs, end, cs[from].suitnum)
  {
    hide HasRow, InSegment, Ordered;
    NextSuit(cards, cs, from, end, low);
    forall c | c in cards && cs[from].suitnum <= c.suitnum < low ensures !InTakenRow(cards, c) {
    }
  }

  /** The row taken from a suit is that of TakesRow. */
  lemma SuitReduced(cards: seq<Card>, cs: seq<Card>, from: nat, end: nat, low: int, r: nat, five: seq<Card>,
      rest: seq<Card>)
    requires Ordered(BySuit, cs) && RowsTaken(cards, cs, from, low) && from < end <= |cs|
    requires forall i | from <= i < end :: cs[i].suitnum == cs[from].suitnum
    requires end < |cs| ==> cs[end].suitnum != cs[from].suitnum
    requires r < 10 && InSegment(cs, from, end, r)
    requires forall q: nat | q < 10 && InSegment(cs, from, end, q) :: MetBefore(r, q)
    requires Distinct(cs) && multiset(rest) + multiset(five) == multiset(cs) && IsRowOf(five, cs[from].suitnum, r)
    requires |rest| == |cs| - 5 && 5 <= end && rest[end - 5..] == cs[end..]
    ensures RowsTaken(cards, rest, end - 5, cs[from].suitnum)
  {
    hide HasRow, InSegment, Ordered, MetBefore, Row, IsRowOf;
    var s := cs[from].suitnum;
    NextSuit(cards, cs, from, end, low);
    assert TakesRow(cards, s, r);
    forall i | 0 <= i < |rest| ensures rest[i].suitnum >= s <==> i < end - 5 {
      UpperPart(cs, rest, five, end, s, i);
    }
    forall c ensures c in rest <==> c in cards && !(c.suitnum >= s && InTakenRow(cards, c)) {
      LeftBy(cs, rest, five, c);
      InRowOf(five, s, r, c);
      if c in cards && c.suitnum == s { OneRow(cards, c, r); }
    }
  }

  lemma LeftBy(cs: seq<Card>, rest: seq<Card>, five: seq<Card>, c: Card)
    requires Distinct(cs) && multiset(rest) + multiset(five) == multiset(cs)
    ensures c in rest <==> c in cs && c !in five
  {
    NoRepeats(cs);
    assert c in rest <==> multiset(rest)[c] > 0;
    assert c in five <==> multiset(five)[c] > 0;
    assert multiset(cs)[c] == multiset(rest)[c] + multiset(five)[c];
  }

  lemma InRowOf(five: seq<Card>, s: Suit, r: nat, c: Card)
    requires r < 10 && IsRowOf(five, s, r)
    ensures c in five <==> c.suitnum == s && c.num in Row(r)
  {
    hide Row;
    if c.suitnum == s && c.num in Row(r) {
      var k :| 0 <= k < 5 && Row(r)[k] == c.num;
      assert five[k] == c;
    }
  }

  lemma OneRow(cards: seq<Card>, c: Card, r: nat)
    requires r < 10 && TakesRow(cards, c.suitnum, r)
    ensures InTakenRow(cards, c) <==> c.num in Row(r)
  {
    hide HasRow, Row;
    forall q: nat | q < 10 && TakesRow(cards, c.suitnum, q) ensures q == r {
      assert MetBefore(q, r) && MetBefore(r, q);
    }
  }

  lemma WithoutTail(a: multiset<Card>, five: multiset<Card>, b: multiset<Card>, tail: multiset<Card>)
    requires (a + tail) + five == b + tail
    ensures a <= b
  {
    forall c ensures a[c] <= b[c] {
      assert ((a + tail) + five)[c] == (b + tail)[c];
    }
  }

  lemma UpperPart(cs: seq<Card>, rest: seq<Card>, five: seq<Card>, end: nat, s: Suit, i: nat)
    requires 5 <= end <= |cs| && |rest| == |cs| - 5 && rest[end - 5..] == cs[end..] && i < |rest|
    requires multiset(rest) + multiset(five) == multiset(cs)
    requires forall j | 0 <= j < |cs| :: cs[j].suitnum >= s <==> j < end
    ensures rest[i].suitnum >= s <==> i < end - 5
  {
    var p := end - 5;
    if i < p {
      assert rest == rest[..p] + rest[p..] && cs == cs[..end] + cs[end..];
      WithoutTail(multiset(rest[..p]), multiset(five), multiset(cs[..end]), multiset(cs[end..]));
      assert rest[..p][i] in multiset(rest[..p]);
      assert rest[i] in multiset(cs[..end]);
    } else {
      assert rest[i] == rest[p..][i - p] == cs[end..][i - p];
    }
  }

  lemma RowsDone(cards: seq<Card>, cs: seq<Card>, at: nat, low: int)
    requires RowsTaken(cards, cs, at, low) && (at >= |cs| || |cs| <= 4)
    ensures forall c :: c in cs <==> c in cards && !InTakenRow(cards, c)
  {
    hide HasRow, Row;
    forall c | c in cards && c.suitnum < low ensures !InTakenRow(cards, c) {
      assert c in cs;
      if |cs| <= 4 {
        forall r: nat | r < 10 ensures !HasRow(cards, c.suitnum, r) {
          SameHolds(cards, cs, c.suitnum, r);
          FourCardsNoRow(cs, c.suitnum, r);
        }
      }
    }
  }

  lemma StillDistinct(cards: seq<Card>, cs: seq<Card>, taken: multiset<Card>)
    requires Distinct(cards) && multiset(cs) + taken == multiset(cards)
    ensures Distinct(cs)
  {
    DistinctIff(cards);
    DistinctIff(cs);
    forall c ensures multiset(cs)[c] <= 1 {
      assert (multiset(cs) + taken)[c] == multiset(cards)[c];
    }
  }

  /** The first pass: at most one straight flush from each suit. */
  method TakeStraightFlushes(cards: seq<Card>) returns (tmpSuit: seq<Card>, sets: seq<PokerSet>)
    requires Ordered(BySuit, cards)
    ensures multiset(tmpSuit) + CardsOf(sets) == multiset(cards)
    ensures |tmpSuit| == |cards| - 5 * |sets|
    ensures OfClass(sets, 7)
    ensures sets == [] <==> !HasStraightFlush(cards)
    ensures Distinct(cards) ==> forall c :: c in tmpSuit <==> c in cards && !InTakenRow(cards, c)
  {
    hide Ordered, CardsOf, Shape, HasStraightFlush, SuitEnds, NoRowBefore, InSegment, Descends, HasRanks, Row, Sort,
         TakeOut, RemoveAt, RowsTaken, InTakenRow, Distinct, MetBefore, IsRowOf;
    tmpSuit, sets := cards, [];
    ghost var low: int := 4;
    assert CardsOf(sets) == multiset{} by { EmptyCards(); }
    var ele := 0;
    StartOfHand(cards);
    while ele < |tmpSuit| && |tmpSuit| > 4
      invariant 0 <= ele <= |tmpSuit| && Ordered(BySuit, tmpSuit)
      invariant multiset(tmpSuit) + CardsOf(sets) == multiset(cards) && |tmpSuit| == |cards| - 5 * |sets|
      invariant OfClass(sets, 7)
      invariant sets == [] ==> tmpSuit == cards && SuitEnds(cards, ele) && NoRowBefore(cards, ele)
      invariant sets != [] ==> HasStraightFlush(cards)
      invariant Distinct(cards) ==> RowsTaken(cards, tmpSuit, ele, low)
      decreases |tmpSuit| - ele
    {
      var suitS := ele;
      var coun := SuitEnd(tmpSuit, suitS);
      ele := coun;
      ghost var before: int := low;
      low := tmpSuit[suitS].suitnum;
      if sets == [] { SegmentDone(cards, suitS, coun); }
      if coun - 1 - suitS > 3 {
        var loc, cmp := FindStraightFlush(tmpSuit, suitS, coun);
        if loc != [] {
          var flush, rest := TakeRow(tmpSuit, suitS, coun, loc, cmp);
          if Distinct(cards) {
            StillDistinct(cards, tmpSuit, CardsOf(sets));
            SuitReduced(cards, tmpSuit, suitS, coun, before, cmp, flush.cards, rest);
          }
          SetTaken(multiset(cards), tmpSuit, rest, sets, flush);
          sets := sets + [flush];
          tmpSuit := rest;
          ele := ele - 5;
        } else if Distinct(cards) {
          SuitKept(cards, tmpSuit, suitS, coun, before);
        }
      } else {
        NarrowSegment(tmpSuit, suitS, coun);
        if Distinct(cards) { SuitKept(cards, tmpSuit, suitS, coun, before); }
      }
    }
    if Distinct(cards) { RowsDone(cards, tmpSuit, ele, low); }
    if sets == [] && HasStraightFlush(cards) {
      NoRowAtAll(cards, ele);
    }
  }

  lemma NarrowSegment(cs: seq<Card>, from: nat, end: nat)
    requires from <= end <= |cs| && end - from <= 4 && Descends(cs, from, end)
    ensures forall r: nat | r < 10 :: !InSegment(cs, from, end, r)
  {
    forall r: nat | r < 10 ensures !InSegment(cs, from, end, r) {
      var p := RoomForRow(cs, from, end, r);
    }
  }

  lemma NoRowAtAll(cs: seq<Card>, at: nat)
    requires NoRowBefore(cs, at) && (at >= |cs| || |cs| <= 4)
    ensures !HasStraightFlush(cs)
  {
    forall s: Suit, r: nat | r < 10 ensures !HasRow(cs, s, r) {
      if |cs| <= 4 {
        FourCardsNoRow(cs, s, r);
      } else if Holds(cs, s, Row(r)[0]) {
        var i :| 0 <= i < |cs| && cs[i].suitnum == s;
        assert !HasRow(cs, cs[i].suitnum, r);
      }
    }
  }
}
