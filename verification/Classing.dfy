/** ClassingPokers of pokerCore.swift: a hand is split greedily, in five passes over the
    cards not used yet. */
module Classing {
  import opened Cards
  import opened StraightFlushes
  import opened Groups
  import opened Flushes
  import opened Straights

  // ---------- which hands make the flush pass read out of range ----------

  /** The cards without another of their rank. */
  function SinglesUpTo(hand: seq<Card>, n: nat): (r: seq<Card>)
    requires n <= |hand|
    ensures forall c :: c in r <==> exists i | 0 <= i < n :: hand[i] == c && Lonely(hand, i)
    ensures Distinct(r)
  {
    if n == 0 then []
    else
      var before := SinglesUpTo(hand, n - 1);
      assert Lonely(hand, n - 1) ==> hand[n - 1] !in before;
      if Lonely(hand, n - 1) then before + [hand[n - 1]] else before
  }

  function Singles(hand: seq<Card>): seq<Card> {
    SinglesUpTo(hand, |hand|)
  }

  /** A hand of a game, of at most 13 cards, makes the flush pass read before the start of
      its list. */
  predicate TrapsClassing(hand: seq<Card>) {
    !HasStraightFlush(hand) && ReadsBeforeStart(Sort(BySuit, Singles(hand)))
  }

  /** The cards of the hand that its straight flushes leave. */
  ghost function WithoutRowsUpTo(hand: seq<Card>, n: nat): (r: seq<Card>)
    requires n <= |hand|
    ensures forall c :: c in r <==> c in hand[..n] && !InTakenRow(hand, c)
    ensures Distinct(hand) ==> Distinct(r)
  {
    if n == 0 then []
    else
      var before := WithoutRowsUpTo(hand, n - 1);
      assert hand[..n] == hand[..n - 1] + [hand[n - 1]];
      if InTakenRow(hand, hand[n - 1]) then before else before + [hand[n - 1]]
  }

  ghost function WithoutRows(hand: seq<Card>): seq<Card> {
    WithoutRowsUpTo(hand, |hand|)
  }

  /** The flushes that are taken from the hand: the five highest of a suit, among the cards
      that its straight flushes leave and that have no other of their rank then. */
  ghost function HandFlushes(hand: seq<Card>): (r: seq<PokerSet>)
    ensures OfClass(r, 4)
  {
    FlushesShaped(Sort(BySuit, Singles(WithoutRows(hand))));
    FlushesOf(Sort(BySuit, Singles(WithoutRows(hand))))
  }

  lemma SameCards(a: seq<Card>, b: seq<Card>)
    requires Distinct(a) && Distinct(b) && forall c :: c in a <==> c in b
    ensures multiset(a) == multiset(b)
  {
    NoRepeats(a);
    NoRepeats(b);
  }

  /** Alone is alone, however the cards are listed. */
  lemma LonelyMember(a: seq<Card>, b: seq<Card>, i: nat) returns (j: nat)
    requires Distinct(a) && Distinct(b) && multiset(a) == multiset(b) && i < |a|
    ensures j < |b| && b[j] == a[i] && (Lonely(a, i) ==> Lonely(b, j))
  {
    SameMembers(a, b);
    assert a[i] in b;
    j :| 0 <= j < |b| && b[j] == a[i];
    if Lonely(a, i) {
      forall k | 0 <= k < |b| && k != j ensures b[k].num != b[j].num {
        assert b[k] in a;
      }
    }
  }

  lemma SinglesOfSorted(hand: seq<Card>, sorted: seq<Card>, left: seq<Card>)
    requires Distinct(hand) && multiset(sorted) == multiset(hand) && Ordered(ByNum, sorted)
    requires NoFive(sorted) ==> AloneUpTo(sorted, |sorted|, left)
    requires Falling(left)
    ensures multiset(left) == multiset(Singles(hand))
  {
    DistinctIff(hand);
    DistinctIff(sorted);
    DistinctNoFive(sorted);
    forall c ensures c in left <==> c in Singles(hand) {
      if c in left {
        var i: nat :| i < |sorted| && sorted[i] == c && Lonely(sorted, i);
        var j := LonelyMember(sorted, hand, i);
      }
      if c in Singles(hand) {
        var i: nat :| i < |hand| && hand[i] == c && Lonely(hand, i);
        var j := LonelyMember(hand, sorted, i);
      }
    }
    SameCards(left, Singles(hand));
  }

  lemma SameRows(a: seq<Card>, b: seq<Card>)
    requires multiset(a) == multiset(b)
    ensures HasStraightFlush(a) ==> HasStraightFlush(b)
  {
    SameMembers(a, b);
    if HasStraightFlush(a) {
      var s: Suit, r: nat :| r < 10 && HasRow(a, s, r);
      forall k | 0 <= k < 5 ensures Holds(b, s, Row(r)[k]) {
        assert Holds(a, s, Row(r)[k]);
        var i :| 0 <= i < |a| && a[i].suitnum == s && a[i].num == Row(r)[k];
        assert a[i] in b;
      }
      assert HasRow(b, s, r);
    }
  }

  // ---------- the whole ----------

  lemma Together(m0: multiset<Card>, m1: multiset<Card>, m2: multiset<Card>, m3: multiset<Card>, m4: multiset<Card>,
      sf: multiset<Card>, f: multiset<Card>, t: multiset<Card>, p: multiset<Card>,
      h: multiset<Card>, t1: multiset<Card>, p1: multiset<Card>, fl: multiset<Card>, st: multiset<Card>)
    requires m1 + sf == m0 && m2 + (f + t + p) == m1 && h + (t1 + p1) == t + p && m3 + fl == m2 && m4 + st == m3
    ensures sf + f + h + fl + st + t1 + p1 + m4 == m0
  {
    var sum := sf + f + h + fl + st + t1 + p1 + m4;
    forall c ensures sum[c] == m0[c] {
      assert (h + (t1 + p1))[c] == (t + p)[c];
    }
  }

  /** Each card as a set of its own. */
  function AsSingles(cards: seq<Card>): seq<PokerSet> {
    if cards == [] then [] else AsSingles(cards[..|cards| - 1]) + [PokerSet([cards[|cards| - 1]], 0, 0)]
  }

  lemma {:induction false} AsSinglesCards(cards: seq<Card>)
    ensures CardsOf(AsSingles(cards)) == multiset(cards) && AllShaped(AsSingles(cards))
  {
    if cards != [] {
      hide Shape, CardsOf;
      var before, c := cards[..|cards| - 1], cards[|cards| - 1];
      AsSinglesCards(before);
      SingleShape(c);
      CardsOfOneMore(AsSingles(before), PokerSet([c], 0, 0));
      assert cards == before + [c];
    }
  }

  method TakeSingles(cards: seq<Card>) returns (sets: seq<PokerSet>)
    ensures sets == AsSingles(cards)
  {
    sets := [];
    var tmpNum := cards;
    while |tmpNum| > 0
      invariant |tmpNum| <= |cards| && tmpNum == cards[|cards| - |tmpNum|..]
      invariant sets == AsSingles(cards[..|cards| - |tmpNum|])
    {
      ghost var n := |cards| - |tmpNum|;
      assert cards[..n + 1][..n] == cards[..n];
      sets := sets + [PokerSet([tmpNum[0]], 0, 0)];
      tmpNum := tmpNum[1..];
    }
    assert cards[..|cards|] == cards;
  }

  lemma SingleShape(c: Card)
    ensures Shape(PokerSet([c], 0, 0))
  {
  }

  lemma EightLists(a: seq<PokerSet>, b: seq<PokerSet>, c: seq<PokerSet>, d: seq<PokerSet>,
      e: seq<PokerSet>, f: seq<PokerSet>, g: seq<PokerSet>, h: seq<PokerSet>)
    ensures CardsOf(a + b + c + d + e + f + g + h) ==
            CardsOf(a) + CardsOf(b) + CardsOf(c) + CardsOf(d) + CardsOf(e) + CardsOf(f) + CardsOf(g) + CardsOf(h)
  {
    hide CardsOf;
    CardsOfConcat(a, b);
    CardsOfConcat(a + b, c);
    CardsOfConcat(a + b + c, d);
    CardsOfConcat(a + b + c + d, e);
    CardsOfConcat(a + b + c + d + e, f);
    CardsOfConcat(a + b + c + d + e + f, g);
    CardsOfConcat(a + b + c + d + e + f + g, h);
  }

  lemma SumSize(a: multiset<Card>, b: multiset<Card>, c: seq<Card>, d: seq<Card>)
    requires multiset(c) + b == multiset(d)
    ensures |c| <= |d|
  {
    assert |multiset(c)| == |c| && |multiset(d)| == |d|;
  }

  /** The exact condition, for hands of a game. */
  lemma TrapsExactly(origins: seq<Card>, tmpSuit: seq<Card>, flushes7: seq<PokerSet>, tmpNum: seq<Card>,
      groups: multiset<Card>)
    requires multiset(tmpSuit) + CardsOf(flushes7) == multiset(origins) && |tmpSuit| == |origins| - 5 * |flushes7|
    requires flushes7 == [] <==> !HasStraightFlush(Sort(BySuit, origins))
    requires multiset(tmpNum) + groups == multiset(tmpSuit)
    requires Falling(tmpNum)
    requires NoFive(Sort(ByNum, tmpSuit)) ==> AloneUpTo(Sort(ByNum, tmpSuit), |Sort(ByNum, tmpSuit)|, tmpNum)
    ensures |origins| < 10 ==> !ReadsBeforeStart(Sort(BySuit, tmpNum))
    ensures Distinct(origins) && |origins| <= 13 ==>
              (ReadsBeforeStart(Sort(BySuit, tmpNum)) <==> TrapsClassing(origins))
  {
    hide Sort, NoFive, AloneUpTo, HasStraightFlush, Singles, Distinct;
    SumSize(multiset{}, groups, tmpNum, tmpSuit);
    SameLength(Sort(BySuit, tmpNum), tmpNum);
    SameRows(origins, Sort(BySuit, origins));
    SameRows(Sort(BySuit, origins), origins);
    if Distinct(origins) && flushes7 == [] {
      EmptyCards();
      assert multiset(tmpSuit) == multiset(origins);
      SameLength(Sort(ByNum, tmpSuit), tmpSuit);
      SinglesOfSorted(origins, Sort(ByNum, tmpSuit), tmpNum);
      SortUnique(BySuit, Sort(BySuit, tmpNum), Sort(BySuit, Singles(origins)));
    }
  }

  lemma Fewer(rest: multiset<Card>, taken: multiset<Card>, all: multiset<Card>)
    requires rest + taken == all
    ensures rest <= all
  {
  }

  /** Some of the cards of a list with distinct ranks, sorted. */
  lemma StillFalling(a: seq<Card>, b: seq<Card>)
    requires Falling(a) && multiset(b) <= multiset(a) && Ordered(ByNum, b)
    ensures Falling(b)
  {
    DistinctIff(a);
    DistinctIff(b);
    forall i, j | 0 <= i < j < |b| ensures b[i].num > b[j].num {
      assert b[i] in multiset(b) && b[j] in multiset(b);
      assert b[i] in a && b[j] in a;
      assert !PokerNumCompare(b[j], b[i]) && b[i] != b[j];
    }
  }

  lemma StillNoFlush(a: multiset<Card>, b: multiset<Card>)
    requires NoFlush(a) && b <= a
    ensures NoFlush(b)
  {
  }

  /** What the greedy passes leave: a straight flush if there is one; not both threes and
      pairs; and single cards without a pair, a flush or, unless a straight was taken, a
      straight other than 2 A 5 4 3. */
  ghost predicate Greedy(hand: seq<Card>, grouped: seq<PokerSet>, single: seq<Card>) {
    && (forall s | s in grouped :: s.classing > 0)
    && ((exists s | s in grouped :: s.classing == 7) <==> HasStraightFlush(hand))
    && (forall s, t | s in grouped && t in grouped :: s.classing != 2 || t.classing != 1)
    && Falling(single) && NoFlush(multiset(single))
    && ((forall s | s in grouped :: s.classing != 3) ==> forall r: nat | r < 9 :: !HasStraight(single, r))
    && (Distinct(hand) ==> forall s :: s in HandFlushes(hand) <==> s in grouped && s.classing == 4)
  }

  lemma GreedyLists(hand: seq<Card>, straightFlushes: seq<PokerSet>, fours: seq<PokerSet>, hulu: seq<PokerSet>,
      flushes: seq<PokerSet>, straights: seq<PokerSet>, suntiao: seq<PokerSet>, yidui: seq<PokerSet>,
      single: seq<Card>)
    requires OfClass(straightFlushes, 7) && OfClass(fours, 6) && OfClass(hulu, 5) && OfClass(flushes, 4)
    requires OfClass(straights, 3) && OfClass(suntiao, 2) && OfClass(yidui, 1)
    requires straightFlushes == [] <==> !HasStraightFlush(hand)
    requires suntiao == [] || yidui == []
    requires Falling(single) && NoFlush(multiset(single))
    requires straights == [] ==> forall r: nat | r < 9 :: !HasStraight(single, r)
    requires Distinct(hand) ==> flushes == HandFlushes(hand)
    ensures var grouped := straightFlushes + fours + hulu + flushes + straights + suntiao + yidui;
            AllShaped(grouped) && Greedy(hand, grouped, single)
  {
    hide Shape, HasStraightFlush, Falling, NoFlush, HasStraight, HandFlushes, Distinct;
    var grouped := straightFlushes + fours + hulu + flushes + straights + suntiao + yidui;
    if straightFlushes != [] { assert straightFlushes[0] in grouped; }
    if straights != [] { assert straights[0] in grouped; }
  }

  /** The list that enters the flush pass, told from the hand. */
  lemma FlushesTaken(hand: seq<Card>, tmpSuit: seq<Card>, tmpNum: seq<Card>, taken: multiset<Card>)
    requires Distinct(hand) && multiset(tmpSuit) + taken == multiset(hand)
    requires var sorted := Sort(BySuit, hand);
             Distinct(sorted) ==> forall c :: c in tmpSuit <==> c in sorted && !InTakenRow(sorted, c)
    requires Falling(tmpNum) && (NoFive(Sort(ByNum, tmpSuit)) ==>
               AloneUpTo(Sort(ByNum, tmpSuit), |Sort(ByNum, tmpSuit)|, tmpNum))
    ensures FlushesOf(Sort(BySuit, tmpNum)) == HandFlushes(hand)
  {
    hide Sort, NoFive, AloneUpTo, HasRow, Singles, Distinct, FlushesOf, Falling, InTakenRow, WithoutRowsUpTo;
    StillDistinct(hand, Sort(BySuit, hand), multiset{});
    StillDistinct(hand, tmpSuit, taken);
    SameLength(Sort(ByNum, tmpSuit), tmpSuit);
    assert hand[..|hand|] == hand;
    SameTaken(Sort(BySuit, hand), hand);
    SameMembers(hand, Sort(BySuit, hand));
    SameCards(tmpSuit, WithoutRows(hand));
    SinglesOfSorted(WithoutRows(hand), Sort(ByNum, tmpSuit), tmpNum);
    SortUnique(BySuit, Sort(BySuit, tmpNum), Sort(BySuit, Singles(WithoutRows(hand))));
  }

  lemma SameTaken(a: seq<Card>, b: seq<Card>)
    requires multiset(a) == multiset(b)
    ensures forall c :: InTakenRow(a, c) <==> InTakenRow(b, c)
  {
    hide HasRow, Row, MetBefore;
    SameMembers(a, b);
    forall s: Suit, r: nat | r < 10 ensures TakesRow(a, s, r) <==> TakesRow(b, s, r) {
      forall q: nat | q < 10 ensures HasRow(a, s, q) <==> HasRow(b, s, q) {
        SameHolds(a, b, s, q);
      }
    }
  }

  method ClassingPokers(origins: seq<Card>)
    returns (trapped: bool, sets: seq<PokerSet>, ghost grouped: seq<PokerSet>, ghost single: seq<Card>)
    ensures !trapped ==> CardsOf(sets) == multiset(origins) && AllShaped(sets)
    ensures !trapped ==> sets == grouped + AsSingles(single) && Greedy(origins, grouped, single)
    ensures |origins| < 10 ==> !trapped
    ensures Distinct(origins) && |origins| <= 13 ==> (trapped <==> TrapsClassing(origins))
  {
    hide CardsOf, Shape, Sort, NoFive, AloneUpTo, HasStraightFlush, TrapsClassing, Distinct, RanksApart,
         ReadsBeforeStart, Ordered, Falling, NoFlush, HasStraight, Greedy, AsSingles, HandFlushes, FlushesOf,
             InTakenRow;
    sets, grouped, single := [], [], [];
    var tmpSuit, straightFlushes := TakeStraightFlushes(Sort(BySuit, origins));
    var tmpNum, fours, threes, pairs := TakeGroups(Sort(ByNum, tmpSuit));
    SameLength(Sort(ByNum, tmpSuit), tmpSuit);
    SameLength(Sort(BySuit, origins), origins);
    if Distinct(origins) { FlushesTaken(origins, tmpSuit, tmpNum, CardsOf(straightFlushes)); }
    TrapsExactly(origins, tmpSuit, straightFlushes, tmpNum, Taken(fours, threes, pairs));
    var hulu, suntiao, yidui := MakeFullHouses(threes, pairs);
    var left: seq<Card>, flushes: seq<PokerSet>, straights: seq<PokerSet>;
    trapped, left, flushes := TakeFlushes(Sort(BySuit, tmpNum));
    if trapped { return; }
    ghost var notFlushed := left;
    Fewer(multiset(left), CardsOf(flushes), multiset(tmpNum));
    StillFalling(tmpNum, Sort(ByNum, left));
    left, straights := TakeStraights(Sort(ByNum, left));
    Fewer(multiset(left), CardsOf(straights), multiset(notFlushed));
    StillNoFlush(multiset(notFlushed), multiset(left));
    var singles := TakeSingles(left);
    AsSinglesCards(left);
    SameRows(origins, Sort(BySuit, origins));
    SameRows(Sort(BySuit, origins), origins);
    GreedyLists(origins, straightFlushes, fours, hulu, flushes, straights, suntiao, yidui, left);
    grouped, single := straightFlushes + fours + hulu + flushes + straights + suntiao + yidui, left;
    sets := straightFlushes + fours + hulu + flushes + straights + suntiao + yidui + singles;
    EightLists(straightFlushes, fours, hulu, flushes, straights, suntiao, yidui, singles);
    Together(multiset(origins), multiset(tmpSuit), multiset(tmpNum), multiset(notFlushed), multiset(left),
             CardsOf(straightFlushes), CardsOf(fours), CardsOf(threes), CardsOf(pairs),
             CardsOf(hulu), CardsOf(suntiao), CardsOf(yidui), CardsOf(flushes), CardsOf(straights));
  }

  /** The spades 2, K, J, 9 and 7, the hearts A, Q, 10, 8 and 6, and the 5 and 4 of diamonds
      and 3 of clubs: a hand that a deal can give and that the flush pass does not survive. */
  function UnluckyCard(i: nat): Card
    requires i < 13
  {
    if i < 5 then Card(3, 12 - 2 * i)
    else if i < 10 then Card(2, 21 - 2 * i)
    else Card(if i < 12 then 1 else 0, 12 - i)
  }

  function UnluckyHand(): (hand: seq<Card>)
    ensures |hand| == 13 && forall i | 0 <= i < 13 :: hand[i] == UnluckyCard(i)
  {
    seq(13, i requires 0 <= i < 13 => UnluckyCard(i))
  }

  lemma RowEnds(r: nat)
    requires r < 10
    ensures Row(r)[2] == Row(r)[4] + 2 && Row(r)[3] == Row(r)[4] + 1
  {
  }

  lemma UnluckyHandNoRow(s: Suit, r: nat)
    requires r < 10
    ensures !HasRow(UnluckyHand(), s, r)
  {
    hide Row, UnluckyHand;
    RowEnds(r);
    var hand := UnluckyHand();
    if Holds(hand, s, Row(r)[2]) && Holds(hand, s, Row(r)[3]) && Holds(hand, s, Row(r)[4]) {
      var i :| 0 <= i < 13 && hand[i].suitnum == s && hand[i].num == Row(r)[4];
      assert false;
    }
  }

  lemma UnluckyHandSingles()
    ensures Singles(UnluckyHand()) == UnluckyHand()
  {
    var hand := UnluckyHand();
    hide UnluckyHand;
    assert forall i | 0 <= i < 13 :: Lonely(hand, i);
    AllSingle(hand, |hand|);
    assert hand[..|hand|] == hand;
  }

  lemma UnluckyHandSorted()
    ensures Sort(BySuit, UnluckyHand()) == UnluckyHand() && ReadsBeforeStart(UnluckyHand())
  {
    hide Sort, UnluckyHand;
    assert Ordered(BySuit, UnluckyHand());
    SortUnique(BySuit, UnluckyHand(), Sort(BySuit, UnluckyHand()));
  }

  lemma UnluckyHandTraps()
    ensures Distinct(UnluckyHand()) && |UnluckyHand()| == 13 && TrapsClassing(UnluckyHand())
  {
    hide UnluckyHand, Sort, Singles;
    assert Distinct(UnluckyHand());
    UnluckyHandSingles();
    UnluckyHandSorted();
    forall s: Suit, r: nat | r < 10 ensures !HasRow(UnluckyHand(), s, r) {
      UnluckyHandNoRow(s, r);
    }
  }

  lemma {:induction false} AllSingle(hand: seq<Card>, n: nat)
    requires n <= |hand| && forall i | 0 <= i < n :: Lonely(hand, i)
    ensures SinglesUpTo(hand, n) == hand[..n]
  {
    if n > 0 { AllSingle(hand, n - 1); }
  }
}
