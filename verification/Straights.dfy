/** The straight pass of ClassingPokers in pokerCore.swift. */
module Straights {
  import opened Cards
  import opened StraightFlushes

  lemma StraightShape(cs: seq<Card>, loc: seq<nat>, cmp: nat)
    requires |loc| == 5 && Increasing(loc, 0, |cs|) && cmp < 10
    requires forall k | 0 <= k < 5 :: cs[loc[k]].num == Row(cmp)[k]
    ensures Shape(PokerSet(Sort(ByNum, Picked(cs, loc)), 3, 10 - cmp))
  {
    RowInOrder(Picked(cs, loc), Row(cmp));
  }

  method TakeStraight(cs: seq<Card>, loc: seq<nat>, cmp: nat) returns (s: PokerSet, rest: seq<Card>)
    requires |loc| == 5 && Increasing(loc, 0, |cs|) && cmp < 10
    requires forall k | 0 <= k < 5 :: cs[loc[k]].num == Row(cmp)[k]
    ensures Shape(s) && s.classing == 3 && |rest| == |cs| - 5
    ensures multiset(rest) + multiset(s.cards) == multiset(cs) && (Falling(cs) ==> Falling(rest))
  {
    StraightShape(cs, loc, cmp);
    TakeOutCards(cs, loc);
    if Falling(cs) { FallingOut(cs, loc); }
    hide Shape, TakeOut, Row;
    s := PokerSet(Sort(ByNum, Picked(cs, loc)), 3, 10 - cmp);
    rest := TakeCards(cs, loc);
  }

  /** The list has a card of each rank of the row. */
  predicate HasStraight(cs: seq<Card>, r: nat)
    requires r < 10
  {
    InSegment(cs, 0, |cs|, r)
  }

  lemma RowHead(r: nat)
    requires r < 10
    ensures Row(r)[0] == if r == 9 then 12 else 12 - r
  {
  }

  /** A card of which no row but the last can start is passed over. */
  predicate Tried(cs: seq<Card>, at: nat) {
    forall i, r: nat | 0 <= i < at && i < |cs| && r < 9 :: cs[i].num == Row(r)[0] ==> !HasStraight(cs, r)
  }

  lemma NoRowHere(cs: seq<Card>, at: nat)
    requires Tried(cs, at) && at < |cs| && cs[at].num <= 3
    ensures Tried(cs, at + 1)
  {
    forall r: nat | r < 9 ensures cs[at].num != Row(r)[0] {
      RowHead(r);
    }
  }

  lemma RowIncomplete(cs: seq<Card>, at: nat, cmp: nat, k: nat)
    requires Falling(cs) && Tried(cs, at) && at < |cs| && cmp < 9 && 0 < k < 5
    requires cs[at].num == Row(cmp)[0] && Missing(cs, at, |cs|, Row(cmp)[k])
    ensures Tried(cs, at + 1)
  {
    MissingFromStart(cs, 0, at, |cs|, cmp, k);
    forall r: nat | r < 9 && cs[at].num == Row(r)[0] ensures r == cmp {
      RowHead(r);
      RowHead(cmp);
    }
  }

  lemma AllTried(cs: seq<Card>, at: nat)
    requires Falling(cs) && Tried(cs, at) && (at >= |cs| || |cs| <= 4)
    ensures forall r: nat | r < 9 :: !HasStraight(cs, r)
  {
    forall r: nat | r < 9 ensures !HasStraight(cs, r) {
      var p := RoomForRow(cs, 0, |cs|, r);
    }
  }

  lemma FallingOut(cs: seq<Card>, loc: seq<nat>)
    requires Falling(cs) && Increasing(loc, 0, |cs|)
    ensures Falling(TakeOut(cs, loc))
    decreases |loc|
  {
    if loc != [] {
      var i := loc[|loc| - 1];
      var r := RemoveAt(cs, i);
      forall a, b | 0 <= a < b < |r| ensures r[a].num > r[b].num {
        assert r[a] == cs[if a < i then a else a + 1] && r[b] == cs[if b < i then b else b + 1];
      }
      FallingOut(r, loc[..|loc| - 1]);
    }
  }

  /** The straight pass. The row is not set back after a straight, and a card that starts a
      row without completing it is passed over; so a straight is found exactly if the list
      has one other than the last row, which is never tried. */
  method TakeStraights(cards: seq<Card>) returns (tmpNum: seq<Card>, sets: seq<PokerSet>)
    requires Falling(cards)
    ensures multiset(tmpNum) + CardsOf(sets) == multiset(cards) && Falling(tmpNum)
    ensures OfClass(sets, 3)
    ensures sets == [] ==> tmpNum == cards
    ensures sets == [] <==> forall r: nat | r < 9 :: !HasStraight(cards, r)
  {
    hide Shape, CardsOf, Row, Tried, HasStraight, Falling, InSegment, TakeOut, Missing, Descends, OfClass;
    tmpNum, sets := cards, [];
    EmptyCards();
    NoSets(3);
    NothingTried(cards);
    var ele, cmp := 0, 0;
    while ele < |tmpNum| && |tmpNum| > 4
      invariant 0 <= ele && 0 <= cmp < 10 && Falling(tmpNum)
      invariant multiset(tmpNum) + CardsOf(sets) == multiset(cards)
      invariant OfClass(sets, 3)
      invariant sets == [] ==> tmpNum == cards && Tried(cards, ele) && (ele < |cards| ==> cards[ele].num + cmp <= 12)
      invariant sets != [] ==> exists r: nat | r < 9 :: HasStraight(cards, r)
      decreases |tmpNum| - ele, 10 - cmp
    {
      RowHead(cmp);
      if tmpNum[ele].num == Row(cmp)[0] {
        FallingDescends(tmpNum, ele);
        var loc := MatchRow(tmpNum, ele, |tmpNum|, Row(cmp));
        if |loc| == 5 {
          if sets == [] { Found(cards, loc, ele, cmp); }
          var s, rest := TakeStraight(tmpNum, loc, cmp);
          SetTaken(multiset(cards), tmpNum, rest, sets, s);
          OneMoreOfClass(sets, s);
          sets := sets + [s];
          tmpNum := rest;
        } else if sets == [] {
          RowIncomplete(cards, ele, cmp, |loc|);
        }
      } else {
        cmp := cmp + 1;
        if cmp >= 10 {
          if sets == [] { NoRowHere(cards, ele); }
          FallingDescends(tmpNum, ele);
          cmp := 0;
          ele := ele + 1;
        }
        continue;
      }
      ele := ele + 1;
    }
    if sets == [] { AllTried(cards, ele); }
  }

  lemma NothingTried(cs: seq<Card>)
    ensures Tried(cs, 0)
  {
  }

  lemma FallingDescends(cs: seq<Card>, at: nat)
    requires Falling(cs) && at < |cs|
    ensures Descends(cs, at, |cs|) && (at + 1 < |cs| ==> cs[at].num > cs[at + 1].num)
  {
  }

  lemma Found(cs: seq<Card>, loc: seq<nat>, at: nat, cmp: nat)
    requires |loc| == 5 && at < |cs| && Increasing(loc, at, |cs|) && cmp < 10 && cs[at].num + cmp <= 12
    requires loc[0] == at && forall k | 0 <= k < 5 :: cs[loc[k]].num == Row(cmp)[k]
    ensures cmp < 9 && HasStraight(cs, cmp)
  {
    RowHead(cmp);
    FoundInSegment(cs, 0, |cs|, loc, cmp);
  }

  /** 2 A 5 4 3 of mixed suits: the only row it completes is the last, which is not tried. */
  function LowestTwo(): seq<Card> {
    [Card(3, 12), Card(2, 11), Card(1, 2), Card(0, 1), Card(3, 0)]
  }

  lemma LowestTwoMissed()
    ensures Falling(LowestTwo()) && HasStraight(LowestTwo(), 9)
    ensures forall r: nat | r < 9 :: !HasStraight(LowestTwo(), r)
  {
    var hand := LowestTwo();
    forall k | 0 <= k < 5 ensures !Missing(hand, 0, 5, Row(9)[k]) {
      assert hand[k].num == Row(9)[k];
    }
    forall r: nat | r < 9 ensures !HasStraight(hand, r) {
      if r == 0 {
        assert Missing(hand, 0, 5, Row(0)[1]);
      } else {
        RowMiddle(r);
        assert Missing(hand, 0, 5, Row(r)[1]);
      }
    }
  }

  lemma RowMiddle(r: nat)
    requires 1 <= r < 9
    ensures Row(r)[0] == 12 - r && Row(r)[1] == 11 - r && Row(r)[2] == 10 - r && Row(r)[3] == 9 - r
            && Row(r)[4] == 8 - r
  {
  }
}
