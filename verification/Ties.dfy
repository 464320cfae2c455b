/** When ComputerPoker of pokerCore.swift fails on flushes of the same ranks. */
module Ties {
  import opened Cards
  import opened StraightFlushes
  import opened Straights
  import opened Flushes
  import opened Classing
  import opened ComputerPlay

  /** A tie among the hand's sets is met, unless a flush of the hand beats the desk. */
  lemma TieIsMet(tmp: seq<PokerSet>, desk: PokerSet, s: PokerSet)
    requires AllShaped(tmp) && Ascends(tmp) && OnDesk(desk) && s in tmp && Judge(s, desk).OutOfRange?
    requires forall x | x in tmp && x.classing == 4 :: !Beats(x, desk)
    ensures TieFirst(tmp, desk)
  {
    var k: nat :| k < |tmp| && tmp[k] == s;
    FirstTie(tmp, desk, k);
  }

  lemma OnlyFlushesTie(s: PokerSet, desk: PokerSet)
    requires Shape(s) && OnDesk(desk)
    ensures Judge(s, desk).OutOfRange? ==> s.classing == desk.classing == 4
    ensures s.classing < 4 && desk.classing == 4 ==> Judge(s, desk).Loses?
  {
    hide Shape;
  }

  /** Up to a tie there are only flushes and lower sets, and none of them beats the desk. */
  lemma {:induction false} FirstTie(tmp: seq<PokerSet>, desk: PokerSet, k: nat)
    requires AllShaped(tmp) && Ascends(tmp) && OnDesk(desk) && k < |tmp| && Judge(tmp[k], desk).OutOfRange?
    requires forall x | x in tmp && x.classing == 4 :: !Beats(x, desk)
    ensures TieFirst(tmp, desk)
  {
    hide Judge, Shape;
    OnlyFlushesTie(tmp[k], desk);
    if exists j | 0 <= j < k :: Judge(tmp[j], desk).OutOfRange? {
      var j :| 0 <= j < k && Judge(tmp[j], desk).OutOfRange?;
      FirstTie(tmp, desk, j);
    } else {
      forall j | 0 <= j < k ensures Judge(tmp[j], desk).Loses? {
        assert !SetLess(tmp[k], tmp[j]) && tmp[j] in tmp;
        OnlyFlushesTie(tmp[j], desk);
      }
    }
  }

  // ---------- the tie, told from the hand ----------

  /** A flush taken from the hand has the ranks of the flush on the desk. */
  ghost predicate HandTies(hand: seq<Card>, desk: PokerSet)
    requires OnDesk(desk)
  {
    exists f | f in HandFlushes(hand) :: Judge(f, desk).OutOfRange?
  }

  /** A flush taken from the hand beats the desk. */
  ghost predicate FlushBeats(hand: seq<Card>, desk: PokerSet)
    requires OnDesk(desk)
  {
    exists f | f in HandFlushes(hand) :: Beats(f, desk)
  }

  lemma {:induction false} SinglesAre(single: seq<Card>, s: PokerSet)
    requires s in AsSingles(single)
    ensures s.classing == 0
  {
    if s in AsSingles(single[..|single| - 1]) { SinglesAre(single[..|single| - 1], s); }
  }

  /** The flushes among the sets of a hand. */
  lemma FlushesAmong(hand: seq<Card>, tmp: seq<PokerSet>)
    requires Distinct(hand) && GreedySplit(hand, tmp)
    ensures forall s :: s in HandFlushes(hand) <==> s in tmp && s.classing == 4
  {
    hide Shape, CardsOf, Distinct, HasStraightFlush, NoFlush, Falling, HasStraight, AsSingles, HandFlushes;
    var grouped, single :| multiset(tmp) == multiset(grouped + AsSingles(single)) && Greedy(hand, grouped, single);
    forall s ensures s in tmp && s.classing == 4 <==> s in grouped && s.classing == 4 {
      assert s in tmp <==> s in multiset(tmp);
      assert s in multiset(tmp) <==> s in grouped + AsSingles(single);
      if s in AsSingles(single) { SinglesAre(single, s); }
    }
  }

  /** Whether a hand of a game meets a tie can be told from the hand and the desk, if no
      flush of the hand beats the desk; and a tie that is met is always one of these. */
  lemma HandTiesIff(hand: seq<Card>, desk: PokerSet, tmp: seq<PokerSet>)
    requires Distinct(hand) && GreedySplit(hand, tmp) && Ascends(tmp) && OnDesk(desk)
    ensures TieFirst(tmp, desk) ==> HandTies(hand, desk)
    ensures !FlushBeats(hand, desk) ==> (TieFirst(tmp, desk) <==> HandTies(hand, desk))
  {
    hide Shape, CardsOf, Distinct, Greedy, Judge, HandFlushes;
    FlushesAmong(hand, tmp);
    hide GreedySplit;
    if TieFirst(tmp, desk) {
      var k :| 0 <= k < |tmp| && Judge(tmp[k], desk).OutOfRange?;
      OnlyFlushesTie(tmp[k], desk);
      assert tmp[k] in HandFlushes(hand);
    }
    if HandTies(hand, desk) && !FlushBeats(hand, desk) {
      var f :| f in HandFlushes(hand) && Judge(f, desk).OutOfRange?;
      TieIsMet(tmp, desk, f);
    }
  }

  // ---------- up to five cards, as a player picks them ----------

  /** The five cards are a flush, not a straight flush, with the ranks of the flush on the
      desk. */
  predicate TiesDesk(cards: seq<Card>, desk: PokerSet)
    requires OnDesk(desk)
  {
    && |cards| == 5 && SameSuit(cards) && !HasStraightFlush(cards) && desk.classing == 4
    && |Sort(Ascending, cards)| == |Rising(desk)| == 5
    && FirstDifference(Sort(Ascending, cards), Rising(desk), 0) == 5
  }

  /** A set that uses as many cards as there are uses them all. */
  lemma AllUsed(cards: seq<Card>, some: seq<Card>)
    requires multiset(some) <= multiset(cards) && |some| >= |cards|
    ensures multiset(some) == multiset(cards) && |some| == |cards|
  {
    var rest := multiset(cards) - multiset(some);
    assert multiset(cards) == multiset(some) + rest;
    assert |multiset(cards)| == |cards| && |multiset(some)| == |some|;
    assert |rest| == 0;
  }

  lemma SortSame(a: seq<Card>, b: seq<Card>)
    requires multiset(a) == multiset(b)
    ensures Sort(Ascending, a) == Sort(Ascending, b)
  {
    SortUnique(Ascending, Sort(Ascending, a), Sort(Ascending, b));
  }

  lemma SuitOfAll(a: seq<Card>, b: seq<Card>)
    requires multiset(a) <= multiset(b) && SameSuit(b)
    ensures SameSuit(a) && forall c | c in a :: c in b
  {
    forall c | c in a ensures c in b {
      assert c in multiset(a) && c in multiset(b);
    }
    forall i | 0 <= i < |a| ensures a[i].suitnum == b[0].suitnum {
      assert a[i] in b;
    }
  }

  /** A flush made of all five cards is judged as the cards are. */
  lemma JudgedAsCards(cards: seq<Card>, desk: PokerSet, s: PokerSet)
    requires Shape(s) && OnDesk(desk) && s.classing == 4 == desk.classing && multiset(s.cards) == multiset(cards)
    ensures |cards| == 5 && |desk.cards| == 5 && |Sort(Ascending, cards)| == 5
    ensures Judge(s, desk).OutOfRange? <==> FirstDifference(Sort(Ascending, cards), Rising(desk), 0) == 5
  {
    SameLength(s.cards, cards);
    SameLength(Sort(Ascending, cards), cards);
    SortSame(s.cards, cards);
    ShapeSize(s);
    ShapeSize(desk);
    hide Shape, Sort;
  }

  /** A set out of different cards of one suit is a flush or a single, or the cards hold a
      straight flush. */
  lemma OneSuitSets(cards: seq<Card>, s: PokerSet)
    requires Distinct(cards) && SameSuit(cards) && Shape(s) && multiset(s.cards) <= multiset(cards)
    requires !HasStraightFlush(cards) && s.classing != 7
    ensures s.classing == 4 || s.classing == 0
  {
    SuitOfAll(s.cards, cards);
    DistinctIff(cards);
    DistinctIff(s.cards);
    ShapeSize(s);
    if s.classing == 3 {
      RowInSuit(cards, s);
    } else if s.classing != 4 && s.classing != 0 {
      PairWithin(s);
    }
  }

  lemma RowInSuit(cards: seq<Card>, s: PokerSet)
    requires Shape(s) && s.classing == 3 && SameSuit(s.cards) && forall c | c in s.cards :: c in cards
    ensures HasStraightFlush(cards)
  {
    var r: nat := 10 - s.level;
    forall k | 0 <= k < 5 ensures Holds(cards, s.cards[0].suitnum, Row(r)[k]) {
      assert s.cards[k] in cards;
    }
    assert HasRow(cards, s.cards[0].suitnum, r);
  }

  lemma PairWithin(s: PokerSet)
    requires Shape(s) && SameSuit(s.cards) && s.classing in {1, 2, 5, 6}
    ensures !Distinct(s.cards)
  {
    var c := s.cards;
    if s.classing == 5 { HighRankTwice(s); }
    assert c[0].num == c[1].num && c[0].suitnum == c[1].suitnum;
    assert c[0] == c[1];
  }

  /** Five different cards of one suit without a straight flush become a flush. */
  lemma FlushIsTaken(cards: seq<Card>, tmp: seq<PokerSet>)
    requires Distinct(cards) && |cards| == 5 && SameSuit(cards) && !HasStraightFlush(cards) && GreedySplit(cards, tmp)
    ensures exists k | 0 <= k < |tmp| :: tmp[k].classing == 4
    ensures forall s | s in tmp :: s.classing == 4 || s.classing == 0
  {
    hide Shape, CardsOf, Distinct, HasStraightFlush, NoFlush, Falling, HasStraight, SameSuit, AsSingles;
    var grouped, single :| multiset(tmp) == multiset(grouped + AsSingles(single)) && Greedy(cards, grouped, single);
    forall s | s in tmp ensures s.classing == 4 || s.classing == 0 {
      SetWithin(tmp, s);
      assert s in multiset(tmp) && s in grouped + AsSingles(single);
      NotSeven(grouped, single, s);
      OneSuitSets(cards, s);
    }
    if grouped == [] {
      assert grouped + AsSingles(single) == AsSingles(single);
      CardsOfPermuted(tmp, AsSingles(single));
      AsSinglesCards(single);
      FlushOf(cards);
    } else {
      assert grouped[0] in grouped + AsSingles(single);
      assert grouped[0] in multiset(grouped + AsSingles(single));
      assert grouped[0] in tmp && grouped[0].classing == 4;
      var k :| 0 <= k < |tmp| && tmp[k] == grouped[0];
    }
  }

  lemma FlushOf(cards: seq<Card>)
    requires |cards| == 5 && SameSuit(cards)
    ensures !NoFlush(multiset(cards))
  {
  }

  lemma NotSeven(grouped: seq<PokerSet>, single: seq<Card>, s: PokerSet)
    requires s in grouped + AsSingles(single) && !exists x | x in grouped :: x.classing == 7
    ensures s.classing != 7
  {
    hide AsSingles;
    if s !in grouped { SinglesAre(single, s); }
  }

  /** Whether up to five picked cards make the test read out of range can be told before:
      exactly if they are a flush of the ranks on the desk. */
  lemma FewCardsTie(cards: seq<Card>, desk: PokerSet, tmp: seq<PokerSet>)
    requires Distinct(cards) && |cards| <= 5 && GreedySplit(cards, tmp) && Ascends(tmp) && OnDesk(desk)
    ensures TieFirst(tmp, desk) <==> TiesDesk(cards, desk)
  {
    hide Shape, CardsOf, Distinct, HasStraightFlush, Greedy, Judge, SameSuit, Sort, Rising, AsSingles;
    if TieFirst(tmp, desk) {
      var k :| 0 <= k < |tmp| && Judge(tmp[k], desk).OutOfRange?;
      FlushUsesAll(cards, desk, tmp, k);
    }
    if TiesDesk(cards, desk) {
      FlushIsTaken(cards, tmp);
      var k: nat :| k < |tmp| && tmp[k].classing == 4;
      forall x | x in tmp && x.classing == 4 ensures Judge(x, desk).OutOfRange? {
        AllOfFlush(cards, tmp, x);
        JudgedAsCards(cards, desk, x);
      }
      FirstTie(tmp, desk, k);
    }
  }

  lemma AllOfFlush(cards: seq<Card>, tmp: seq<PokerSet>, s: PokerSet)
    requires GreedySplit(cards, tmp) && |cards| <= 5 && s in tmp && s.classing == 4
    ensures multiset(s.cards) == multiset(cards) && |cards| == 5
  {
    hide Shape, CardsOf, Greedy;
    SetWithin(tmp, s);
    ShapeSize(s);
    AllUsed(cards, s.cards);
  }

  lemma FlushUsesAll(cards: seq<Card>, desk: PokerSet, tmp: seq<PokerSet>, k: nat)
    requires Distinct(cards) && |cards| <= 5 && GreedySplit(cards, tmp) && OnDesk(desk)
    requires k < |tmp| && Judge(tmp[k], desk).OutOfRange?
    ensures TiesDesk(cards, desk)
  {
    hide Shape, CardsOf, Distinct, HasStraightFlush, Judge, Sort, Rising, AsSingles, NoFlush, Falling, HasStraight,
         SameSuit;
    var s := tmp[k];
    OnlyFlushesTie(s, desk);
    AllOfFlush(cards, tmp, s);
    JudgedAsCards(cards, desk, s);
    FlushSuit(s);
    SuitOfAll(cards, s.cards);
    ShapeSize(desk);
    if HasStraightFlush(cards) {
      var grouped, single :| multiset(tmp) == multiset(grouped + AsSingles(single)) && Greedy(cards, grouped, single);
      var x :| x in grouped && x.classing == 7;
      assert x in grouped + AsSingles(single);
      assert x in multiset(grouped + AsSingles(single));
      TwoFives(cards, tmp, s, x);
    }
  }

  lemma FlushSuit(s: PokerSet)
    requires Shape(s) && s.classing == 4
    ensures SameSuit(s.cards)
  {
  }

  /** Two different sets of five cards take ten cards. */
  lemma TwoFives(cards: seq<Card>, tmp: seq<PokerSet>, s: PokerSet, x: PokerSet)
    requires CardsOf(tmp) == multiset(cards) && AllShaped(tmp)
    requires s in tmp && x in tmp && s != x && s.classing == 4 && x.classing == 7
    ensures |cards| >= 10
  {
    hide Shape, CardsOf;
    ShapeSize(s);
    ShapeSize(x);
    var i: nat :| i < |tmp| && tmp[i] == s;
    var rest := tmp[..i] + tmp[i + 1..];
    CardsWithoutSet(tmp, i);
    assert x in rest by {
      var j: nat :| j < |tmp| && tmp[j] == x;
      if j < i { assert tmp[..i][j] == x; } else { assert tmp[i + 1..][j - i - 1] == x; }
    }
    SetWithin(rest, x);
    var more := CardsOf(rest) - multiset(x.cards);
    assert CardsOf(rest) == multiset(x.cards) + more;
    assert |multiset(cards)| == |cards| && |multiset(s.cards)| == 5 && |multiset(x.cards)| == 5;
  }

  // ---------- two flushes that end the game ----------

  function Flush(suit: Suit): (cs: seq<Card>)
    ensures |cs| == 5 && forall i | 0 <= i < 5 :: cs[i].suitnum == suit
  {
    [Card(suit, 12), Card(suit, 10), Card(suit, 8), Card(suit, 6), Card(suit, 4)]
  }

  /** 2 K J 9 7 of spades lie on the desk, and a player follows with the same ranks of hearts. */
  lemma TiedFlushes()
    ensures var desk := PokerSet(Flush(3), 4, 0);
            && Shape(desk) && Shape(PokerSet(Flush(2), 4, 0)) && Distinct(Flush(2))
            && Judge(PokerSet(Flush(2), 4, 0), desk).OutOfRange? && TiesDesk(Flush(2), desk)
  {
    hide Sort, Rising, Shape, Flush, HasStraightFlush, Distinct, Judge;
    FlushShape(2);
    FlushShape(3);
    SameFlushRanks();
    BeatsDecides(PokerSet(Flush(2), 4, 0), PokerSet(Flush(3), 4, 0));
    JudgedAsCards(Flush(2), PokerSet(Flush(3), 4, 0), PokerSet(Flush(2), 4, 0));
    ShapeSize(PokerSet(Flush(3), 4, 0));
    NoRowInFlush();
  }

  lemma FlushShape(suit: Suit)
    ensures Shape(PokerSet(Flush(suit), 4, 0)) && Distinct(Flush(suit)) && SameSuit(Flush(suit))
  {
  }

  lemma SameFlushRanks()
    ensures forall i | 0 <= i < 5 :: Flush(2)[i].num == Flush(3)[i].num
    ensures Disjoint(PokerSet(Flush(2), 4, 0), PokerSet(Flush(3), 4, 0))
  {
  }

  lemma NoRowInFlush()
    ensures !HasStraightFlush(Flush(2))
  {
    forall s: Suit, r: nat | r < 10 ensures !HasRow(Flush(2), s, r) {
      RowEnds(r);
      assert !(Holds(Flush(2), s, Row(r)[3]) && Holds(Flush(2), s, Row(r)[4]));
    }
  }

  /** ComputerPoker on them. */
  method FollowTiedFlush() returns (trapped: bool)
    ensures trapped
  {
    TiedFlushes();
    hide Shape, Distinct, Judge, TiesDesk, GreedySplit, TieFirst;
    var desk := PokerSet(Flush(3), 4, 0);
    var play, last;
    ghost var tmp;
    trapped, play, last, tmp := ComputerPoker(Flush(2), desk, 2);
    FewCardsTie(Flush(2), desk, tmp);
  }
}
