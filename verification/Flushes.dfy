/** The flush pass of ClassingPokers in pokerCore.swift, which steps its index back without
    the lower bound the other passes have. */
module Flushes {
  import opened Cards

  /** The five first cards share a suit. */
  predicate FirstFiveShareSuit(cs: seq<Card>) {
    |cs| >= 5 && cs[0].suitnum == cs[4].suitnum
  }

  /** When the pass reads before the start of the list: the first five cards go, and five or
      more are left. */
  predicate ReadsBeforeStart(cs: seq<Card>) {
    |cs| >= 10 && FirstFiveShareSuit(cs)
  }

  /** The k + 1 cards before place ele share a suit, and the card before them has another. */
  predicate SuitRun(cs: seq<Card>, ele: int, k: nat) {
    && 0 <= ele - 1 - k && ele <= |cs|
    && (forall i | ele - 1 - k <= i < ele :: cs[i].suitnum == cs[ele - 1].suitnum)
    && (ele - 1 - k > 0 ==> cs[ele - 2 - k].suitnum != cs[ele - 1].suitnum)
  }

  /** Five cards were just taken before place ele + 1: the cards around the gap differ in
      suit, if there is one before it. */
  predicate Gap(cs: seq<Card>, ele: int) {
    0 <= ele <= |cs| && (0 < ele < |cs| ==> cs[ele - 1].suitnum != cs[ele].suitnum)
  }

  /** No five cards of one suit among the first, in a list by suit. */
  ghost predicate NoFiveBefore(cs: seq<Card>, end: int) {
    forall i, j | 0 <= i && j == i + 4 && j < end && j < |cs| :: cs[i].suitnum != cs[j].suitnum
  }

  /** No five of these cards make a flush. */
  ghost predicate NoFlush(cards: multiset<Card>) {
    forall five: seq<Card> | |five| == 5 && multiset(five) <= cards :: !SameSuit(five)
  }

  // ---------- which flushes are taken ----------

  /** The flushes in a list by suit: of each suit the five highest cards, then the next five. */
  function FlushesOf(cs: seq<Card>): seq<PokerSet> {
    if |cs| < 5 then []
    else if FirstFiveShareSuit(cs) then [PokerSet(cs[..5], 4, 0)] + FlushesOf(cs[5..])
    else FlushesOf(cs[1..])
  }

  lemma {:induction false} FlushesShaped(cs: seq<Card>)
    requires Ordered(BySuit, cs)
    ensures OfClass(FlushesOf(cs), 4)
    decreases |cs|
  {
    if |cs| < 5 {
    } else if FirstFiveShareSuit(cs) {
      FlushesShaped(cs[5..]);
      TakenShape(cs, 5);
    } else {
      FlushesShaped(cs[1..]);
    }
  }

  /** The cards before place `from` are in no flush to come: the flushes taken, and those from
      there on, are all. */
  ghost predicate TakenSoFar(cards: seq<Card>, sets: seq<PokerSet>, cs: seq<Card>, from: nat) {
    from <= |cs| && sets + FlushesOf(cs[from..]) == FlushesOf(cards)
  }

  lemma {:induction false} RunSkipped(cs: seq<Card>, from: nat, to: nat)
    requires Ordered(BySuit, cs) && from <= to <= |cs| && to - from < 5
    requires forall i | from <= i < to < |cs| :: cs[i].suitnum != cs[to].suitnum
    ensures FlushesOf(cs[from..]) == FlushesOf(cs[to..])
    decreases |cs| - from
  {
    if from < to {
      if to < |cs| && from + 4 < |cs| {
        assert !PokerSuitCompare(cs[from + 4], cs[to]) && !PokerSuitCompare(cs[to], cs[from]);
      }
      assert cs[from..][1..] == cs[from + 1..];
      RunSkipped(cs, from + 1, to);
    }
  }

  lemma SuitBlock(cs: seq<Card>, s: Suit) returns (a: nat, b: nat)
    requires Ordered(BySuit, cs)
    ensures a <= b <= |cs| && forall i | 0 <= i < |cs| :: cs[i].suitnum == s <==> a <= i < b
  {
    a := 0;
    while a < |cs| && cs[a].suitnum > s
      invariant a <= |cs| && forall i | 0 <= i < a :: cs[i].suitnum > s
    {
      a := a + 1;
    }
    b := a;
    while b < |cs| && cs[b].suitnum == s
      invariant a <= b <= |cs| && forall i | a <= i < b :: cs[i].suitnum == s
    {
      b := b + 1;
    }
    forall i | b <= i < |cs| ensures cs[i].suitnum < s {
      assert !PokerSuitCompare(cs[i], cs[b]);
      if b > 0 { assert !PokerSuitCompare(cs[b], cs[b - 1]); }
    }
  }

  lemma WithinBlock(cs: seq<Card>, a: nat, b: nat, s: Suit, some: multiset<Card>)
    requires a <= b <= |cs| && forall i | 0 <= i < |cs| :: cs[i].suitnum == s <==> a <= i < b
    requires some <= multiset(cs) && forall c | c in some :: c.suitnum == s
    ensures |some| <= b - a
  {
    assert cs == cs[..a] + cs[a..b] + cs[b..];
    forall c ensures some[c] <= multiset(cs[a..b])[c] {
      if c in some {
        assert c !in cs[..a] && c !in cs[b..];
        assert c !in multiset(cs[..a]) && c !in multiset(cs[b..]);
      }
    }
    var block := multiset(cs[a..b]);
    assert block == some + (block - some);
    assert |block| == |cs[a..b]| == b - a;
  }

  lemma NoFiveNoFlush(cs: seq<Card>)
    requires Ordered(BySuit, cs) && NoFiveBefore(cs, |cs|)
    ensures NoFlush(multiset(cs))
  {
    forall five: seq<Card> | |five| == 5 && multiset(five) <= multiset(cs) ensures !SameSuit(five) {
      if SameSuit(five) {
        var s := five[0].suitnum;
        var a, b := SuitBlock(cs, s);
        forall c | c in multiset(five) ensures c.suitnum == s {
          assert c in five;
        }
        assert a + 4 < |cs| ==> cs[a].suitnum != cs[a + 4].suitnum;
        WithinBlock(cs, a, b, s, multiset(five));
      }
    }
  }

  lemma TakenShape(cs: seq<Card>, ele: int)
    requires Ordered(BySuit, cs) && 5 <= ele <= |cs| && cs[ele - 5].suitnum == cs[ele - 1].suitnum
    ensures Shape(PokerSet(cs[ele - 5..ele], 4, 0))
  {
  }

  lemma TakenGap(cs: seq<Card>, ele: int)
    requires Ordered(BySuit, cs) && SuitRun(cs, ele, 4)
    ensures Gap(cs[..ele - 5] + cs[ele..], ele - 5)
  {
    var p := ele - 5;
    if 0 < p && ele < |cs| {
      assert !PokerSuitCompare(cs[ele], cs[ele - 1]) && !PokerSuitCompare(cs[ele - 1], cs[p - 1]);
      assert cs[ele].suitnum != cs[p - 1].suitnum;
      assert (cs[..p] + cs[ele..])[p] == cs[ele];
    }
  }

  lemma StillShort(cs: seq<Card>, ele: nat)
    requires 5 <= ele <= |cs|
    ensures NoFiveBefore(cs, ele - 1) ==> NoFiveBefore(cs[..ele - 5] + cs[ele..], ele - 5)
  {
  }

  /** The five cards before place ele are the next flush to come. */
  lemma NextFlush(cards: seq<Card>, sets: seq<PokerSet>, cs: seq<Card>, ele: nat)
    requires 5 <= ele <= |cs| && TakenSoFar(cards, sets, cs, ele - 5) && SuitRun(cs, ele, 4)
    ensures var s := PokerSet(cs[ele - 5..ele], 4, 0);
            TakenSoFar(cards, sets + [s], cs[..ele - 5] + cs[ele..], ele - 5)
  {
    var s, rest := PokerSet(cs[ele - 5..ele], 4, 0), cs[ele - 5..];
    assert rest[..5] == s.cards && rest[5..] == cs[ele..];
    assert (cs[..ele - 5] + cs[ele..])[ele - 5..] == rest[5..];
    assert FirstFiveShareSuit(rest);
    assert sets + ([s] + FlushesOf(rest[5..])) == sets + [s] + FlushesOf(rest[5..]);
  }

  /** A run that ends before its fifth card gives no flush. */
  lemma RunOver(cards: seq<Card>, sets: seq<PokerSet>, cs: seq<Card>, from: nat, ele: nat, k: nat)
    requires Ordered(BySuit, cs) && TakenSoFar(cards, sets, cs, from) && ele < |cs|
    requires (k < 4 && ele == from + 1 + k && SuitRun(cs, ele, k)) || (k == 4 && ele == from)
    requires 0 < ele && cs[ele - 1].suitnum != cs[ele].suitnum
    ensures TakenSoFar(cards, sets, cs, ele)
  {
    RunSkipped(cs, from, ele);
  }

  lemma NoMoreFlushes(cards: seq<Card>, sets: seq<PokerSet>, cs: seq<Card>, from: nat)
    requires TakenSoFar(cards, sets, cs, from) && |cs| < from + 5
    ensures sets == FlushesOf(cards)
  {
    assert sets + [] == sets;
  }

  /** Takes the five cards before place ele. */
  method TakeFlush(cs: seq<Card>, ele: nat, ghost cards: seq<Card>, ghost sets: seq<PokerSet>)
    returns (s: PokerSet, rest: seq<Card>)
    requires Ordered(BySuit, cs) && SuitRun(cs, ele, 4) && ele >= 5 && TakenSoFar(cards, sets, cs, ele - 5)
    requires multiset(cs) + CardsOf(sets) == multiset(cards) && OfClass(sets, 4)
    ensures |rest| == |cs| - 5 && Ordered(BySuit, rest) && Gap(rest, ele - 5)
    ensures NoFiveBefore(cs, ele - 1) ==> NoFiveBefore(rest, ele - 5)
    ensures multiset(rest) + CardsOf(sets + [s]) == multiset(cards) && OfClass(sets + [s], 4)
    ensures TakenSoFar(cards, sets + [s], rest, ele - 5)
  {
    hide *;
    ghost var five, others := FlushOut(cs, ele);
    NextFlush(cards, sets, cs, ele);
    s := PokerSet(cs[ele - 5..ele], 4, 0);
    rest := RemoveBlock(cs, ele - 5, 5);
    SetTaken(multiset(cards), cs, rest, sets, s);
    OneMoreOfClass(sets, s);
  }

  lemma FlushOut(cs: seq<Card>, ele: nat) returns (five: seq<Card>, others: seq<Card>)
    requires Ordered(BySuit, cs) && SuitRun(cs, ele, 4)
    ensures 5 <= ele <= |cs| && five == cs[ele - 5..ele] && others == cs[..ele - 5] + cs[ele..]
    ensures Shape(PokerSet(five, 4, 0)) && |others| == |cs| - 5 && Ordered(BySuit, others) && Gap(others, ele - 5)
    ensures NoFiveBefore(cs, ele - 1) ==> NoFiveBefore(others, ele - 5)
    ensures multiset(others) + multiset(five) == multiset(cs)
  {
    assert 5 <= ele <= |cs|;
    hide *;
    five, others := cs[ele - 5..ele], cs[..ele - 5] + cs[ele..];
    TakenShape(cs, ele);
    TakenGap(cs, ele);
    StillShort(cs, ele);
    BlockOut(cs, ele - 5, 5);
    BlockOrdered(BySuit, cs, ele - 5, 5);
  }

  /** The flush pass; trapped if it reads the card before the first. */
  method TakeFlushes(cards: seq<Card>) returns (trapped: bool, tmpNum: seq<Card>, sets: seq<PokerSet>)
    requires Ordered(BySuit, cards)
    ensures trapped <==> ReadsBeforeStart(cards)
    ensures multiset(tmpNum) + CardsOf(sets) == multiset(cards)
    ensures OfClass(sets, 4)
    ensures !trapped ==> NoFlush(multiset(tmpNum)) && sets == FlushesOf(cards)
  {
    hide Ordered, Shape, CardsOf, OfClass, SuitRun, Gap, NoFiveBefore, NoFlush, FlushesOf, TakenSoFar;
    NoSets(4);
    trapped, tmpNum, sets := false, cards, [];
    var ele, suitsCount := 1, 0;
    // The place where the current run of cards of one suit starts.
    ghost var start := 0;
    Begin(cards);
    while ele < |tmpNum| && |tmpNum| > 4
      invariant Ordered(BySuit, tmpNum) && 0 <= ele && 0 <= suitsCount <= 4
      invariant multiset(tmpNum) + CardsOf(sets) == multiset(cards)
      invariant OfClass(sets, 4) && TakenSoFar(cards, sets, tmpNum, start)
      invariant NoFiveBefore(tmpNum, ele)
      invariant suitsCount < 4 ==> ele == start + 1 + suitsCount && (tmpNum != [] ==> SuitRun(tmpNum, ele, suitsCount))
      invariant suitsCount == 4 ==> sets != [] && ele == start && Gap(tmpNum, ele)
      invariant sets == [] ==> tmpNum == cards && suitsCount < 4
      invariant sets == [] && start > 0 ==> !FirstFiveShareSuit(cards)
      invariant sets != [] && start == 0 ==> suitsCount == 4 && FirstFiveShareSuit(cards) && |tmpNum| == |cards| - 5
      invariant sets != [] && start > 0 ==> !FirstFiveShareSuit(cards)
      decreases |tmpNum| - ele
    {
      if ele == 0 {
        trapped := true;
        return;
      }
      CompareSuits(tmpNum, ele, suitsCount);
      if tmpNum[ele - 1].suitnum == tmpNum[ele].suitnum {
        suitsCount := suitsCount + 1;
      } else {
        if sets == [] { FirstRunShort(tmpNum, ele, suitsCount, start); }
        RunOver(cards, sets, tmpNum, start, ele, suitsCount);
        suitsCount := 0;
        start := ele;
      }
      if suitsCount >= 4 {
        if sets == [] { FirstTaken(tmpNum, ele + 1, start); }
        var s, rest := TakeFlush(tmpNum, ele + 1, cards, sets);
        tmpNum := rest;
        sets := sets + [s];
        ele := ele - 5;
      } else {
        ShortRun(tmpNum, ele, suitsCount);
      }
      ele := ele + 1;
    }
    AllShort(tmpNum, ele);
    NoMoreFlushes(cards, sets, tmpNum, start);
  }

  lemma ShortRun(cs: seq<Card>, ele: int, k: nat)
    requires Ordered(BySuit, cs) && NoFiveBefore(cs, ele) && k < 4 && SuitRun(cs, ele + 1, k)
    ensures NoFiveBefore(cs, ele + 1)
  {
    if ele >= 4 && ele < |cs| && cs[ele - 4].suitnum == cs[ele].suitnum {
      assert !PokerSuitCompare(cs[ele], cs[ele - 1 - k]) && !PokerSuitCompare(cs[ele - 1 - k], cs[ele - 4]);
    }
  }

  lemma AllShort(cs: seq<Card>, ele: int)
    requires Ordered(BySuit, cs) && NoFiveBefore(cs, ele) && (ele >= |cs| || |cs| <= 4)
    ensures NoFlush(multiset(cs))
  {
    NoFiveNoFlush(cs);
  }

  lemma Begin(cs: seq<Card>)
    ensures Gap(cs, 0) && NoFiveBefore(cs, 1) && TakenSoFar(cs, [], cs, 0) && (cs != [] ==> SuitRun(cs, 1, 0))
            && CardsOf([]) == multiset{}
  {
    assert cs[0..] == cs;
  }

  lemma CompareSuits(cs: seq<Card>, ele: int, k: nat)
    requires 0 < ele < |cs|
    requires (k < 4 && SuitRun(cs, ele, k)) || (k == 4 && Gap(cs, ele))
    ensures cs[ele - 1].suitnum == cs[ele].suitnum ==> k < 4 && SuitRun(cs, ele + 1, k + 1)
    ensures cs[ele - 1].suitnum != cs[ele].suitnum ==> SuitRun(cs, ele + 1, 0)
  {
  }

  /** The first run ends before its fifth card. */
  lemma FirstRunShort(cs: seq<Card>, ele: int, k: nat, start: nat)
    requires k < 4 && ele == start + 1 + k && ele < |cs| && SuitRun(cs, ele, k) && Ordered(BySuit, cs)
    requires cs[ele - 1].suitnum != cs[ele].suitnum && (start > 0 ==> !FirstFiveShareSuit(cs))
    ensures !FirstFiveShareSuit(cs)
  {
    if start == 0 && |cs| >= 5 {
      assert !PokerSuitCompare(cs[4], cs[ele]) || ele == 4;
      assert !PokerSuitCompare(cs[ele], cs[0]);
    }
  }

  lemma FirstTaken(cs: seq<Card>, ele: int, start: nat)
    requires SuitRun(cs, ele, 4) && ele == start + 5
    ensures start == 0 ==> FirstFiveShareSuit(cs)
  {
  }
}
