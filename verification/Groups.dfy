/** The second pass of ClassingPokers in pokerCore.swift, fours, threes and pairs of a kind,
    and the full houses made of threes and pairs. */
module Groups {
  import opened Cards

  // ---------- which cards stay alone ----------

  /** No other card of the list has this rank. */
  predicate Lonely(cs: seq<Card>, i: nat)
    requires i < |cs|
  {
    forall j | 0 <= j < |cs| && j != i :: cs[j].num != cs[i].num
  }

  ghost predicate NoFive(cs: seq<Card>) {
    forall i, j | 0 <= i && i + 4 == j && j < |cs| :: cs[i].num != cs[j].num
  }

  /** The ranks before place q are all above those from q on. */
  predicate Cut(cs: seq<Card>, q: nat) {
    forall i, j | 0 <= i < q <= j < |cs| :: cs[i].num > cs[j].num
  }

  /** The cards of `alone` are the lonely ones among the first q. */
  ghost predicate AloneUpTo(cs: seq<Card>, q: nat, alone: seq<Card>)
    requires q <= |cs|
  {
    forall c :: c in alone <==> exists i | 0 <= i < q :: cs[i] == c && Lonely(cs, i)
  }

  /** Four suits: five cards of one rank would repeat one. */
  lemma DistinctNoFive(cs: seq<Card>)
    requires Ordered(ByNum, cs) && Distinct(cs)
    ensures NoFive(cs)
  {
    forall i, j | 0 <= i && i + 4 == j && j < |cs| ensures cs[i].num != cs[j].num {
      assert PokerNumCompare(cs[i], cs[i + 1]) && PokerNumCompare(cs[i + 1], cs[i + 2])
          && PokerNumCompare(cs[i + 2], cs[i + 3]) && PokerNumCompare(cs[i + 3], cs[i + 4]);
    }
  }

  /** A run of n cards of one rank ends here. */
  lemma RunEnds(cs: seq<Card>, q: nat, n: nat, alone: seq<Card>)
    requires Ordered(ByNum, cs) && n > 0 && q + n <= |cs| && Cut(cs, q) && AloneUpTo(cs, q, alone)
    requires forall i | q <= i < q + n :: cs[i].num == cs[q].num
    requires q + n < |cs| ==> cs[q + n].num != cs[q].num
    ensures Cut(cs, q + n) && AloneUpTo(cs, q + n, if n == 1 then alone + [cs[q]] else alone)
  {
    forall i, j | 0 <= i < q + n <= j < |cs| ensures cs[i].num > cs[j].num {
      assert !PokerNumCompare(cs[j], cs[q + n]) && !PokerNumCompare(cs[q + n], cs[i]);
    }
    if n == 1 {
      assert Lonely(cs, q);
    } else {
      forall i | q <= i < q + n ensures !Lonely(cs, i) {
        assert cs[if i == q then q + 1 else q].num == cs[i].num;
      }
    }
  }

  // ---------- the pass ----------

  /** The first p cards are done with, the others are the hand's from q on. */
  predicate Split(cards: seq<Card>, left: seq<Card>, p: nat, q: nat) {
    && p <= |left| && q <= |cards| && left[p..] == cards[q..]
    && (forall i, j | 0 <= i < p && i < j < |left| :: left[i].num > left[j].num)
  }

  lemma SplitTake(cards: seq<Card>, left: seq<Card>, p: nat, q: nat, n: nat)
    requires Split(cards, left, p, q) && p + n <= |left|
    ensures Split(cards, left[..p] + left[p + n..], p, q + n)
    ensures (left[..p] + left[p + n..])[..p] == left[..p]
    ensures left[p..p + n] == cards[q..q + n]
  {
    var less := left[..p] + left[p + n..];
    assert less[p..] == left[p..][n..] == cards[q..][n..] == cards[q + n..];
    assert left[p..p + n] == left[p..][..n] == cards[q..][..n] == cards[q..q + n];
  }

  lemma SplitAt(cards: seq<Card>, left: seq<Card>, p: nat, q: nat, k: nat)
    requires Split(cards, left, p, q) && p + k < |left|
    ensures q + k < |cards| && left[p + k] == cards[q + k]
  {
    assert left[p + k] == left[p..][k] == cards[q..][k];
  }

  lemma SplitKeep(cards: seq<Card>, left: seq<Card>, p: nat, q: nat)
    requires Ordered(ByNum, cards) && Split(cards, left, p, q) && p < |left|
    requires p + 1 < |left| ==> left[p].num != left[p + 1].num
    ensures Split(cards, left, p + 1, q + 1) && left[..p + 1] == left[..p] + [cards[q]]
  {
    SplitAt(cards, left, p, q, 0);
    assert left[p + 1..] == left[p..][1..] == cards[q..][1..] == cards[q + 1..];
    forall j | p < j < |left| ensures left[p].num > left[j].num {
      SplitAt(cards, left, p, q, j - p);
      SplitAt(cards, left, p, q, 1);
      assert !PokerNumCompare(cards[q + (j - p)], cards[q + 1]) && !PokerNumCompare(cards[q + 1], cards[q]);
    }
  }

  /** The run of k + 1 cards from p on. */
  predicate Run(left: seq<Card>, p: nat, k: nat) {
    p + k < |left| && forall i | p <= i <= p + k :: left[i].num == left[p].num
  }

  lemma RunShape(cards: seq<Card>, left: seq<Card>, p: nat, q: nat, k: nat, classing: int)
    requires Ordered(ByNum, cards) && Split(cards, left, p, q) && Run(left, p, k)
    requires (classing == 6 && k == 3) || (classing == 2 && k == 2) || (classing == 1 && k == 1)
    ensures Shape(PokerSet(left[p..p + k + 1], classing, 0))
  {
    SplitTake(cards, left, p, q, k + 1);
  }

  predicate RanksAbove(sets: seq<PokerSet>, cards: seq<Card>, q: nat) {
    forall s | s in sets :: s.cards != [] && forall j | q <= j < |cards| :: s.cards[0].num > cards[j].num
  }

  predicate RanksApart(threes: seq<PokerSet>, pairs: seq<PokerSet>) {
    forall t, p | t in threes && p in pairs :: t.cards != [] && p.cards != [] && t.cards[0].num != p.cards[0].num
  }

  /** One set for a rank, from the highest down. */
  predicate SetsFall(sets: seq<PokerSet>) {
    forall i, j | 0 <= i < j < |sets| :: sets[i].cards != [] && sets[j].cards != []
        && sets[i].cards[0].num > sets[j].cards[0].num
  }

  /** Where the pass is: numCount + 1 cards from p on have one rank; or fours were just
      taken, and the index is one behind. */
  predicate At(left: seq<Card>, p: nat, ele: int, numCount: nat) {
    || (ele == p + 1 + numCount && numCount <= 2 && (if p == |left| then numCount == 0 else Run(left, p, numCount)))
    || (ele == p && numCount == 0)
    || (left == [] && p == 0 && numCount == 0 && ele == 2)
  }

  function Taken(fours: seq<PokerSet>, suntiao: seq<PokerSet>, yidui: seq<PokerSet>): multiset<Card> {
    CardsOf(fours) + CardsOf(suntiao) + CardsOf(yidui)
  }

  lemma Moved3(rest: multiset<Card>, g: multiset<Card>, left: multiset<Card>,
      f: multiset<Card>, s: multiset<Card>, y: multiset<Card>, all: multiset<Card>)
    requires rest + g == left && left + (f + s + y) == all
    ensures rest + ((f + g) + s + y) == all
    ensures rest + (f + (s + g) + y) == all
    ensures rest + (f + s + (y + g)) == all
  {
  }

  lemma GroupTaken(all: multiset<Card>, left: seq<Card>, rest: seq<Card>, g: PokerSet,
      fours: seq<PokerSet>, suntiao: seq<PokerSet>, yidui: seq<PokerSet>)
    requires multiset(rest) + multiset(g.cards) == multiset(left)
    requires multiset(left) + Taken(fours, suntiao, yidui) == all
    ensures multiset(rest) + Taken(fours + [g], suntiao, yidui) == all
    ensures multiset(rest) + Taken(fours, suntiao + [g], yidui) == all
    ensures multiset(rest) + Taken(fours, suntiao, yidui + [g]) == all
  {
    hide CardsOf;
    CardsOfOneMore(fours, g);
    CardsOfOneMore(suntiao, g);
    CardsOfOneMore(yidui, g);
    Moved3(multiset(rest), multiset(g.cards), multiset(left), CardsOf(fours), CardsOf(suntiao), CardsOf(yidui), all);
  }

  /** A run of k + 1 cards of one rank is over: what that means for the cards that stay
      alone, and for the ranks of the groups. */
  lemma RunOver(cards: seq<Card>, left: seq<Card>, p: nat, q: nat, k: nat)
    requires Ordered(ByNum, cards) && Split(cards, left, p, q) && Run(left, p, k)
    requires p + k + 1 < |left| ==> left[p + k].num != left[p + k + 1].num
    ensures NoFive(cards) && Cut(cards, q) && AloneUpTo(cards, q, left[..p]) ==>
              Cut(cards, q + k + 1) && AloneUpTo(cards, q + k + 1, if k == 0 then left[..p] + [cards[q]] else left[..p])
    ensures forall j | q + k + 1 <= j < |cards| :: left[p].num > cards[j].num
  {
    hide NoFive, Lonely, AloneUpTo, Cut;
    forall i | q <= i < q + k + 1 ensures cards[i].num == left[p].num {
      SplitAt(cards, left, p, q, i - q);
    }
    assert |left| - p == |cards| - q by { assert |left[p..]| == |cards[q..]|; }
    if q + k + 1 < |cards| { SplitAt(cards, left, p, q, k + 1); }
    if Cut(cards, q) && AloneUpTo(cards, q, left[..p]) {
      RunEnds(cards, q, k + 1, left[..p]);
    }
    forall j | q + k + 1 <= j < |cards| ensures left[p].num > cards[j].num {
      assert !PokerNumCompare(cards[j], cards[q + k + 1]) && !PokerNumCompare(cards[q + k + 1], cards[q]);
    }
  }

  /** Four of a rank are taken; without five of it, the rank is used up. */
  lemma FourOver(cards: seq<Card>, left: seq<Card>, p: nat, q: nat)
    requires Ordered(ByNum, cards) && Split(cards, left, p, q) && Run(left, p, 3)
    ensures NoFive(cards) && Cut(cards, q) && AloneUpTo(cards, q, left[..p]) ==>
              Cut(cards, q + 4) && AloneUpTo(cards, q + 4, left[..p])
  {
    if NoFive(cards) {
      if p + 4 < |left| {
        SplitAt(cards, left, p, q, 0);
        SplitAt(cards, left, p, q, 3);
        SplitAt(cards, left, p, q, 4);
        assert cards[q].num != cards[q + 4].num;
      }
      RunOver(cards, left, p, q, 3);
    }
  }

  /** The new group's rank is above all that follow, and none had it before. */
  lemma NewRank(suntiao: seq<PokerSet>, yidui: seq<PokerSet>, cards: seq<Card>, q: nat, k: nat, g: PokerSet)
    requires RanksAbove(suntiao, cards, q) && RanksAbove(yidui, cards, q) && RanksApart(suntiao, yidui)
    requires SetsFall(suntiao) && SetsFall(yidui)
    requires q + k < |cards| && g.cards != [] && g.cards[0] == cards[q]
    requires forall j | q + k < j < |cards| :: cards[q].num > cards[j].num
    ensures RanksAbove(suntiao + [g], cards, q + k + 1) && RanksAbove(yidui + [g], cards, q + k + 1)
    ensures RanksApart(suntiao + [g], yidui) && RanksApart(suntiao, yidui + [g])
    ensures SetsFall(suntiao + [g]) && SetsFall(yidui + [g])
  {
    hide RanksAbove, RanksApart, SetsFall;
    NewAbove(suntiao, cards, q, k, g);
    NewAbove(yidui, cards, q, k, g);
    NewApart(suntiao, yidui, cards, q, g);
    NewFalls(suntiao, cards, q, g);
    NewFalls(yidui, cards, q, g);
  }

  lemma AllAbove(sets: seq<PokerSet>, cards: seq<Card>, q: nat)
    requires RanksAbove(sets, cards, q) && q < |cards|
    ensures forall s | s in sets :: s.cards != [] && s.cards[0].num > cards[q].num
  {
  }

  lemma NewAbove(sets: seq<PokerSet>, cards: seq<Card>, q: nat, k: nat, g: PokerSet)
    requires RanksAbove(sets, cards, q) && q + k < |cards| && g.cards != [] && g.cards[0] == cards[q]
    requires forall j | q + k < j < |cards| :: cards[q].num > cards[j].num
    ensures RanksAbove(sets + [g], cards, q + k + 1)
  {
  }

  lemma NewApart(suntiao: seq<PokerSet>, yidui: seq<PokerSet>, cards: seq<Card>, q: nat, g: PokerSet)
    requires RanksAbove(suntiao, cards, q) && RanksAbove(yidui, cards, q) && RanksApart(suntiao, yidui)
    requires q < |cards| && g.cards != [] && g.cards[0] == cards[q]
    ensures RanksApart(suntiao + [g], yidui) && RanksApart(suntiao, yidui + [g])
  {
    AllAbove(suntiao, cards, q);
    AllAbove(yidui, cards, q);
    hide RanksAbove;
  }

  lemma NewFalls(sets: seq<PokerSet>, cards: seq<Card>, q: nat, g: PokerSet)
    requires RanksAbove(sets, cards, q) && SetsFall(sets) && q < |cards| && g.cards != [] && g.cards[0] == cards[q]
    ensures SetsFall(sets + [g])
  {
    AllAbove(sets, cards, q);
    hide RanksAbove;
    var more := sets + [g];
    forall i, j | 0 <= i < j < |more|
      ensures more[i].cards != [] && more[j].cards != [] && more[i].cards[0].num > more[j].cards[0].num
    {
      assert more[i] == sets[i] && sets[i] in sets;
      if j < |sets| { assert more[j] == sets[j]; }
    }
  }

  ghost predicate Going(cards: seq<Card>, left: seq<Card>, p: nat, q: nat, suntiao: seq<PokerSet>,
      yidui: seq<PokerSet>) {
    && Split(cards, left, p, q)
    && RanksAbove(suntiao, cards, q) && RanksAbove(yidui, cards, q) && RanksApart(suntiao, yidui)
    && SetsFall(suntiao) && SetsFall(yidui)
    && (NoFive(cards) ==> Cut(cards, q) && AloneUpTo(cards, q, left[..p]))
  }

  lemma SingleStep(cards: seq<Card>, left: seq<Card>, p: nat, q: nat, suntiao: seq<PokerSet>, yidui: seq<PokerSet>)
    requires Ordered(ByNum, cards) && Going(cards, left, p, q, suntiao, yidui) && p < |left|
    requires p + 1 < |left| ==> left[p].num != left[p + 1].num
    ensures Going(cards, left, p + 1, q + 1, suntiao, yidui)
  {
    hide NoFive, AloneUpTo, Cut, Ordered;
    RunOver(cards, left, p, q, 0);
    SplitKeep(cards, left, p, q);
  }

  lemma FourStep(cards: seq<Card>, left: seq<Card>, p: nat, q: nat, g: PokerSet,
      fours: seq<PokerSet>, suntiao: seq<PokerSet>, yidui: seq<PokerSet>)
    requires Ordered(ByNum, cards) && Going(cards, left, p, q, suntiao, yidui) && Run(left, p, 3)
    requires multiset(left) + Taken(fours, suntiao, yidui) == multiset(cards)
    requires g == PokerSet(left[p..p + 4], 6, 0)
    ensures var rest := left[..p] + left[p + 4..];
            && Shape(g) && Going(cards, rest, p, q + 4, suntiao, yidui)
            && multiset(rest) + Taken(fours + [g], suntiao, yidui) == multiset(cards)
  {
    hide NoFive, AloneUpTo, Cut, Ordered, Taken, Shape, RanksAbove, RanksApart, SetsFall;
    var rest := left[..p] + left[p + 4..];
    RunShape(cards, left, p, q, 3, 6);
    FourOver(cards, left, p, q);
    SplitTake(cards, left, p, q, 4);
    Weaken(suntiao, yidui, cards, q, q + 4);
    BlockOut(left, p, 4);
    GroupTaken(multiset(cards), left, rest, g, fours, suntiao, yidui);
  }

  lemma GroupHead(cards: seq<Card>, left: seq<Card>, p: nat, q: nat, k: nat)
    requires Split(cards, left, p, q) && Run(left, p, k)
    ensures q + k < |cards| && left[p] == cards[q] && |left[p..p + k + 1]| == k + 1 && left[p..p + k + 1][0] == cards[q]
  {
    SplitAt(cards, left, p, q, k);
    SplitAt(cards, left, p, q, 0);
  }

  lemma GroupStep(cards: seq<Card>, left: seq<Card>, p: nat, q: nat, k: nat, g: PokerSet,
      fours: seq<PokerSet>, suntiao: seq<PokerSet>, yidui: seq<PokerSet>)
    requires Ordered(ByNum, cards) && Going(cards, left, p, q, suntiao, yidui) && Run(left, p, k) && 1 <= k <= 2
    requires p + k + 1 < |left| ==> left[p + k].num != left[p + k + 1].num
    requires multiset(left) + Taken(fours, suntiao, yidui) == multiset(cards)
    requires g == PokerSet(left[p..p + k + 1], k, 0)
    ensures var rest := left[..p] + left[p + k + 1..];
            && Shape(g)
            && Going(cards, rest, p, q + k + 1, suntiao + [g], yidui)
            && Going(cards, rest, p, q + k + 1, suntiao, yidui + [g])
            && multiset(rest) + Taken(fours, suntiao + [g], yidui) == multiset(cards)
            && multiset(rest) + Taken(fours, suntiao, yidui + [g]) == multiset(cards)
  {
    hide Going, Ordered, Taken, Shape, Run;
    RunBounds(left, p, k);
    GroupGoing(cards, left, p, q, k, g, suntiao, yidui);
    BlockOut(left, p, k + 1);
    GroupTaken(multiset(cards), left, left[..p] + left[p + k + 1..], g, fours, suntiao, yidui);
  }

  lemma GroupGoing(cards: seq<Card>, left: seq<Card>, p: nat, q: nat, k: nat, g: PokerSet, suntiao: seq<PokerSet>,
      yidui: seq<PokerSet>)
    requires Ordered(ByNum, cards) && Going(cards, left, p, q, suntiao, yidui) && Run(left, p, k) && 1 <= k <= 2
    requires p + k + 1 < |left| ==> left[p + k].num != left[p + k + 1].num
    requires g == PokerSet(left[p..p + k + 1], k, 0)
    ensures var rest := left[..p] + left[p + k + 1..];
            && Shape(g)
            && Going(cards, rest, p, q + k + 1, suntiao + [g], yidui)
            && Going(cards, rest, p, q + k + 1, suntiao, yidui + [g])
  {
    hide NoFive, AloneUpTo, Cut, Ordered, Shape, RanksAbove, RanksApart, SetsFall, Split, Run;
    RunBounds(left, p, k);
    RunShape(cards, left, p, q, k, k);
    RunOver(cards, left, p, q, k);
    SplitTake(cards, left, p, q, k + 1);
    GroupHead(cards, left, p, q, k);
    NewRank(suntiao, yidui, cards, q, k, g);
    Weaken(suntiao, yidui, cards, q, q + k + 1);
  }

  lemma Weaken(suntiao: seq<PokerSet>, yidui: seq<PokerSet>, cards: seq<Card>, q: nat, q1: nat)
    requires q <= q1 && RanksAbove(suntiao, cards, q) && RanksAbove(yidui, cards, q)
    ensures RanksAbove(suntiao, cards, q1) && RanksAbove(yidui, cards, q1)
  {
  }

  /** What the comparison of two neighbours says about the current run. */
  lemma AtMeans(left: seq<Card>, p: nat, ele: int, k: nat)
    requires At(left, p, ele, k) && p <= |left| && 1 <= ele && (ele <= |left| || (left == [] && ele == 1))
    requires 0 < p < |left| ==> left[p - 1].num > left[p].num
    ensures k <= 2
    ensures ele < |left| && left[ele - 1].num == left[ele].num ==>
              ele == p + 1 + k && Run(left, p, k + 1) && (k < 2 ==> At(left, p, ele + 1, k + 1))
    ensures !(ele < |left| && left[ele - 1].num == left[ele].num) && k >= 1 ==>
              ele == p + 1 + k && Run(left, p, k) && (p + k + 1 < |left| ==> left[p + k].num != left[p + k + 1].num)
    ensures k == 0 && ele == p + 1 && p < |left| ==> At(left, p + 1, ele + 1, 0)
    ensures k == 0 && !(ele == p + 1 && p < |left|) ==> At(left, p, ele + 1, 0)
  {
  }

  lemma AtAfter(left: seq<Card>, p: nat)
    requires p <= |left|
    ensures At(left, p, p + 1, 0) && At(left, p, p, 0)
  {
  }

  lemma AtEnd(left: seq<Card>, p: nat, ele: int, k: nat)
    requires At(left, p, ele, k) && p <= |left| < ele
    ensures p == |left|
  {
  }

  /** Takes the three or two cards before place ele. */
  method CloseGroup(cards: seq<Card>, left: seq<Card>, ele: nat, k: nat, ghost p: nat, ghost q: nat,
      ghost fours: seq<PokerSet>, ghost suntiao: seq<PokerSet>, ghost yidui: seq<PokerSet>)
    returns (g: PokerSet, rest: seq<Card>)
    requires Ordered(ByNum, cards) && Going(cards, left, p, q, suntiao, yidui) && Run(left, p, k) && 1 <= k <= 2
    requires ele == p + k + 1
    requires p + k + 1 < |left| ==> left[p + k].num != left[p + k + 1].num
    requires multiset(left) + Taken(fours, suntiao, yidui) == multiset(cards)
    ensures Shape(g) && g.classing == k && |rest| == |left| - (k + 1) && p <= |rest| && At(rest, p, p + 1, 0)
    ensures Going(cards, rest, p, q + k + 1, suntiao + [g], yidui)
            && Going(cards, rest, p, q + k + 1, suntiao, yidui + [g])
    ensures multiset(rest) + Taken(fours, suntiao + [g], yidui) == multiset(cards)
    ensures multiset(rest) + Taken(fours, suntiao, yidui + [g]) == multiset(cards)
  {
    hide Going, Shape, Ordered, Taken, At, Run;
    assert ele <= |left| by { RunBounds(left, p, k); }
    g := PokerSet(left[ele - (k + 1)..ele], k, 0);
    GroupStep(cards, left, p, q, k, g, fours, suntiao, yidui);
    rest := RemoveBlock(left, ele - (k + 1), k + 1);
    AtAfter(rest, p);
  }

  lemma RunBounds(left: seq<Card>, p: nat, k: nat)
    requires Run(left, p, k)
    ensures p + k < |left|
  {
  }

  /** Takes the four cards up to place ele. */
  method CloseFour(cards: seq<Card>, left: seq<Card>, ele: nat, ghost p: nat, ghost q: nat,
      ghost fours: seq<PokerSet>, ghost suntiao: seq<PokerSet>, ghost yidui: seq<PokerSet>)
    returns (g: PokerSet, rest: seq<Card>)
    requires Ordered(ByNum, cards) && Going(cards, left, p, q, suntiao, yidui) && Run(left, p, 3)
    requires ele == p + 3
    requires multiset(left) + Taken(fours, suntiao, yidui) == multiset(cards)
    ensures Shape(g) && g.classing == 6 && |rest| == |left| - 4 && p <= |rest| && At(rest, p, p, 0)
    ensures Going(cards, rest, p, q + 4, suntiao, yidui)
    ensures multiset(rest) + Taken(fours + [g], suntiao, yidui) == multiset(cards)
  {
    hide Going, Shape, Ordered, Taken, At, Run;
    RunBounds(left, p, 3);
    g := PokerSet(left[ele - 3..ele + 1], 6, 0);
    FourStep(cards, left, p, q, g, fours, suntiao, yidui);
    rest := RemoveBlock(left, ele - 3, 4);
    AtAfter(rest, p);
  }

  method TakeGroups(cards: seq<Card>)
    returns (tmpNum: seq<Card>, fours: seq<PokerSet>, suntiao: seq<PokerSet>, yidui: seq<PokerSet>)
    requires Ordered(ByNum, cards)
    ensures multiset(tmpNum) + Taken(fours, suntiao, yidui) == multiset(cards)
    ensures OfClass(fours, 6) && OfClass(suntiao, 2) && OfClass(yidui, 1)
    ensures RanksApart(suntiao, yidui) && SetsFall(suntiao) && SetsFall(yidui)
    ensures Falling(tmpNum)
    ensures NoFive(cards) ==> AloneUpTo(cards, |cards|, tmpNum)
  {
    hide Going, NoFive, Lonely, AloneUpTo, Cut, Shape, CardsOf, Ordered, RemoveAt, RanksAbove, RanksApart, SetsFall,
         Taken, At, Run;
    tmpNum, fours, suntiao, yidui := cards, [], [], [];
    var ele, numCount := 1, 0;
    ghost var p, q := 0, 0;
    Start(cards);
    AtAfter(cards, 0);
    while ele <= |tmpNum|
      invariant 0 <= p <= |tmpNum| && 0 <= ele && 0 <= numCount
      invariant Going(cards, tmpNum, p, q, suntiao, yidui) && At(tmpNum, p, ele, numCount)
      invariant ele == 0 ==> p == 0 && numCount == 0
      invariant multiset(tmpNum) + Taken(fours, suntiao, yidui) == multiset(cards)
      invariant OfClass(fours, 6) && OfClass(suntiao, 2) && OfClass(yidui, 1)
      decreases |tmpNum| - ele
    {
      if ele < 1 {
        ele := 1;
        AtAfter(tmpNum, 0);
      }
      GoingDescends(cards, tmpNum, p, q, suntiao, yidui);
      AtMeans(tmpNum, p, ele, numCount);
      if ele < |tmpNum| && tmpNum[ele - 1].num == tmpNum[ele].num {
        numCount := numCount + 1;
      } else if numCount >= 1 {
        var g, rest := CloseGroup(cards, tmpNum, ele, numCount, p, q, fours, suntiao, yidui);
        if numCount >= 2 {
          suntiao := suntiao + [g];
        } else {
          yidui := yidui + [g];
        }
        q := q + numCount + 1;
        tmpNum := rest;
        ele := ele - (numCount + 1);
        numCount := 0;
      } else {
        // The source does nothing here: a card stays alone, or fours were just taken.
        ghost var alone := ele == p + 1 && p < |tmpNum|;
        if alone { SingleStep(cards, tmpNum, p, q, suntiao, yidui); }
        p, q := if alone then p + 1 else p, if alone then q + 1 else q;
      }
      if numCount >= 3 {
        var g, rest := CloseFour(cards, tmpNum, ele, p, q, fours, suntiao, yidui);
        q := q + 4;
        fours := fours + [g];
        tmpNum := rest;
        numCount := 0;
        ele := ele - 4;
      }
      ele := ele + 1;
    }
    AtEnd(tmpNum, p, ele, numCount);
    AllDone(cards, tmpNum, p, q, suntiao, yidui);
  }

  lemma GoingDescends(cards: seq<Card>, left: seq<Card>, p: nat, q: nat, suntiao: seq<PokerSet>, yidui: seq<PokerSet>)
    requires Going(cards, left, p, q, suntiao, yidui)
    ensures p <= |left| && q <= |cards| && (0 < p < |left| ==> left[p - 1].num > left[p].num)
  {
  }

  lemma AllDone(cards: seq<Card>, left: seq<Card>, p: nat, q: nat, suntiao: seq<PokerSet>, yidui: seq<PokerSet>)
    requires Going(cards, left, p, q, suntiao, yidui) && p == |left|
    ensures Falling(left)
    ensures NoFive(cards) ==> AloneUpTo(cards, |cards|, left)
    ensures RanksApart(suntiao, yidui) && SetsFall(suntiao) && SetsFall(yidui)
  {
    assert left[..p] == left;
    assert |left[p..]| == |cards[q..]|;
  }

  lemma Start(cards: seq<Card>)
    ensures Going(cards, cards, 0, 0, [], []) && Taken([], [], []) == multiset{}
  {
    assert cards[0..] == cards;
  }

  // ---------- full houses ----------

  /** A three and a pair of different ranks, sorted together. */
  lemma FullHouseShape(t: PokerSet, p: PokerSet)
    requires Shape(t) && Shape(p) && t.classing == 2 && p.classing == 1 && t.cards[0].num != p.cards[0].num
    ensures Shape(PokerSet(Sort(ByNum, t.cards + p.cards), 5, 0))
    ensures multiset(Sort(ByNum, t.cards + p.cards)) == multiset(t.cards) + multiset(p.cards)
  {
    hide Sort, Ordered;
    if t.cards[0].num > p.cards[0].num {
      HighThenLow(t.cards, p.cards);
      assert (t.cards + p.cards)[..3] == t.cards && (t.cards + p.cards)[3..] == p.cards;
    } else {
      HighThenLow(p.cards, t.cards);
      assert (p.cards + t.cards)[..2] == p.cards && (p.cards + t.cards)[2..] == t.cards;
    }
  }

  /** Two groups of one rank each, the higher one first, are in order. */
  lemma HighThenLow(high: seq<Card>, low: seq<Card>)
    requires Ordered(ByNum, high) && Ordered(ByNum, low) && SameNum(high) && SameNum(low) && high != [] && low != []
    requires high[0].num > low[0].num
    ensures Ordered(ByNum, high + low) && Sort(ByNum, high + low) == high + low && Sort(ByNum, low + high) == high + low
  {
    var both := high + low;
    forall i, j | 0 <= i < j < |both| ensures !PokerNumCompare(both[j], both[i]) {
      if j < |high| {
        assert both[i] == high[i] && both[j] == high[j];
      } else {
        assert both[j] == low[j - |high|];
        if i < |high| { assert both[i] == high[i]; } else { assert both[i] == low[i - |high|]; }
      }
    }
    hide Sort;
    SortUnique(ByNum, both, Sort(ByNum, both));
    assert multiset(low + high) == multiset(both);
    SortUnique(ByNum, both, Sort(ByNum, low + high));
  }

  lemma FirstSet(sets: seq<PokerSet>)
    requires sets != []
    ensures CardsOf(sets) == multiset(sets[0].cards) + CardsOf(sets[1..])
  {
    assert sets == [sets[0]] + sets[1..];
    CardsOfConcat([sets[0]], sets[1..]);
    CardsOfOneMore([], sets[0]);
    assert [] + [sets[0]] == [sets[0]];
  }

  lemma Merged(h: multiset<Card>, t: multiset<Card>, p: multiset<Card>, ts: multiset<Card>, ps: multiset<Card>)
    ensures (h + (t + p)) + (ts + ps) == h + ((t + ts) + (p + ps))
  {
  }

  method MakeFullHouses(threes: seq<PokerSet>, pairs: seq<PokerSet>)
    returns (hulu: seq<PokerSet>, suntiao: seq<PokerSet>, yidui: seq<PokerSet>)
    requires OfClass(threes, 2) && OfClass(pairs, 1) && RanksApart(threes, pairs)
    ensures OfClass(hulu, 5) && OfClass(suntiao, 2) && OfClass(yidui, 1)
    ensures suntiao == [] || yidui == []
    ensures CardsOf(hulu) + (CardsOf(suntiao) + CardsOf(yidui)) == CardsOf(threes) + CardsOf(pairs)
  {
    hide Shape, CardsOf, Sort, OfClass, RanksApart;
    var sunDuiCount := if |threes| < |pairs| then |threes| else |pairs|;
    hulu, suntiao, yidui := [], threes, pairs;
    EmptyCards();
    NoSets(5);
    var coun := 0;
    while coun < sunDuiCount
      invariant 0 <= coun <= sunDuiCount && |suntiao| == |threes| - coun && |yidui| == |pairs| - coun
      invariant OfClass(hulu, 5) && OfClass(suntiao, 2) && OfClass(yidui, 1) && RanksApart(suntiao, yidui)
      invariant CardsOf(hulu) + (CardsOf(suntiao) + CardsOf(yidui)) == CardsOf(threes) + CardsOf(pairs)
    {
      var t, p := suntiao[0], yidui[0];
      FirstTwo(suntiao, yidui, hulu);
      FirstSet(suntiao);
      FirstSet(yidui);
      var house := PokerSet(Sort(ByNum, t.cards + p.cards), 5, 0);
      CardsOfOneMore(hulu, house);
      Merged(CardsOf(hulu), multiset(t.cards), multiset(p.cards), CardsOf(suntiao[1..]), CardsOf(yidui[1..]));
      hulu := hulu + [house];
      suntiao := suntiao[1..];
      yidui := yidui[1..];
      coun := coun + 1;
    }
  }

  lemma FirstTwo(suntiao: seq<PokerSet>, yidui: seq<PokerSet>, hulu: seq<PokerSet>)
    requires suntiao != [] && yidui != [] && OfClass(suntiao, 2) && OfClass(yidui, 1) && OfClass(hulu, 5)
    requires RanksApart(suntiao, yidui)
    ensures OfClass(suntiao[1..], 2) && OfClass(yidui[1..], 1) && RanksApart(suntiao[1..], yidui[1..])
    ensures var cards := suntiao[0].cards + yidui[0].cards;
            && OfClass(hulu + [PokerSet(Sort(ByNum, cards), 5, 0)], 5)
            && multiset(Sort(ByNum, cards)) == multiset(suntiao[0].cards) + multiset(yidui[0].cards)
  {
    hide Shape, Sort;
    var t, p := suntiao[0], yidui[0];
    assert t in suntiao && p in yidui;
    FullHouseShape(t, p);
  }
}
