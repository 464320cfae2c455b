/** ComputerPoker of pokerCore.swift: which set a computer player plays, and what is left of
    its hand. */
module ComputerPlay {
  import opened Cards
  import opened Classing

  // ---------- beating the set on the desk ----------

  function Rising(s: PokerSet): (cs: seq<Card>)
    ensures |cs| == |s.cards| && multiset(cs) == multiset(s.cards) && Ordered(Ascending, cs)
  {
    SameLength(Sort(Ascending, s.cards), s.cards);
    Sort(Ascending, s.cards)
  }

  /** An empty desk, or a set that was played. */
  predicate OnDesk(s: PokerSet) {
    s.classing == -1 || Shape(s)
  }

  lemma ShapeSize(s: PokerSet)
    requires Shape(s)
    ensures 0 <= s.classing <= 7 && s.cards != [] && (s.classing > 2 && s.classing != 6 ==> |s.cards| == 5)
    ensures s.classing == 6 ==> |s.cards| == 4
  {
  }

  function Highest(s: PokerSet): Card
    requires s.cards != []
  {
    Rising(s)[|s.cards| - 1]
  }

  /** The first place where the ranks differ, or the end. */
  function FirstDifference(a: seq<Card>, b: seq<Card>, j: nat): (r: nat)
    requires j <= |b| == |a|
    ensures j <= r <= |b| && (forall i | j <= i < r :: a[i].num == b[i].num)
    ensures r < |b| ==> a[r].num != b[r].num
    decreases |b| - j
  {
    if j < |b| && a[j].num == b[j].num then FirstDifference(a, b, j + 1) else j
  }

  datatype Verdict = Wins | Loses | OutOfRange

  function WinsIf(b: bool): Verdict {
    if b then Wins else Loses
  }

  /** The test of a set against the desk. Two flushes with the same ranks are compared past
      their last card. */
  function Judge(s: PokerSet, desk: PokerSet): Verdict
    requires Shape(s) && OnDesk(desk)
  {
    ShapeSize(s);
    if s.classing != desk.classing then WinsIf(desk.classing > 2 && s.classing > desk.classing)
    else
      var a, b := Rising(s), Rising(desk);
      match desk.classing
      case 7 => WinsIf(s.level > desk.level || (s.level == desk.level && a[0].suitnum > b[0].suitnum))
      case 3 => WinsIf(s.level > desk.level || (s.level == desk.level && a[0].suitnum > b[0].suitnum))
      case 5 => WinsIf(Less(b[3], a[3]))
      case 4 =>
        var j := FirstDifference(a, b, 0);
        if j == 5 then OutOfRange else WinsIf(a[j].num > b[j].num)
      case _ => WinsIf(Less(Highest(desk), Highest(s)))
  }

  predicate Beats(s: PokerSet, desk: PokerSet)
    requires Shape(s) && OnDesk(desk)
  {
    Judge(s, desk).Wins?
  }

  /** No set beats itself. */
  lemma BeatsIrreflexive(s: PokerSet)
    requires Shape(s)
    ensures !Beats(s, s)
  {
  }

  lemma BeatsTransitive(a: PokerSet, b: PokerSet, c: PokerSet)
    requires Shape(a) && Shape(b) && Shape(c) && Beats(a, b) && Beats(b, c)
    ensures Beats(a, c)
  {
    hide Shape, Sort;
    ShapeSize(a);
    ShapeSize(b);
    ShapeSize(c);
    if a.classing == b.classing == c.classing == 4 {
      var j, k := FirstDifference(Rising(a), Rising(b), 0), FirstDifference(Rising(b), Rising(c), 0);
      var m := FirstDifference(Rising(a), Rising(c), 0);
      assert m == if j < k then j else k;
    }
  }

  // ---------- what the test amounts to ----------

  function Backwards(cs: seq<Card>): (r: seq<Card>)
    ensures |r| == |cs| && multiset(r) == multiset(cs) && forall k | 0 <= k < |cs| :: r[k] == cs[|cs| - 1 - k]
  {
    if cs == [] then []
    else
      assert cs == [cs[0]] + cs[1..];
      Backwards(cs[1..]) + [cs[0]]
  }

  lemma RisingIs(s: PokerSet, k: nat)
    requires Ordered(ByNum, s.cards) && k < |s.cards|
    ensures Rising(s)[k] == s.cards[|s.cards| - 1 - k]
  {
    var back := Backwards(s.cards);
    forall i, j | 0 <= i < j < |back| ensures !Less(back[j], back[i]) {
      assert !PokerNumCompare(s.cards[|back| - 1 - i], s.cards[|back| - 1 - j]);
    }
    SortUnique(Ascending, back, Rising(s));
  }

  /** Full houses are compared by the higher of their two ranks, whether it is the rank of
      the three or of the pair, and then by the suit of their second highest card. */
  lemma FullHouseByHigherRank(a: PokerSet, b: PokerSet)
    requires Shape(a) && Shape(b) && a.classing == 5 && b.classing == 5
    ensures Beats(a, b) <==>
              || a.cards[0].num > b.cards[0].num
              || (a.cards[0].num == b.cards[0].num && a.cards[1].suitnum > b.cards[1].suitnum)
  {
    HighRankTwice(a);
    HighRankTwice(b);
    RisingIs(a, 3);
    RisingIs(b, 3);
  }

  lemma HighRankTwice(s: PokerSet)
    requires Shape(s) && s.classing == 5
    ensures |s.cards| == 5 && s.cards[1].num == s.cards[0].num
  {
    var c := s.cards;
    if SameNum(c[..3]) && SameNum(c[3..]) {
      assert c[..3][1].num == c[..3][0].num;
    } else {
      assert c[..2][1].num == c[..2][0].num;
    }
  }

  predicate Disjoint(a: PokerSet, b: PokerSet) {
    forall c | c in a.cards :: c !in b.cards
  }

  /** Two sets of one class that share no card: one beats the other, and not the other way
      round, unless they are flushes of the same ranks, which cannot be compared. */
  lemma BeatsDecides(a: PokerSet, b: PokerSet)
    requires Shape(a) && Shape(b) && a.classing == b.classing && Disjoint(a, b)
    ensures Judge(a, b).OutOfRange? <==> a.classing == 4 && forall i | 0 <= i < 5 :: a.cards[i].num == b.cards[i].num
    ensures Judge(a, b).OutOfRange? <==> Judge(b, a).OutOfRange?
    ensures Beats(a, b) ==> !Beats(b, a)
    ensures !Judge(a, b).OutOfRange? ==> Beats(a, b) || Beats(b, a)
  {
    hide Shape, Sort, Rising, Ordered;
    ShapeSize(a);
    ShapeSize(b);
    NoCommonPlace(a, b);
    if a.classing == 7 || a.classing == 3 { RowsDecide(a, b); }
    if a.classing == 4 {
      var j, k := FirstDifference(Rising(a), Rising(b), 0), FirstDifference(Rising(b), Rising(a), 0);
      assert j == k;
      InOrder(a);
      InOrder(b);
      SameRanks(a, b);
    }
  }

  lemma RowsDecide(a: PokerSet, b: PokerSet)
    requires Shape(a) && Shape(b) && a.classing == b.classing && (a.classing == 7 || a.classing == 3)
    ensures a.level == b.level ==> Rising(a)[0].num == Rising(b)[0].num
  {
    RisingIs(a, 0);
    RisingIs(b, 0);
  }

  lemma RisingAll(s: PokerSet)
    requires Ordered(ByNum, s.cards)
    ensures forall k | 0 <= k < |s.cards| :: Rising(s)[k] == s.cards[|s.cards| - 1 - k]
    ensures forall k | 0 <= k < |s.cards| :: s.cards[k] == Rising(s)[|s.cards| - 1 - k]
  {
    hide Sort, Ordered, Rising;
    forall k | 0 <= k < |s.cards| ensures Rising(s)[k] == s.cards[|s.cards| - 1 - k] {
      RisingIs(s, k);
    }
  }

  lemma SameRanks(a: PokerSet, b: PokerSet)
    requires Ordered(ByNum, a.cards) && Ordered(ByNum, b.cards) && |a.cards| == |b.cards| == 5
    ensures (forall i | 0 <= i < 5 :: a.cards[i].num == b.cards[i].num)
            <==> (forall i | 0 <= i < 5 :: Rising(a)[i].num == Rising(b)[i].num)
  {
    hide Sort, Ordered, Rising;
    RisingAll(a);
    RisingAll(b);
  }

  lemma InOrder(s: PokerSet)
    requires Shape(s)
    ensures Ordered(ByNum, s.cards)
  {
  }

  lemma NoCommonPlace(a: PokerSet, b: PokerSet)
    requires Disjoint(a, b)
    ensures forall i, j | 0 <= i < |a.cards| && 0 <= j < |b.cards| :: Rising(a)[i] != Rising(b)[j]
  {
    forall i, j | 0 <= i < |a.cards| && 0 <= j < |b.cards| ensures Rising(a)[i] != Rising(b)[j] {
      assert Rising(a)[i] in multiset(a.cards) && Rising(b)[j] in multiset(b.cards);
      assert Rising(a)[i] in a.cards && Rising(b)[j] in b.cards;
    }
  }

  // ---------- choosing a set ----------

  predicate Ascends(sets: seq<PokerSet>) {
    forall i, j | 0 <= i < j < |sets| :: !SetLess(sets[j], sets[i])
  }

  lemma NotLessTransitive(a: PokerSet, b: PokerSet, c: PokerSet)
    requires !SetLess(b, a) && !SetLess(c, b)
    ensures !SetLess(c, a)
  {
  }

  lemma NotLessUnder(s: PokerSet, x: PokerSet)
    requires SetLess(s, x)
    ensures !SetLess(x, s)
  {
  }

  lemma InsertSet(r: seq<PokerSet>, j: nat, s: PokerSet)
    requires j <= |r| && Ascends(r) && (forall k | j <= k < |r| :: SetLess(s, r[k]))
             && (j > 0 ==> !SetLess(s, r[j - 1]))
    ensures Ascends(r[..j] + [s] + r[j..])
  {
    hide SetLess;
    var q := r[..j] + [s] + r[j..];
    forall a, b | 0 <= a < b < |q| ensures !SetLess(q[b], q[a]) {
      var x, y := q[a], q[b];
      if b < j {
        assert x == r[a] && y == r[b];
      } else if a > j {
        assert x == r[a - 1] && y == r[b - 1];
      } else if a < j < b {
        assert x == r[a] && y == r[b - 1];
      } else if a == j {
        assert x == s && y == r[b - 1];
        NotLessUnder(s, y);
      } else {
        assert x == r[a] && y == s;
        if a < j - 1 { NotLessTransitive(x, r[j - 1], s); }
      }
    }
  }

  lemma InsertedSet(r: seq<PokerSet>, j: nat, s: PokerSet)
    requires j <= |r|
    ensures multiset(r[..j] + [s] + r[j..]) == multiset(r) + multiset{s}
  {
    assert r == r[..j] + r[j..];
  }

  /** sorted(by: <) on sets. */
  method SortSets(sets: seq<PokerSet>) returns (r: seq<PokerSet>)
    ensures multiset(r) == multiset(sets) && Ascends(r)
  {
    r := [];
    for i := 0 to |sets|
      invariant multiset(r) == multiset(sets[..i]) && Ascends(r)
    {
      hide Ascends, SetLess;
      var j := |r|;
      while j > 0 && SetLess(sets[i], r[j - 1])
        invariant 0 <= j <= |r| && forall k | j <= k < |r| :: SetLess(sets[i], r[k])
      {
        j := j - 1;
      }
      InsertSet(r, j, sets[i]);
      InsertedSet(r, j, sets[i]);
      assert sets[..i + 1] == sets[..i] + [sets[i]];
      r := r[..j] + [sets[i]] + r[j..];
    }
    assert sets[..|sets|] == sets;
  }

  lemma SameButOne(a: multiset<PokerSet>, b: multiset<PokerSet>, s: PokerSet)
    requires a + multiset{s} == b + multiset{s}
    ensures a == b
  {
    assert a == (a + multiset{s}) - multiset{s};
    assert b == (b + multiset{s}) - multiset{s};
  }

  lemma WithoutSet(b: seq<PokerSet>, i: nat)
    requires i < |b|
    ensures multiset(b) == multiset(b[..i] + b[i + 1..]) + multiset{b[i]}
  {
    assert b == b[..i] + [b[i]] + b[i + 1..];
  }

  lemma LastOut(p: multiset<Card>, c: multiset<Card>, q: multiset<Card>)
    ensures (p + c) + q == (p + q) + c
  {
  }

  lemma CardsWithoutSet(b: seq<PokerSet>, i: nat)
    requires i < |b|
    ensures CardsOf(b) == CardsOf(b[..i] + b[i + 1..]) + multiset(b[i].cards)
  {
    hide CardsOf;
    assert b == (b[..i] + [b[i]]) + b[i + 1..];
    CardsOfConcat(b[..i], b[i + 1..]);
    CardsOfConcat(b[..i] + [b[i]], b[i + 1..]);
    CardsOfOneMore(b[..i], b[i]);
    LastOut(CardsOf(b[..i]), multiset(b[i].cards), CardsOf(b[i + 1..]));
  }

  lemma {:induction false} CardsOfPermuted(a: seq<PokerSet>, b: seq<PokerSet>)
    requires multiset(a) == multiset(b)
    ensures CardsOf(a) == CardsOf(b)
  {
    if a == [] {
      assert |multiset(b)| == |b| == 0;
    } else {
      var n := |a| - 1;
      assert a[n] in multiset(b);
      var i :| 0 <= i < |b| && b[i] == a[n];
      hide CardsOf;
      WithoutSet(a, n);
      WithoutSet(b, i);
      assert a[..n] + a[n + 1..] == a[..n];
      SameButOne(multiset(a[..n]), multiset(b[..i] + b[i + 1..]), a[n]);
      CardsOfPermuted(a[..n], b[..i] + b[i + 1..]);
      CardsWithoutSet(a, n);
      CardsWithoutSet(b, i);
    }
  }

  method RemoveCard(cards: seq<Card>, c: Card) returns (last: seq<Card>)
    ensures multiset(last) == multiset(cards) - multiset{c}
  {
    var j := 0;
    while j < |cards| && cards[j] != c
      invariant 0 <= j <= |cards| && c !in cards[..j]
    {
      j := j + 1;
    }
    if j < |cards| {
      last := RemoveAt(cards, j);
    } else {
      last := cards;
      assert cards[..j] == cards;
    }
  }

  lemma OneMoreGone(cards: multiset<Card>, play: multiset<Card>, c: Card)
    ensures (cards - play) - multiset{c} == cards - (play + multiset{c})
  {
  }

  lemma OneMorePlayed(play: seq<Card>, i: nat)
    requires i < |play|
    ensures multiset(play[..i + 1]) == multiset(play[..i]) + multiset{play[i]}
  {
    assert play[..i + 1] == play[..i] + [play[i]];
  }

  /** Removes the first copy of each of the play's cards. */
  method RemovePlay(cards: seq<Card>, play: seq<Card>) returns (last: seq<Card>)
    ensures multiset(last) == multiset(cards) - multiset(play)
  {
    last := cards;
    var i := 0;
    while i < |play|
      invariant 0 <= i <= |play| && multiset(last) == multiset(cards) - multiset(play[..i])
    {
      OneMoreGone(multiset(cards), multiset(play[..i]), play[i]);
      OneMorePlayed(play, i);
      last := RemoveCard(last, play[i]);
      i := i + 1;
    }
    assert play[..|play|] == play;
  }

  /** The set with the three of clubs. */
  method FindClubThree(tmp: seq<PokerSet>) returns (rtn: PokerSet)
    ensures rtn == NO_SET || (rtn in tmp && CLUB_THREE in rtn.cards)
    ensures rtn == NO_SET ==> forall s | s in tmp :: CLUB_THREE !in s.cards
  {
    rtn := NO_SET;
    var i := 0;
    while i < |tmp|
      invariant 0 <= i <= |tmp| && rtn == NO_SET && forall k | 0 <= k < i :: CLUB_THREE !in tmp[k].cards
    {
      var j := 0;
      while j < |tmp[i].cards|
        invariant 0 <= j <= |tmp[i].cards| && CLUB_THREE !in tmp[i].cards[..j]
      {
        if tmp[i].cards[j].num == 0 && tmp[i].cards[j].suitnum == 0 {
          assert tmp[i].cards[j] == CLUB_THREE;
          return tmp[i];
        }
        j := j + 1;
      }
      assert tmp[i].cards[..j] == tmp[i].cards;
      i := i + 1;
    }
  }

  /** The comparison of two flushes, rank by rank from the lowest; past the end if all ranks
      are the same. */
  method CompareFlushes(tmpI: seq<Card>, deskJ: seq<Card>) returns (v: Verdict)
    requires |tmpI| == |deskJ| == 5
    ensures var j := FirstDifference(tmpI, deskJ, 0);
            v == if j == 5 then OutOfRange else WinsIf(tmpI[j].num > deskJ[j].num)
  {
    var j := 0;
    while j < |deskJ| && tmpI[j].num == deskJ[j].num
      invariant 0 <= j <= 5 && FirstDifference(tmpI, deskJ, 0) == FirstDifference(tmpI, deskJ, j)
    {
      j := j + 1;
    }
    v := if j == |deskJ| then OutOfRange else WinsIf(tmpI[j].num > deskJ[j].num);
  }

  /** The first set that the test does not reject. */
  method FindBeating(tmp: seq<PokerSet>, desk: PokerSet) returns (v: Verdict, i: nat)
    requires AllShaped(tmp) && OnDesk(desk)
    ensures i <= |tmp| && forall k | 0 <= k < i :: Judge(tmp[k], desk).Loses?
    ensures v == if i < |tmp| then Judge(tmp[i], desk) else Loses
    ensures v.Loses? ==> i == |tmp|
  {
    hide Shape, Sort;
    i := 0;
    v := Loses;
    while i < |tmp|
      invariant 0 <= i <= |tmp| && v.Loses? && forall k | 0 <= k < i :: Judge(tmp[k], desk).Loses?
    {
      var s := tmp[i];
      assert Shape(s);
      ShapeSize(s);
      if desk.classing != -1 { ShapeSize(desk); }
      var tmpI, deskJ := Rising(s), Rising(desk);
      if desk.classing > 2 {
        if s.classing > desk.classing {
          v := Wins;
        } else if s.classing == desk.classing {
          if desk.classing == 7 || desk.classing == 3 {
            v := WinsIf(s.level > desk.level || (s.level == desk.level && tmpI[0].suitnum > deskJ[0].suitnum));
          } else if desk.classing == 6 {
            v := WinsIf(Less(deskJ[|deskJ| - 1], tmpI[|tmpI| - 1]));
          } else if desk.classing == 5 {
            v := WinsIf(Less(deskJ[3], tmpI[3]));
          } else {
            v := CompareFlushes(tmpI, deskJ);
          }
        }
      } else if s.classing == desk.classing {
        v := WinsIf(Less(deskJ[|deskJ| - 1], tmpI[|tmpI| - 1]));
      }
      if !v.Loses? { return; }
      i := i + 1;
    }
  }

  lemma PermutedSets(a: seq<PokerSet>, b: seq<PokerSet>)
    requires multiset(a) == multiset(b) && AllShaped(a)
    ensures AllShaped(b) && CardsOf(a) == CardsOf(b)
  {
    CardsOfPermuted(a, b);
    forall s | s in b ensures Shape(s) {
      assert s in multiset(b) && s in multiset(a);
    }
  }

  lemma PlayWithin(tmp: seq<PokerSet>, rtn: PokerSet, cards: seq<Card>)
    requires CardsOf(tmp) == multiset(cards) && (rtn in tmp || rtn == NO_SET)
    ensures multiset(cards) == multiset(rtn.cards) + (multiset(cards) - multiset(rtn.cards))
  {
    if rtn in tmp { SetWithin(tmp, rtn); }
  }

  lemma {:induction false} InSomeSet(tmp: seq<PokerSet>, c: Card)
    requires c in CardsOf(tmp)
    ensures exists s | s in tmp :: c in s.cards
  {
    var n := |tmp| - 1;
    if c in multiset(tmp[n].cards) {
      assert tmp[n] in tmp;
    } else {
      InSomeSet(tmp[..n], c);
    }
  }

  /** The sets of a hand, as ClassingPokers makes them, in any order. */
  ghost predicate GreedySplit(cards: seq<Card>, tmp: seq<PokerSet>) {
    && CardsOf(tmp) == multiset(cards) && AllShaped(tmp)
    && exists grouped, single :: multiset(tmp) == multiset(grouped + AsSingles(single))
        && Greedy(cards, grouped, single)
  }

  /** The first set that the test does not reject is a flush it cannot compare. */
  predicate TieFirst(tmp: seq<PokerSet>, desk: PokerSet)
    requires AllShaped(tmp) && OnDesk(desk)
  {
    exists k | 0 <= k < |tmp| :: Judge(tmp[k], desk).OutOfRange? && forall j | 0 <= j < k :: Judge(tmp[j], desk).Loses?
  }

  /** The set played from these sets of the hand, or NO_SET for a pass. Action 0 opens the
      game, with the three of clubs; action 1 leads, with a highest set; action 2 follows,
      with a lowest set that beats the desk, and without meeting a tie before. */
  ghost predicate Chosen(cards: seq<Card>, desk: PokerSet, action: int, s: PokerSet, tmp: seq<PokerSet>)
    requires OnDesk(desk)
  {
    && GreedySplit(cards, tmp) && (s == NO_SET || s in tmp)
    && (action == 0 ==> (s != NO_SET <==> CLUB_THREE in cards) && (s != NO_SET ==> CLUB_THREE in s.cards))
    && (action == 1 ==> s != NO_SET && forall x | x in tmp :: !SetLess(s, x))
    && (action == 2 && s != NO_SET ==> Beats(s, desk) && forall x | x in tmp && Beats(x, desk) :: !SetLess(x, s))
    && (action == 2 && s == NO_SET ==> forall x | x in tmp :: !Beats(x, desk))
    && (action == 2 ==> !TieFirst(tmp, desk))
  }

  /** Hands for which ClassingPokers does not fail: few cards, or a hand of a game that does
      not meet the condition. */
  ghost predicate Classifiable(cards: seq<Card>) {
    |cards| < 10 || (Distinct(cards) && |cards| <= 13 && !TrapsClassing(cards))
  }

  /** ComputerPoker. The sets are visited in the order of `tmp`. It fails exactly if
      ClassingPokers does, if it is to lead without cards, or if it is to follow and meets a
      tie before a set that beats the desk. */
  method ComputerPoker(cards: seq<Card>, desk: PokerSet, action: int)
    returns (trapped: bool, rtn: PokerSet, last: seq<Card>, ghost tmp: seq<PokerSet>)
    requires OnDesk(desk)
    ensures !trapped ==> Chosen(cards, desk, action, rtn, tmp)
    ensures !trapped ==> multiset(rtn.cards) + multiset(last) == multiset(cards)
    ensures Distinct(cards) && |cards| <= 13 && TrapsClassing(cards) ==> trapped
    ensures Classifiable(cards) ==> GreedySplit(cards, tmp) && Ascends(tmp)
    ensures Classifiable(cards) ==>
              (trapped <==> (action == 1 && cards == []) || (action == 2 && TieFirst(tmp, desk)))
  {
    hide Shape, CardsOf, TrapsClassing, Distinct, Greedy, Judge, SetLess, AsSingles;
    rtn, last, tmp := NO_SET, cards, [];
    var sets: seq<PokerSet>;
    ghost var grouped, single;
    trapped, sets, grouped, single := ClassingPokers(cards);
    if trapped { return; }
    var found := SortSets(sets);
    tmp := found;
    PermutedSets(sets, found);
    assert GreedySplit(cards, found);
    hide GreedySplit, TieFirst, Ascends;
    NoCardsNoSets(found, cards);
    if action == 0 {
      rtn := FindClubThree(found);
      ClubThree(found, rtn, cards);
    } else if action == 1 {
      if found == [] {
        trapped := true;
        return;
      }
      rtn := found[|found| - 1];
      ShapeSize(rtn);
      LastIsTop(found);
    } else if action == 2 {
      var v, i := FindBeating(found, desk);
      TieMeans(found, desk, v, i);
      if v.OutOfRange? {
        trapped := true;
        return;
      }
      if v.Wins? {
        rtn := found[i];
        ShapeSize(rtn);
        FirstIsLeast(found, i, desk);
      }
    }
    PlayWithin(found, rtn, cards);
    last := RemovePlay(cards, rtn.cards);
  }

  lemma TieMeans(tmp: seq<PokerSet>, desk: PokerSet, v: Verdict, i: nat)
    requires AllShaped(tmp) && OnDesk(desk) && i <= |tmp| && forall k | 0 <= k < i :: Judge(tmp[k], desk).Loses?
    requires v == (if i < |tmp| then Judge(tmp[i], desk) else Loses) && (v.Loses? ==> i == |tmp|)
    ensures TieFirst(tmp, desk) <==> v.OutOfRange?
  {
    hide Judge, Shape;
    if TieFirst(tmp, desk) {
      var k :| 0 <= k < |tmp| && Judge(tmp[k], desk).OutOfRange? && forall j | 0 <= j < k :: Judge(tmp[j], desk).Loses?;
      assert k == i;
    }
  }

  lemma ClubThree(tmp: seq<PokerSet>, rtn: PokerSet, cards: seq<Card>)
    requires CardsOf(tmp) == multiset(cards)
    requires rtn == NO_SET || (rtn in tmp && CLUB_THREE in rtn.cards)
    requires rtn == NO_SET ==> forall s | s in tmp :: CLUB_THREE !in s.cards
    ensures rtn != NO_SET <==> CLUB_THREE in cards
  {
    if rtn != NO_SET {
      SetWithin(tmp, rtn);
      assert CLUB_THREE in multiset(rtn.cards);
    } else if CLUB_THREE in cards {
      InSomeSet(tmp, CLUB_THREE);
    }
  }

  lemma NoCardsNoSets(tmp: seq<PokerSet>, cards: seq<Card>)
    requires CardsOf(tmp) == multiset(cards) && AllShaped(tmp)
    ensures tmp == [] <==> cards == []
  {
    assert |multiset(cards)| == |cards|;
    if tmp != [] {
      ShapeSize(tmp[0]);
      SetWithin(tmp, tmp[0]);
      assert tmp[0].cards[0] in multiset(tmp[0].cards);
    }
  }

  lemma LastIsTop(tmp: seq<PokerSet>)
    requires tmp != [] && Ascends(tmp)
    ensures forall s | s in tmp :: !SetLess(tmp[|tmp| - 1], s)
  {
  }

  lemma FirstIsLeast(tmp: seq<PokerSet>, i: nat, desk: PokerSet)
    requires AllShaped(tmp) && OnDesk(desk) && Ascends(tmp) && i < |tmp|
    requires forall k | 0 <= k < i :: Judge(tmp[k], desk).Loses?
    ensures forall s | s in tmp && Beats(s, desk) :: !SetLess(s, tmp[i])
  {
    hide Judge, Shape;
    forall s | s in tmp && Beats(s, desk) ensures !SetLess(s, tmp[i]) {
      var k :| 0 <= k < |tmp| && tmp[k] == s;
      assert k >= i;
    }
  }
}
