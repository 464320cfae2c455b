/** The state of a Big Two game, the steps of GamePage.swift on it, and what every step keeps. */
module GameState {
  import opened Cards
  import opened Classing
  import opened ComputerPlay
  import opened Ties

  /** The human's hand and picked cards, the computers' hands (from place 1 on), who has
      passed and who has won in what order, the set on the desk, the sets played since a
      player last led, and all cards played. */
  datatype State = State(
    user: seq<Card>, pre: seq<Card>, hands: seq<seq<Card>>,
    passed: seq<bool>, won: seq<bool>, rank: seq<nat>,
    desk: PokerSet, trick: seq<PokerSet>, played: multiset<Card>)

  // ---------- what every state keeps ----------

  predicate Seated(t: State) {
    |t.hands| == |t.passed| == |t.won| == 4
  }

  function AllCards(t: State): multiset<Card>
    requires Seated(t)
  {
    multiset(t.user) + multiset(t.pre)
    + (multiset(t.hands[1]) + multiset(t.hands[2]) + multiset(t.hands[3])) + t.played
  }

  predicate HandsFit(t: State)
    requires Seated(t)
  {
    && |t.pre| <= 5 && |t.user| + |t.pre| <= 13
    && |t.hands[1]| <= 13 && |t.hands[2]| <= 13 && |t.hands[3]| <= 13
  }

  /** The players without cards are those that have won. */
  predicate WonIfOut(t: State)
    requires Seated(t)
  {
    && (t.won[0] <==> t.user == [] && t.pre == [])
    && (t.won[1] <==> t.hands[1] == []) && (t.won[2] <==> t.hands[2] == []) && (t.won[3] <==> t.hands[3] == [])
  }

  /** Who has won, in order, and that they count as passed. */
  predicate Ranking(won: seq<bool>, passed: seq<bool>, rank: seq<nat>)
    requires |won| == |passed| == 4
  {
    && (forall i: nat | i < 4 :: won[i] <==> i in rank)
    && (forall k | 0 <= k < |rank| :: rank[k] < 4)
    && (forall j, k | 0 <= j < k < |rank| :: rank[j] != rank[k])
    && (forall i | 0 <= i < 4 :: won[i] ==> passed[i])
  }

  /** The sets played since a player last led: each beats all before it. */
  ghost predicate Climbs(trick: seq<PokerSet>) {
    && AllShaped(trick)
    && forall i, j | 0 <= i < j < |trick| :: Shape(trick[i]) && Shape(trick[j]) && Beats(trick[j], trick[i])
  }

  /** All 52 cards are in one place each; the players without cards are those that have won,
      ranked once each and passed; and the sets played since the last lead climb to the desk. */
  ghost predicate Sound(t: State) {
    && Seated(t) && IsDeck(AllCards(t)) && HandsFit(t) && WonIfOut(t) && Ranking(t.won, t.passed, t.rank)
    && OnDesk(t.desk) && Climbs(t.trick) && (t.trick != [] ==> t.trick[|t.trick| - 1] == t.desk)
  }

  lemma SoundMeans(t: State)
    requires Sound(t)
    ensures Seated(t) && OnDesk(t.desk) && HandsFit(t)
    ensures forall i | 0 <= i < 4 :: t.won[i] ==> t.passed[i]
    ensures t.won[0] <==> t.user == [] && t.pre == []
    ensures forall i | 0 < i < 4 :: |t.hands[i]| <= 13 && (t.won[i] <==> t.hands[i] == [])
  {
    hide IsDeck, Climbs, OnDesk;
  }

  /** No card is in two places, so no hand repeats one. */
  lemma HandDistinct(t: State)
    requires Seated(t) && IsDeck(AllCards(t))
    ensures Distinct(t.pre) && forall i | 0 < i < 4 :: Distinct(t.hands[i])
  {
    hide Distinct;
    var all := AllCards(t);
    assert multiset(t.pre) <= all && multiset(t.hands[1]) <= all && multiset(t.hands[2]) <= all
           && multiset(t.hands[3]) <= all;
    DistinctIff(t.pre);
    DistinctIff(t.hands[1]);
    DistinctIff(t.hands[2]);
    DistinctIff(t.hands[3]);
  }

  lemma SoundDistinct(t: State)
    requires Sound(t)
    ensures Seated(t) && Distinct(t.pre) && forall i | 0 < i < 4 :: Distinct(t.hands[i])
  {
    hide IsDeck, Climbs, OnDesk, Distinct;
    HandDistinct(t);
  }

  // ---------- the climb ----------

  lemma ClimbsOn(trick: seq<PokerSet>, s: PokerSet, desk: PokerSet)
    requires Climbs(trick) && Shape(s) && OnDesk(desk) && Beats(s, desk) && (trick != [] ==> trick[|trick| - 1] == desk)
    ensures Climbs(trick + [s])
  {
    hide Shape, Beats;
    if trick != [] { assert trick[|trick| - 1] in trick; }
    var t := trick + [s];
    forall i, j | 0 <= i < j < |t| ensures Shape(t[i]) && Shape(t[j]) && Beats(t[j], t[i]) {
      if j < |trick| {
        assert t[i] == trick[i] && t[j] == trick[j];
      } else {
        assert t[i] == trick[i] && trick[i] in trick;
        if i < |trick| - 1 { BeatsTransitive(s, trick[|trick| - 1], trick[i]); }
      }
    }
  }

  function NextTrick(trick: seq<PokerSet>, act: int, s: PokerSet): (t: seq<PokerSet>)
    ensures t != [] && t[|t| - 1] == s
  {
    if act == 2 then trick + [s] else [s]
  }

  lemma NextClimbs(trick: seq<PokerSet>, act: int, s: PokerSet, desk: PokerSet)
    requires Climbs(trick) && Shape(s) && OnDesk(desk) && (trick != [] ==> trick[|trick| - 1] == desk)
    requires act == 2 ==> Beats(s, desk)
    ensures Climbs(NextTrick(trick, act, s))
  {
    if act == 2 { ClimbsOn(trick, s, desk); }
  }

  // ---------- the ranking ----------

  lemma RankingMore(won: seq<bool>, passed: seq<bool>, rank: seq<nat>, i: nat)
    requires |won| == |passed| == 4 && Ranking(won, passed, rank) && i < 4 && !won[i]
    ensures Ranking(won[i := true], passed[i := true], rank + [i])
    ensures Ranking(won, passed[i := true], rank) && Ranking(won, passed[i := false], rank)
  {
    assert i !in rank;
  }

  /** All have won: the ranking has the four of them. */
  lemma RankingFull(won: seq<bool>, passed: seq<bool>, rank: seq<nat>)
    requires |won| == |passed| == 4 && Ranking(won, passed, rank) && won[0] && won[1] && won[2] && won[3]
    ensures |rank| == 4
  {
    assert 0 in rank && 1 in rank && 2 in rank && 3 in rank;
    var a :| 0 <= a < |rank| && rank[a] == 0;
    var b :| 0 <= b < |rank| && rank[b] == 1;
    var c :| 0 <= c < |rank| && rank[c] == 2;
    var d :| 0 <= d < |rank| && rank[d] == 3;
    var four := {a, b, c, d};
    forall k | 0 <= k < |rank| ensures k in four {
      assert rank[k] < 4;
    }
    AtMost(|rank|, four);
  }

  lemma {:induction false} AtMost(n: nat, places: set<int>)
    requires forall k | 0 <= k < n :: k in places
    ensures n <= |places|
  {
    if n > 0 {
      AtMost(n - 1, places - {n - 1});
    }
  }

  lemma SoundFull(t: State)
    requires Sound(t) && t.won[0] && t.won[1] && t.won[2] && t.won[3]
    ensures |t.rank| == 4
  {
    hide IsDeck, Climbs, OnDesk;
    RankingFull(t.won, t.passed, t.rank);
  }

  // ---------- the steps ----------

  /** Player i has played: out of cards, it has won and counts as passed from now on. */
  function Finished(t: State, i: nat, out: bool): State
    requires i < |t.won| == |t.passed|
  {
    if out then t.(won := t.won[i := true], passed := t.passed[i := true], rank := t.rank + [i])
    else t
  }

  /** A set goes to the desk. */
  function Shown(t: State, i: nat, act: int, s: PokerSet): (r: State)
    requires i < |t.passed|
    ensures |r.passed| == |t.passed| && r.won == t.won && r.hands == t.hands
  {
    t.(passed := t.passed[i := false], desk := s, trick := NextTrick(t.trick, act, s),
       played := t.played + multiset(s.cards))
  }

  /** Computer i plays the set s and keeps `last`. */
  function ComputerPlayed(t: State, i: nat, act: int, s: PokerSet, last: seq<Card>): State
    requires Seated(t) && i < 4
  {
    Finished(Shown(t, i, act, s).(hands := t.hands[i := last]), i, last == [])
  }

  /** The human plays the set s and keeps `left` of the picked cards. */
  function HumanPlayed(t: State, act: int, s: PokerSet, left: seq<Card>): State
    requires Seated(t)
  {
    Finished(Shown(t, 0, act, s).(pre := left), 0, t.user == [] && left == [])
  }

  function PlayerPassed(t: State, i: nat): State
    requires i < |t.passed|
  {
    t.(passed := t.passed[i := true])
  }

  lemma HandSize(last: seq<Card>, play: seq<Card>, hand: seq<Card>)
    requires multiset(play) + multiset(last) == multiset(hand)
    ensures |last| + |play| == |hand|
  {
    assert |multiset(play) + multiset(last)| == |play| + |last|;
    assert |multiset(hand)| == |hand|;
  }

  lemma CardsMove(rest: multiset<Card>, last: multiset<Card>, play: multiset<Card>, hand: multiset<Card>,
      b: multiset<Card>, c: multiset<Card>, played: multiset<Card>)
    requires play + last == hand
    ensures rest + (last + b + c) + (played + play) == rest + (hand + b + c) + played
    ensures rest + (b + last + c) + (played + play) == rest + (b + hand + c) + played
    ensures rest + (b + c + last) + (played + play) == rest + (b + c + hand) + played
  {
  }

  lemma ComputerCards(t: State, i: nat, act: int, s: PokerSet, last: seq<Card>)
    requires Seated(t) && 0 < i < 4 && multiset(s.cards) + multiset(last) == multiset(t.hands[i])
    ensures Seated(ComputerPlayed(t, i, act, s, last))
    ensures AllCards(ComputerPlayed(t, i, act, s, last)) == AllCards(t)
  {
    var rest, play, l, h := multiset(t.user) + multiset(t.pre), multiset(s.cards), multiset(last), multiset(t.hands[i]);
    hide NextTrick;
    if i == 1 {
      CardsMove(rest, l, play, h, multiset(t.hands[2]), multiset(t.hands[3]), t.played);
    } else if i == 2 {
      CardsMove(rest, l, play, h, multiset(t.hands[1]), multiset(t.hands[3]), t.played);
    } else {
      CardsMove(rest, l, play, h, multiset(t.hands[1]), multiset(t.hands[2]), t.played);
    }
  }

  /** A computer's play keeps the invariant. */
  lemma SoundComputer(t: State, i: nat, act: int, s: PokerSet, last: seq<Card>)
    requires Sound(t) && 0 < i < 4 && !t.won[i] && Shape(s) && s.cards != []
    requires multiset(s.cards) + multiset(last) == multiset(t.hands[i])
    requires act == 2 ==> Beats(s, t.desk)
    ensures Seated(t) && |last| < |t.hands[i]|
    ensures Sound(ComputerPlayed(t, i, act, s, last))
  {
    hide IsDeck, Shape, Climbs, Beats, AllCards, NextTrick;
    NextClimbs(t.trick, act, s, t.desk);
    ComputerCards(t, i, act, s, last);
    HandSize(last, s.cards, t.hands[i]);
    hide Ranking;
    RankingMore(t.won, t.passed, t.rank, i);
    assert t.passed[i := false][i := true] == t.passed[i := true];
  }

  lemma FewerCards(t: State, i: nat, s: PokerSet, last: seq<Card>)
    requires Seated(t) && 0 < i < 4 && s.cards != []
    requires multiset(s.cards) + multiset(last) == multiset(t.hands[i])
    ensures |last| < |t.hands[i]|
  {
    HandSize(last, s.cards, t.hands[i]);
  }

  lemma HumanCards(t: State, act: int, s: PokerSet, left: seq<Card>)
    requires Seated(t) && multiset(s.cards) + multiset(left) == multiset(t.pre)
    ensures Seated(HumanPlayed(t, act, s, left))
    ensures AllCards(HumanPlayed(t, act, s, left)) == AllCards(t)
  {
  }

  /** The human's play keeps the invariant. */
  lemma SoundHuman(t: State, act: int, s: PokerSet, left: seq<Card>)
    requires Sound(t) && Shape(s) && s.cards != []
    requires multiset(s.cards) + multiset(left) == multiset(t.pre)
    requires act == 2 ==> Beats(s, t.desk)
    ensures Seated(t) && !t.won[0] && |left| < |t.pre|
    ensures Sound(HumanPlayed(t, act, s, left))
  {
    hide IsDeck, Shape, Climbs, Beats, AllCards, NextTrick;
    NextClimbs(t.trick, act, s, t.desk);
    HumanCards(t, act, s, left);
    HandSize(left, s.cards, t.pre);
    hide Ranking;
    RankingMore(t.won, t.passed, t.rank, 0);
    assert t.passed[0 := false][0 := true] == t.passed[0 := true];
  }

  lemma SoundPassed(t: State, i: nat)
    requires Sound(t) && i < 4
    ensures Seated(t) && Sound(PlayerPassed(t, i))
  {
    hide IsDeck, Climbs, OnDesk;
    assert AllCards(PlayerPassed(t, i)) == AllCards(t);
  }

  /** The human moves cards between hand and picked cards. */
  lemma SoundMoved(t: State, user: seq<Card>, pre: seq<Card>)
    requires Sound(t) && |pre| <= 5
    requires multiset(user) + multiset(pre) == multiset(t.user) + multiset(t.pre)
    ensures Sound(t.(user := user, pre := pre))
  {
    hide IsDeck, Ranking, Climbs, OnDesk;
    assert |multiset(user) + multiset(pre)| == |user| + |pre|;
    assert |multiset(t.user) + multiset(t.pre)| == |t.user| + |t.pre|;
    assert AllCards(t.(user := user, pre := pre)) == AllCards(t);
  }

  /** Only the computers' hands count: the copy of the human's does not; and once all have
      won, clearing the hands changes nothing. */
  lemma SoundCopy(t: State, copy: seq<Card>)
    requires Sound(t)
    ensures Seated(t) && Sound(t.(hands := t.hands[0 := copy]))
    ensures t.won[0] && t.won[1] && t.won[2] && t.won[3] ==> Sound(t.(hands := [[], [], [], []]))
  {
    hide IsDeck, Climbs, OnDesk, Ranking;
    assert AllCards(t.(hands := t.hands[0 := copy])) == AllCards(t);
    if t.won[0] && t.won[1] && t.won[2] && t.won[3] {
      assert AllCards(t.(hands := [[], [], [], []])) == AllCards(t);
    }
  }

  /** A fresh deal. */
  function NewGame(h: seq<seq<Card>>, desk: PokerSet): State
    requires |h| == 4
  {
    State(h[0], [], h, [false, false, false, false], [false, false, false, false], [], desk, [], multiset{})
  }

  lemma SoundDealt(h: seq<seq<Card>>, desk: PokerSet)
    requires |h| == 4 && OnDesk(desk) && forall i | 0 <= i < 4 :: |h[i]| == 13
    requires IsDeck(multiset(h[0]) + multiset(h[1]) + multiset(h[2]) + multiset(h[3]))
    ensures Sound(NewGame(h, desk))
  {
    hide IsDeck, OnDesk;
    assert |h[0]| == 13 && |h[1]| == 13 && |h[2]| == 13 && |h[3]| == 13;
    assert AllCards(NewGame(h, desk)) == multiset(h[0]) + multiset(h[1]) + multiset(h[2]) + multiset(h[3]);
  }

  /** What lies on the desk plays no part in opening and leading, and is replaced by the play;
      so the desk of the game before matters only to a player who follows on it. */
  lemma OpeningReplacesDesk(t: State, desk: PokerSet, i: nat, act: int, s: PokerSet, last: seq<Card>,
      sets: seq<PokerSet>)
    requires Seated(t) && i < 4 && act != 2 && OnDesk(t.desk) && OnDesk(desk)
    ensures Chosen(t.hands[i], t.desk, act, s, sets) <==> Chosen(t.hands[i], desk, act, s, sets)
    ensures Chosen(t.pre, t.desk, act, s, sets) <==> Chosen(t.pre, desk, act, s, sets)
    ensures ComputerPlayed(t, i, act, s, last) == ComputerPlayed(t.(desk := desk), i, act, s, last)
    ensures HumanPlayed(t, act, s, last) == HumanPlayed(t.(desk := desk), act, s, last)
    ensures ComputerPlayed(t, i, act, s, last).desk == s && HumanPlayed(t, act, s, last).desk == s
  {
    hide GreedySplit, Shape, Judge, SetLess;
  }

  /** The computer that holds the three of clubs opens a new game with it. */
  lemma FirstPlay(h: seq<seq<Card>>, desk: PokerSet, i: nat, s: PokerSet, sets: seq<PokerSet>)
    requires |h| == 4 && 0 < i < 4 && CLUB_THREE in h[i] && OnDesk(desk)
    requires Chosen(h[i], desk, if Alone(NewGame(h, desk).passed, i) then 1 else 0, s, sets)
    ensures s != NO_SET && CLUB_THREE in s.cards
  {
    hide GreedySplit, Shape, Judge, SetLess;
    assert !NewGame(h, desk).passed[0];
  }

  // ---------- progress ----------

  function Left(t: State): nat
    requires Seated(t)
  {
    |t.hands[1]| + |t.hands[2]| + |t.hands[3]|
  }

  /** The human's cards and standing are what they were, and cards once played stay so. */
  predicate OthersMoved(t: State, r: State) {
    && Seated(t) && Seated(r)
    && r.user == t.user && r.pre == t.pre && r.won[0] == t.won[0] && r.passed[0] == t.passed[0]
    && t.played <= r.played && Left(r) <= Left(t)
  }

  lemma OthersMovedOn(t: State, r: State, q: State)
    requires OthersMoved(t, r) && OthersMoved(r, q)
    ensures OthersMoved(t, q)
  {
  }

  lemma PassMoves(t: State, i: nat)
    requires Seated(t) && 0 < i < 4
    ensures OthersMoved(t, PlayerPassed(t, i)) && Left(PlayerPassed(t, i)) == Left(t)
  {
  }

  /** A computer that plays has fewer cards. */
  lemma PlayMoves(t: State, i: nat, act: int, s: PokerSet, last: seq<Card>)
    requires Seated(t) && 0 < i < 4 && |last| < |t.hands[i]|
    ensures var r := ComputerPlayed(t, i, act, s, last); OthersMoved(t, r) && Left(r) < Left(t)
  {
    hide NextTrick;
  }

  predicate AllPassed(t: State)
    requires Seated(t)
  {
    t.passed[0] && t.passed[1] && t.passed[2] && t.passed[3]
  }

  /** All other players have passed, or won. */
  predicate Alone(passed: seq<bool>, current: nat)
    requires |passed| == 4
  {
    forall i | 0 <= i < 4 :: i != current ==> passed[i]
  }

  /** A round after the human is out, up to player n: if nobody has played yet, those before n
      have passed; and if all had passed at the start, those before n have won. */
  predicate RoundTo(t: State, r: State, n: nat) {
    && Seated(t) && Seated(r) && Left(r) <= Left(t) && r.passed[0]
    && (Left(r) == Left(t) ==>
          && (forall k | 1 <= k < n && k < 4 :: r.passed[k])
          && (AllPassed(t) ==> AllPassed(r) && forall k | 1 <= k < n && k < 4 :: r.won[k]))
  }

  lemma RoundStarts(t: State)
    requires Seated(t)
    ensures OthersMoved(t, t) && (t.passed[0] ==> RoundTo(t, t, 1))
  {
  }

  lemma RoundSkips(t: State, r: State, n: nat)
    requires RoundTo(t, r, n) && 0 < n < 4 && r.won[n] && r.passed[n]
    ensures RoundTo(t, r, n + 1)
  {
    hide Left;
  }

  lemma RoundOn(t: State, r: State, q: State, n: nat)
    requires RoundTo(t, r, n) && 0 < n < 4 && Seated(q) && OthersMoved(r, q)
    requires (q == PlayerPassed(r, n) && !Alone(r.passed, n)) || Left(q) < Left(r)
    ensures RoundTo(t, q, n + 1)
  {
    hide Left;
    if q == PlayerPassed(r, n) {
      assert Left(q) == Left(r) by { PassMoves(r, n); }
    }
  }

  /** After a whole round the game is nearer to its end. */
  lemma RoundEnds(t: State, copy: seq<Card>, r: State)
    requires Seated(t) && RoundTo(t.(hands := t.hands[0 := copy]), r, 4)
    ensures Left(r) <= Left(t)
    ensures Left(r) == Left(t) ==> AllPassed(r) && (AllPassed(t) ==> r.won[1] && r.won[2] && r.won[3])
  {
  }

  lemma CopyMoves(t: State, copy: seq<Card>)
    requires Seated(t)
    ensures OthersMoved(t, t.(hands := t.hands[0 := copy])) && OthersMoved(t, t.(hands := [[], [], [], []]))
  {
  }

  // ---------- why the program can stop ----------

  /** Choosing a play of a computer fails: the flush pass reads out of range, or the computer
      is to follow and a flush taken from its hand has the ranks of the flush on the desk. */
  ghost predicate TrapReason(hand: seq<Card>, desk: PokerSet, act: int)
    requires OnDesk(desk)
  {
    TrapsClassing(hand) || (act == 2 && HandTies(hand, desk))
  }

  /** In these cases it fails for certain: in the second one, if no flush of the hand beats
      the desk, which the search might meet before the tie. */
  ghost predicate MustTrap(hand: seq<Card>, desk: PokerSet, act: int)
    requires OnDesk(desk)
  {
    TrapsClassing(hand) || (act == 2 && HandTies(hand, desk) && !FlushBeats(hand, desk))
  }

  lemma ComputerTraps(hand: seq<Card>, desk: PokerSet, act: int, tmp: seq<PokerSet>)
    requires OnDesk(desk) && hand != [] && Distinct(hand) && |hand| <= 13
    requires Classifiable(hand) ==> GreedySplit(hand, tmp) && Ascends(tmp)
    requires Classifiable(hand) ==> (act == 1 && hand == []) || (act == 2 && TieFirst(tmp, desk))
    ensures TrapReason(hand, desk, act)
  {
    hide GreedySplit, TieFirst, TrapsClassing, Distinct, HandTies, FlushBeats, Ascends;
    if Classifiable(hand) { HandTiesIff(hand, desk, tmp); }
  }

  lemma ComputerGoesOn(hand: seq<Card>, desk: PokerSet, act: int, tmp: seq<PokerSet>)
    requires OnDesk(desk) && Distinct(hand) && !TrapsClassing(hand)
    requires GreedySplit(hand, tmp) && Ascends(tmp) && (act == 2 ==> !TieFirst(tmp, desk))
    ensures !MustTrap(hand, desk, act)
  {
    hide GreedySplit, TieFirst, TrapsClassing, Distinct, HandTies, FlushBeats, Ascends;
    HandTiesIff(hand, desk, tmp);
  }

  /** What such a tie is. */
  lemma TieIsFlush(hand: seq<Card>, desk: PokerSet, tmp: seq<PokerSet>)
    requires OnDesk(desk) && GreedySplit(hand, tmp) && TieFirst(tmp, desk)
    ensures desk.classing == 4
    ensures exists s | s in tmp && s.classing == 4 :: multiset(s.cards) <= multiset(hand) && Judge(s, desk).OutOfRange?
  {
    hide Judge, Shape, CardsOf, Greedy;
    var k :| 0 <= k < |tmp| && Judge(tmp[k], desk).OutOfRange?;
    OnlyFlushesTie(tmp[k], desk);
    SetWithin(tmp, tmp[k]);
  }
}
