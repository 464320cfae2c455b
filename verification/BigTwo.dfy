/** A game of Big Two between a human (player 0) and three computers: the turns and the buttons
    of GamePage.swift. */
module BigTwo {
  import opened Cards
  import opened Classing
  import opened ComputerPlay
  import opened Ties
  import opened Dealing
  import opened GameState

  // ---------- who has passed, who has won ----------

  /** The player m turns after another. */
  function Turn(current: nat, m: nat): (p: nat)
    ensures p < 4
  {
    (current + m) % 4
  }

  lemma TurnByTurn(current: nat, k: nat)
    requires current < 4 && 1 <= k <= 4
    ensures Turn(Turn(current, k), 1) == Turn(current, k + 1)
    ensures Turn(current, k) == current <==> k == 4
  {
  }

  /** Are the flags of the k - 1 players after the current one all set? */
  predicate NextAll(flags: seq<bool>, current: nat, k: nat)
    requires |flags| == 4
  {
    k <= 1 || (NextAll(flags, current, k - 1) && flags[Turn(current, k - 1)])
  }

  lemma NextThree(flags: seq<bool>, current: nat)
    requires |flags| == 4 && current < 4
    ensures NextAll(flags, current, 4) <==> Alone(flags, current)
  {
    assert NextAll(flags, current, 2) <==> flags[Turn(current, 1)];
    assert NextAll(flags, current, 3) <==> flags[Turn(current, 1)] && flags[Turn(current, 2)];
    if current == 0 {
    } else if current == 1 {
    } else if current == 2 {
    }
  }

  /** A player whom all others leave alone leads. */
  function TurnAct(passed: seq<bool>, current: nat, act: int): int
    requires |passed| == 4
  {
    if Alone(passed, current) then 1 else act
  }

  /** othersPassed */
  method OthersPassed(playersPassed: seq<bool>, current: nat) returns (rtn: bool)
    requires |playersPassed| == 4 && current < 4
    ensures rtn <==> Alone(playersPassed, current)
  {
    hide Turn, Alone;
    var p := Turn(current, 1);
    rtn := true;
    ghost var k := 1;
    TurnByTurn(current, 1);
    while p != current
      invariant 1 <= k <= 4 && p == Turn(current, k) && (p == current <==> k == 4)
      invariant rtn == NextAll(playersPassed, current, k)
      decreases 4 - k
    {
      rtn := rtn && playersPassed[p];
      TurnByTurn(current, k);
      TurnByTurn(current, k + 1);
      p := Turn(p, 1);
      k := k + 1;
    }
    NextThree(playersPassed, current);
  }

  /** othersWinned; -1 asks about all players. */
  method OthersWinned(winnedPlayer: seq<bool>, current: int) returns (rtn: bool)
    requires |winnedPlayer| == 4 && -1 <= current < 4
    ensures rtn <==> if current >= 0 then Alone(winnedPlayer, current) else forall i | 0 <= i < 4 :: winnedPlayer[i]
  {
    hide Turn, Alone;
    rtn := true;
    if current == -1 {
      for i := 0 to 4
        invariant rtn <==> forall m | 0 <= m < i :: winnedPlayer[m]
      {
        rtn := rtn && winnedPlayer[i];
      }
      return;
    }
    var p := Turn(current, 1);
    for k := 1 to 4
      invariant p == Turn(current, k) && rtn == NextAll(winnedPlayer, current, k)
    {
      rtn := rtn && winnedPlayer[p];
      TurnByTurn(current, k);
      p := Turn(p, 1);
    }
    NextThree(winnedPlayer, current);
  }

  // ---------- the game ----------

  class Game {
    /** players[i].cards; the human's are only filled in from userPlayerCards as a turn starts */
    var hands: seq<seq<Card>>
    var userPlayerCards: seq<Card>
    /** The cards the human has picked to play. */
    var userPreDeskCards: seq<Card>
    var desk: PokerSet
    var playersPassed: seq<bool>
    var winnedPlayer: seq<bool>
    var winnerRank: seq<nat>
    /** 0: open with the three of clubs, 1: lead, 2: play on the desk */
    var currentAct: int
    var currentPlay: nat
    /** The program has stopped on an index out of range. */
    var trapped: bool
    ghost var played: multiset<Card>
    ghost var trick: seq<PokerSet>

    ghost function Now(): State
      reads this
    {
      State(userPlayerCards, userPreDeskCards, hands, playersPassed, winnedPlayer, winnerRank, desk, trick, played)
    }

    /** What every reachable state keeps. */
    ghost predicate Valid()
      reads this
    {
      currentPlay < 4 && 0 <= currentAct <= 2 && Sound(Now())
    }

    /** The human is to play; once the human is out, the game is over. */
    ghost predicate AtRest()
      reads this
    {
      && Valid() && !trapped && currentPlay == 0
      && (winnedPlayer[0] ==> winnedPlayer[1] && winnedPlayer[2] && winnedPlayer[3])
    }

    /** The program has stopped, and why: at a computer's turn one of the two reasons, at the
        human's a flush that was picked has the ranks of the flush on the desk. */
    ghost predicate Stopped()
      reads this
    {
      && Valid() && trapped
      && if currentPlay == 0 then currentAct == 2 && TiesDesk(userPreDeskCards, desk)
         else !winnedPlayer[currentPlay] && TrapReason(hands[currentPlay], desk, currentAct)
    }

    lemma Seats()
      requires Valid()
      ensures |winnedPlayer| == |playersPassed| == |hands| == 4 && OnDesk(desk)
      ensures |userPreDeskCards| <= 5 && |userPlayerCards| + |userPreDeskCards| <= 13
      ensures forall i | 0 <= i < 4 :: winnedPlayer[i] ==> playersPassed[i]
      ensures winnedPlayer[0] <==> userPlayerCards == [] && userPreDeskCards == []
      ensures forall i | 0 < i < 4 :: |hands[i]| <= 13 && (winnedPlayer[i] <==> hands[i] == [])
    {
      hide Sound;
      SoundMeans(Now());
    }

    constructor ()
      ensures desk == NO_SET && !trapped
    {
      hands := [[], [], [], []];
      userPlayerCards, userPreDeskCards := [], [];
      desk := NO_SET;
      playersPassed, winnedPlayer := [false, false, false, false], [false, false, false, false];
      winnerRank := [];
      currentAct, currentPlay := 0, 0;
      trapped := false;
      played, trick := multiset{}, [];
    }

    /** initialGame, with the shuffled deck. The desk keeps the last set of the game before. */
    method InitialGame(deck: seq<Card>)
      requires |deck| == 52 && IsDeck(multiset(deck)) && OnDesk(desk) && !trapped
      modifies this
      ensures Valid() && !trapped && currentAct == 0
      ensures |hands| == 4 && Now() == NewGame(hands, old(desk)) && forall i | 0 <= i < 4 :: |hands[i]| == 13
      ensures CLUB_THREE in hands[currentPlay]
    {
      hide IsDeck, Sound, OnDesk, Sort, Ordered;
      var pokers, firstPriority := AssignPoker(deck);
      SoundDealt(pokers, desk);
      hands := pokers;
      userPlayerCards, userPreDeskCards := pokers[0], [];
      playersPassed, winnedPlayer := [false, false, false, false], [false, false, false, false];
      winnerRank := [];
      currentAct := 0;
      currentPlay := firstPriority;
      played, trick := multiset{}, [];
    }

    /** One turn of a computer that still has cards: it plays the set s that ComputerPoker
        chooses, or passes, which it only does if not all others have passed and nothing it
        has can be played. It stops the program only with a reason, and always if it must. */
    method ComputerTurn() returns (ghost s: PokerSet, ghost sets: seq<PokerSet>)
      requires Valid() && !trapped && currentPlay != 0 && !winnedPlayer[currentPlay]
      modifies `hands, `desk, `playersPassed, `winnedPlayer, `winnerRank, `currentAct, `trapped, `played, `trick
      ensures if trapped then Stopped() && Now() == old(Now()) else Valid()
      ensures trapped ==> currentAct == TurnAct(playersPassed, currentPlay, old(currentAct))
      ensures var t, i := old(Now()), currentPlay;
              var act := TurnAct(t.passed, i, old(currentAct));
              !trapped ==>
                && Chosen(t.hands[i], t.desk, act, s, sets) && !MustTrap(t.hands[i], t.desk, act)
                && if s == NO_SET then !Alone(t.passed, i) && Now() == PlayerPassed(t, i)
                   else
                     && |hands[i]| < |t.hands[i]| && multiset(s.cards) + multiset(hands[i]) == multiset(t.hands[i])
                     && Now() == ComputerPlayed(t, i, act, s, hands[i]) && currentAct == 2
      ensures !trapped ==> OthersMoved(old(Now()), Now()) && Left(Now()) <= Left(old(Now()))
      ensures !trapped && s != NO_SET ==> Left(Now()) < Left(old(Now()))
    {
      hide Sound, Valid, Stopped, Chosen, GreedySplit, TieFirst, Classifiable, Shape, Beats, Judge, OnDesk, IsEmpty,
           Finished, Shown, PlayerPassed, Alone, TurnAct, Distinct, TrapsClassing, CardsOf, AllShaped, Ascends,
           OthersMoved, Left, MustTrap, Classifiable;
      ValidMeans();
      var i := currentPlay;
      var alone := OthersPassed(playersPassed, i);
      if alone { currentAct := 1; }
      ActOf(playersPassed, i, alone, old(currentAct));
      var deskTmp, last;
      trapped, deskTmp, last, sets := ComputerPoker(hands[i], desk, currentAct);
      s := deskTmp;
      if trapped {
        ComputerStopped(sets);
        return;
      }
      ComputerNotStopped(sets);
      ChosenShape(hands[i], desk, currentAct, deskTmp, sets);
      if IsEmpty(deskTmp) {
        SoundPassed(Now(), i);
        PassMoves(Now(), i);
        SetPassed(i);
        ValidAgain();
        return;
      }
      ValidAgain();
      hide ComputerPlayed;
      ComputerPlaysSet(i, deskTmp, last);
    }

    method ComputerPlaysSet(i: nat, deskTmp: PokerSet, last: seq<Card>)
      requires Valid() && i == currentPlay != 0 && !winnedPlayer[i] && Shape(deskTmp) && deskTmp.cards != []
      requires multiset(deskTmp.cards) + multiset(last) == multiset(hands[i])
      requires currentAct == 2 ==> Beats(deskTmp, desk)
      modifies `hands, `desk, `playersPassed, `winnedPlayer, `winnerRank, `currentAct, `played, `trick
      ensures Valid() && |last| < |old(hands[i])| && currentAct == 2
      ensures i < |hands| && hands[i] == last
      ensures Now() == ComputerPlayed(old(Now()), i, old(currentAct), deskTmp, last)
      ensures OthersMoved(old(Now()), Now()) && Left(Now()) < Left(old(Now()))
    {
      hide Sound, Valid, Shape, Beats, Judge, OnDesk, Finished, Shown, OthersMoved, Left;
      ValidMeans();
      FewerCards(Now(), i, deskTmp, last);
      PlayMoves(Now(), i, currentAct, deskTmp, last);
      SoundComputer(Now(), i, currentAct, deskTmp, last);
      ShowSet(i, deskTmp);
      hands := hands[i := last];
      Finish(i, last == []);
      ValidAgain();
    }

    /** The computers' turns, up to the human's. In a whole round after the human is out:
        if nobody plays, all have passed; and if all have passed, the next one who is still
        in plays. */
    method PlayComputers()
      requires Valid() && !trapped
      modifies `hands, `desk, `playersPassed, `winnedPlayer, `winnerRank, `currentAct, `currentPlay, `trapped, `played,
               `trick
      ensures if trapped then Stopped() && currentPlay != 0 else Valid() && currentPlay == 0
      ensures OthersMoved(old(Now()), Now())
      ensures !trapped && old(currentPlay == 1 && winnedPlayer[0]) ==> RoundTo(old(Now()), Now(), 4)
    {
      hide Sound, Stopped, OnDesk, OthersMoved, Chosen, ComputerPlayed, RoundTo, Left, Valid, Alone, TurnAct,
           PlayerPassed, Shape;
      ValidMeans();
      ghost var t := Now();
      ghost var round := currentPlay == 1 && winnedPlayer[0];
      RoundStarts(t);
      while currentPlay > 0
        invariant Valid() && !trapped && OthersMoved(t, Now())
        invariant round ==> RoundTo(t, Now(), if currentPlay == 0 then 4 else currentPlay)
        decreases if currentPlay == 0 then 0 else 4 - currentPlay
      {
        ValidMeans();
        ghost var before, i := Now(), currentPlay;
        if winnedPlayer[currentPlay] {
          if round { RoundSkips(t, before, i); }
          currentPlay := (currentPlay + 1) % 4;
          ValidAgain();
          continue;
        }
        ghost var s, sets := ComputerTurn();
        if trapped { return; }
        ValidMeans();
        OthersMovedOn(t, before, Now());
        if round { RoundOn(t, before, Now(), i); }
        currentPlay := (currentPlay + 1) % 4;
        ValidAgain();
      }
    }

    /** gamePlay: the computers' turns; and once the human is out, round after round until
        everybody is, unless choosing a play fails. */
    method GamePlay()
      requires Valid() && !trapped && (winnedPlayer[0] ==> currentPlay == 1)
      modifies `hands, `desk, `playersPassed, `winnedPlayer, `winnerRank, `currentAct, `currentPlay, `trapped, `played,
               `trick
      ensures if trapped then Stopped() && currentPlay != 0 else AtRest()
      ensures OthersMoved(old(Now()), Now())
      ensures !trapped && winnedPlayer[0] ==> |winnerRank| == 4
      decreases Left(Now()), if AllPassed(Now()) then 0 else 1
    {
      hide Sound, Stopped, OnDesk, OthersMoved, RoundTo, Left, Valid, AtRest;
      ValidMeans();
      ghost var t, human := Now(), userPlayerCards;
      SoundCopy(t, human);
      CopyMoves(t, human);
      hands := hands[0 := userPlayerCards];
      ValidAgain();
      ghost var t1 := Now();
      PlayComputers();
      OthersMovedOn(t, t1, Now());
      if trapped { return; }
      ValidMeans();
      if t.won[0] { RoundEnds(t, human, Now()); }
      StillOut(t, Now());
      var othersOut := OthersWinned(winnedPlayer, 0);
      var allOut := OthersWinned(winnedPlayer, -1);
      if winnedPlayer[0] && !othersOut {
        currentAct := 2;
        currentPlay := (currentPlay + 1) % 4;
        ValidAgain();
        ghost var r := Now();
        GamePlay();
        OthersMovedOn(t, r, Now());
      } else if allOut {
        ghost var r := Now();
        SoundFull(r);
        SoundCopy(r, []);
        CopyMoves(r, []);
        hands := [[], [], [], []];
        OthersMovedOn(t, r, Now());
        RestAgain();
      } else {
        RestAgain();
      }
    }

    lemma RestAgain()
      requires Sound(Now()) && !trapped && currentPlay == 0 && 0 <= currentAct <= 2 && |winnedPlayer| == 4
      requires winnedPlayer[0] ==> winnedPlayer[1] && winnedPlayer[2] && winnedPlayer[3]
      ensures AtRest()
    {
      hide Sound;
    }

    lemma RestMeans()
      requires AtRest()
      ensures Valid() && Sound(Now()) && !trapped && currentPlay == 0 && 0 <= currentAct <= 2
      ensures |winnedPlayer| == |playersPassed| == |hands| == 4 && OnDesk(desk)
      ensures winnedPlayer[0] ==> winnedPlayer[1] && winnedPlayer[2] && winnedPlayer[3]
    {
      hide Sound;
      Seats();
    }

    /** In a game that is over all four are ranked. */
    lemma Ranked()
      requires AtRest()
      ensures |winnedPlayer| == 4 && (winnedPlayer[0] ==> |winnerRank| == 4)
    {
      hide Sound;
      RestMeans();
      if winnedPlayer[0] { SoundFull(Now()); }
    }

    lemma Fresh()
      requires Valid() && |hands| == 4 && Now() == NewGame(hands, desk)
      ensures |winnedPlayer| == 4 && !winnedPlayer[0]
    {
      hide Sound;
    }

    /** The pass button. */
    method Pass()
      requires AtRest()
      modifies `hands, `desk, `playersPassed, `winnedPlayer, `winnerRank, `currentAct, `currentPlay, `trapped, `played,
               `trick
      ensures if trapped then Stopped() && currentPlay != 0 else AtRest()
      ensures |old(playersPassed)| > 0 && OthersMoved(PlayerPassed(old(Now()), 0), Now())
    {
      hide Sound, Stopped, OnDesk, OthersMoved, Valid, AtRest, PlayerPassed;
      RestMeans();
      SoundPassed(Now(), 0);
      currentAct := 2;
      SetPassed(currentPlay);
      currentPlay := (currentPlay + 1) % 4;
      ValidAgain();
      GamePlay();
    }

    /** The confirm button. It plays the set s that the computer's rule finds in the picked
        cards, and the computers follow; or it alerts if there is none; or choosing fails. */
    method Confirm() returns (alert: bool, ghost s: PokerSet, ghost sets: seq<PokerSet>)
      requires AtRest()
      modifies `hands, `userPreDeskCards, `desk, `playersPassed, `winnedPlayer, `winnerRank, `currentAct, `currentPlay,
               `trapped, `played, `trick
      ensures if trapped then Stopped() else AtRest()
      ensures alert ==> !trapped && Now() == old(Now())
      ensures old(userPreDeskCards) == [] ==> alert
      ensures old(userPreDeskCards) != [] ==>
                var t := old(Now());
                var act := TurnAct(t.passed, 0, old(currentAct));
                if act == 2 && TiesDesk(t.pre, t.desk) then trapped && currentPlay == 0 && Now() == t
                else
                  && Chosen(t.pre, t.desk, act, s, sets) && (alert <==> s == NO_SET)
                  && (!alert ==>
                        && multiset(s.cards) + multiset(userPreDeskCards) == multiset(t.pre)
                        && OthersMoved(HumanPlayed(t, act, s, userPreDeskCards), Now()))
    {
      hide Sound, Stopped, OnDesk, OthersMoved, Valid, AtRest, HumanPlayed, Chosen, TiesDesk, TurnAct, Alone, IsEmpty,
           Shape, Beats;
      RestMeans();
      alert, s, sets := true, NO_SET, [];
      if |userPreDeskCards| > 0 {
        var alone := OthersPassed(playersPassed, currentPlay);
        if alone { currentAct := 1; }
        ActOf(playersPassed, currentPlay, alone, old(currentAct));
        var deskTmp, left;
        deskTmp, left, sets := HumanChoice();
        s := deskTmp;
        if trapped {
          alert := false;
          return;
        }
        if IsEmpty(deskTmp) { return; }
        alert := false;
        HumanPlay(deskTmp, left);
        GamePlay();
      }
    }

    /** What ComputerPoker chooses from the picked cards. */
    method HumanChoice() returns (deskTmp: PokerSet, left: seq<Card>, ghost sets: seq<PokerSet>)
      requires Sound(Now()) && !trapped && currentPlay == 0 && 0 <= currentAct <= 2 && OnDesk(desk)
               && userPreDeskCards != []
      modifies `trapped
      ensures trapped <==> currentAct == 2 && TiesDesk(userPreDeskCards, desk)
      ensures if trapped then Stopped() else AtRest()
      ensures !trapped ==>
                && Chosen(userPreDeskCards, desk, currentAct, deskTmp, sets)
                && (IsEmpty(deskTmp) <==> deskTmp == NO_SET)
                && (deskTmp != NO_SET ==>
                      Shape(deskTmp) && deskTmp.cards != [] && (currentAct == 2 ==> Beats(deskTmp, desk)))
                && multiset(deskTmp.cards) + multiset(left) == multiset(userPreDeskCards)
    {
      hide Sound, Stopped, OnDesk, AtRest, Chosen, TiesDesk, TieFirst, GreedySplit, Distinct, IsEmpty, Shape,
           TrapsClassing, Ascends;
      SoundMeans(Now());
      SoundDistinct(Now());
      var last;
      trapped, deskTmp, last, sets := ComputerPoker(userPreDeskCards, desk, currentAct);
      left := userPreDeskCards;
      FewCardsTie(userPreDeskCards, desk, sets);
      if trapped {
        HumanStopped();
        return;
      }
      ChosenShape(userPreDeskCards, desk, currentAct, deskTmp, sets);
      RestAgain();
      left := RemovePlay(userPreDeskCards, deskTmp.cards);
      Remaining(multiset(deskTmp.cards), multiset(last), multiset(userPreDeskCards));
    }

    lemma HumanStopped()
      requires Sound(Now()) && trapped && currentPlay == 0 && currentAct == 2 && OnDesk(desk)
               && TiesDesk(userPreDeskCards, desk)
      ensures Stopped()
    {
      hide Sound, TiesDesk;
    }

    /** The human's set goes to the desk. */
    method HumanPlay(deskTmp: PokerSet, left: seq<Card>)
      requires Sound(Now()) && !trapped && currentPlay == 0 && Shape(deskTmp) && deskTmp.cards != []
      requires multiset(deskTmp.cards) + multiset(left) == multiset(userPreDeskCards)
      requires OnDesk(desk) && (currentAct == 2 ==> Beats(deskTmp, desk)) && 0 <= currentAct <= 2
      modifies `userPreDeskCards, `desk, `playersPassed, `winnedPlayer, `winnerRank, `currentAct, `currentPlay, `played,
               `trick
      ensures Valid() && currentPlay == 1 && userPreDeskCards == left
      ensures |old(hands)| == |old(playersPassed)| == |old(winnedPlayer)| == 4
      ensures Now() == HumanPlayed(old(Now()), old(currentAct), deskTmp, left)
    {
      hide Sound, Valid, Shape, Beats, Judge, OnDesk, Finished, Shown;
      SoundHuman(Now(), currentAct, deskTmp, left);
      ShowSet(currentPlay, deskTmp);
      userPreDeskCards := left;
      Finish(currentPlay, userPlayerCards == [] && userPreDeskCards == []);
      currentPlay := (currentPlay + 1) % 4;
      ValidAgain();
    }

    /** Picking a card of the hand: the card at the index goes to the picked ones, if they are
        fewer than five. */
    method Pick(index: nat)
      requires AtRest() && index < |userPlayerCards|
      modifies `userPlayerCards, `userPreDeskCards
      ensures AtRest()
      ensures var t := old(Now());
              Now() == if |t.pre| < 5
                       then t.(user := RemoveAt(t.user, index), pre := Sort(ByNum, t.pre + [t.user[index]]))
                       else t
    {
      hide Sound, Sort, AtRest, RemoveAt;
      RestMeans();
      if |userPlayerCards| > 0 && |userPreDeskCards| < 5 {
        var c := userPlayerCards[index];
        var user, pre := RemoveAt(userPlayerCards, index), Sort(ByNum, userPreDeskCards + [c]);
        SameLength(pre, userPreDeskCards + [c]);
        SoundMoved(Now(), user, pre);
        userPlayerCards, userPreDeskCards := user, pre;
        RestAgain();
      }
    }

    /** Putting a picked card back: the card at the index goes to the hand; there is always
        room for it. */
    method PutBack(index: nat)
      requires AtRest() && index < |userPreDeskCards|
      modifies `userPlayerCards, `userPreDeskCards
      ensures AtRest()
      ensures var t := old(Now());
              Now() == t.(pre := RemoveAt(t.pre, index), user := Sort(ByNum, t.user + [t.pre[index]]))
    {
      hide Sound, Sort, AtRest, RemoveAt;
      RestMeans();
      Seats();
      if |userPreDeskCards| > 0 && |userPreDeskCards| < 6 && |userPlayerCards| < 13 {
        var c := userPreDeskCards[index];
        var pre, user := RemoveAt(userPreDeskCards, index), Sort(ByNum, userPlayerCards + [c]);
        SoundMoved(Now(), user, pre);
        userPlayerCards, userPreDeskCards := user, pre;
        RestAgain();
      }
    }

    method SetPassed(i: nat)
      requires i < |playersPassed|
      modifies `playersPassed
      ensures Now() == PlayerPassed(old(Now()), i)
    {
      playersPassed := playersPassed[i := true];
    }

    /** The set goes to the desk, and the others are to play on it. */
    method ShowSet(i: nat, deskTmp: PokerSet)
      requires i < |playersPassed|
      modifies `desk, `playersPassed, `currentAct, `played, `trick
      ensures Now() == Shown(old(Now()), i, old(currentAct), deskTmp) && currentAct == 2
    {
      hide NextTrick;
      playersPassed := playersPassed[i := false];
      trick := NextTrick(trick, currentAct, deskTmp);
      currentAct := 2;
      desk := deskTmp;
      played := played + multiset(deskTmp.cards);
    }

    /** A player without cards has won, and counts as passed from now on. */
    method Finish(i: nat, out: bool)
      requires i < |winnedPlayer| == |playersPassed|
      modifies `winnerRank, `winnedPlayer, `playersPassed
      ensures Now() == Finished(old(Now()), i, out)
    {
      if out {
        winnerRank := winnerRank + [i];
        winnedPlayer := winnedPlayer[i := true];
        playersPassed := playersPassed[i := true];
      }
    }

    lemma ValidMeans()
      requires Valid()
      ensures currentPlay < 4 && 0 <= currentAct <= 2 && Sound(Now())
      ensures |winnedPlayer| == |playersPassed| == |hands| == 4 && OnDesk(desk)
      ensures forall i | 0 <= i < 4 :: winnedPlayer[i] ==> playersPassed[i]
    {
      hide Sound;
      Seats();
    }

    lemma ValidAgain()
      requires currentPlay < 4 && 0 <= currentAct <= 2 && Sound(Now())
      ensures Valid()
    {
      hide Sound;
    }

    lemma ComputerStopped(sets: seq<PokerSet>)
      requires trapped && 0 < currentPlay < 4 && 0 <= currentAct <= 2 && Sound(Now())
      requires |hands| == |winnedPlayer| == 4 && !winnedPlayer[currentPlay] && OnDesk(desk)
      requires var hand := hands[currentPlay];
               Classifiable(hand) ==>
                 && GreedySplit(hand, sets) && Ascends(sets)
                 && ((currentAct == 1 && hand == []) || (currentAct == 2 && TieFirst(sets, desk)))
      ensures Stopped()
    {
      hide Sound, Classifiable, GreedySplit, TieFirst, OnDesk, TrapReason, Ascends;
      Seats();
      SoundDistinct(Now());
      ComputerTraps(hands[currentPlay], desk, currentAct, sets);
    }

    lemma ComputerNotStopped(sets: seq<PokerSet>)
      requires 0 < currentPlay < 4 && Sound(Now()) && |hands| == 4 && OnDesk(desk)
      requires var hand := hands[currentPlay];
               && (Distinct(hand) && |hand| <= 13 ==> !TrapsClassing(hand))
               && (Classifiable(hand) ==> GreedySplit(hand, sets) && Ascends(sets))
               && (Classifiable(hand) && currentAct == 2 ==> !TieFirst(sets, desk))
      ensures !MustTrap(hands[currentPlay], desk, currentAct)
    {
      hide Sound, GreedySplit, TieFirst, OnDesk, TrapsClassing, Ascends, MustTrap, Distinct;
      SoundMeans(Now());
      SoundDistinct(Now());
      ComputerGoesOn(hands[currentPlay], desk, currentAct, sets);
    }
  }

  lemma ActOf(passed: seq<bool>, i: nat, alone: bool, act: int)
    requires |passed| == 4 && alone == Alone(passed, i)
    ensures TurnAct(passed, i, act) == if alone then 1 else act
  {
  }

  lemma ChosenShape(hand: seq<Card>, desk: PokerSet, act: int, s: PokerSet, sets: seq<PokerSet>)
    requires OnDesk(desk) && Chosen(hand, desk, act, s, sets)
    ensures IsEmpty(s) <==> s == NO_SET
    ensures s != NO_SET ==> Shape(s) && s.cards != [] && (act == 2 ==> Beats(s, desk))
    ensures act == 1 ==> s != NO_SET
  {
    if s in sets { ShapeSize(s); }
  }

  lemma StillOut(t: State, r: State)
    requires OthersMoved(t, r)
    ensures Seated(t) && Seated(r) && r.won[0] == t.won[0]
  {
  }

  lemma Remaining(play: multiset<Card>, last: multiset<Card>, all: multiset<Card>)
    requires play + last == all
    ensures all - play == last
  {
  }

  // ---------- the desk of the game before ----------

  /** Two games at the same point that differ only in what lies on the desk. */
  ghost predicate DeskApart(g: Game, h: Game)
    reads g, h
  {
    && g.currentPlay == h.currentPlay < 4 && g.currentAct == h.currentAct && Seated(h.Now())
    && OnDesk(g.desk) && OnDesk(h.desk) && g.Now() == h.Now().(desk := g.desk)
  }

  /** A computer's turn that opens or leads does not depend on the desk: of two games that
      differ only there, the one stops exactly if the hand makes the other stop, it plays
      what may be played in the other, and comes to the state the other comes to. */
  method OpeningTurn(g: Game, h: Game) returns (ghost s: PokerSet, ghost sets: seq<PokerSet>)
    requires g != h && DeskApart(g, h) && g.Valid() && h.Valid() && !g.trapped && !h.trapped
    requires h.currentPlay != 0 && !h.winnedPlayer[h.currentPlay]
    requires TurnAct(h.playersPassed, h.currentPlay, h.currentAct) != 2
    modifies g
    ensures g.trapped <==> TrapsClassing(h.hands[h.currentPlay])
    ensures |g.hands| == 4
    ensures var t, i := h.Now(), h.currentPlay;
            var act := TurnAct(t.passed, i, h.currentAct);
            !g.trapped ==>
              && Chosen(t.hands[i], t.desk, act, s, sets)
              && if s == NO_SET then g.Now() == PlayerPassed(t, i).(desk := old(g.desk))
                 else g.Now() == ComputerPlayed(t, i, act, s, g.hands[i])
  {
    hide Sound, Game.Valid, Chosen, ComputerPlayed, Shape, TrapsClassing, HandTies;
    ghost var t, i, desk := h.Now(), h.currentPlay, g.desk;
    ghost var act := TurnAct(t.passed, i, h.currentAct);
    s, sets := g.ComputerTurn();
    assert |g.hands| == 4;
    OpeningReplacesDesk(t, desk, i, act, s, g.hands[i], sets);
  }

  /** The same for the human's confirm button: what is chosen, and the state that the
      computers go on from, are those of the other game. */
  method OpeningConfirm(g: Game, h: Game) returns (alert: bool, ghost s: PokerSet, ghost sets: seq<PokerSet>)
    requires g != h && DeskApart(g, h) && g.AtRest() && h.AtRest() && h.userPreDeskCards != []
    requires h.currentPlay == 0 && TurnAct(h.playersPassed, 0, h.currentAct) != 2
    modifies g
    ensures var t := h.Now();
            var act := TurnAct(t.passed, 0, h.currentAct);
            && Chosen(t.pre, t.desk, act, s, sets) && (alert <==> s == NO_SET)
            && (!alert ==> OthersMoved(HumanPlayed(t, act, s, g.userPreDeskCards), g.Now()))
  {
    hide Sound, Game.Stopped, Game.AtRest, Chosen, HumanPlayed, Shape, OthersMoved, TiesDesk;
    ghost var t, desk := h.Now(), g.desk;
    ghost var act := TurnAct(t.passed, 0, h.currentAct);
    alert, s, sets := g.Confirm();
    OpeningReplacesDesk(t, desk, 0, act, s, g.userPreDeskCards, sets);
  }

  // ---------- every reachable state ----------

  datatype Move = PassMove | ConfirmMove | PickMove(index: nat) | PutBackMove(index: nat)

  /** A whole game: dealing, the computers' first turns, and any presses of the buttons. The
      game always comes to rest with its invariant kept, all four ranked once the human is
      out, or it stops for one of the reasons of Stopped. */
  method Run(deck: seq<Card>, moves: seq<Move>) returns (game: Game)
    requires |deck| == 52 && IsDeck(multiset(deck))
    ensures if game.trapped then game.Stopped() else game.AtRest()
    ensures !game.trapped ==> |game.winnedPlayer| == 4 && (game.winnedPlayer[0] ==> |game.winnerRank| == 4)
  {
    hide Sound, IsDeck, Game.Stopped, Game.AtRest, Game.Valid, Shape, OthersMoved, Chosen, TiesDesk, HumanPlayed,
         TurnAct, PlayerPassed, RemoveAt, Sort;
    game := new Game();
    game.InitialGame(deck);
    game.Fresh();
    game.GamePlay();
    var k := 0;
    while k < |moves| && !game.trapped
      invariant fresh(game) && if game.trapped then game.Stopped() else game.AtRest()
      decreases |moves| - k
    {
      match moves[k] {
        case PassMove =>
          game.Pass();
        case ConfirmMove =>
          var alert;
          ghost var s, sets;
          alert, s, sets := game.Confirm();
        case PickMove(index) =>
          if index < |game.userPlayerCards| { game.Pick(index); }
        case PutBackMove(index) =>
          if index < |game.userPreDeskCards| { game.PutBack(index); }
      }
      k := k + 1;
    }
    if !game.trapped { game.Ranked(); }
  }
}
