/** assignPoker of pokerCore.swift: dealing the deck to four players. */
module Dealing {
  import opened Cards

  /** Thirteen cards from place j on, and who has the three of clubs now. */
  method DealTo(deck: seq<Card>, player: nat, j0: nat, firstPrior0: nat)
      returns (temp: seq<Card>, j: nat, firstPrior: nat)
    requires j0 + 13 <= |deck|
    ensures j == j0 + 13 && temp == deck[j0..j]
    ensures firstPrior == if CLUB_THREE in temp then player else firstPrior0
  {
    temp, j, firstPrior := [], j0, firstPrior0;
    var times := 0;
    while times < 13
      invariant 0 <= times <= 13 && j == j0 + times && temp == deck[j0..j]
      invariant firstPrior == if CLUB_THREE in temp then player else firstPrior0
    {
      temp := temp + [deck[j]];
      if deck[j].suitnum == 0 && deck[j].num == 0 {
        firstPrior := player;
      }
      j := j + 1;
      times := times + 1;
    }
  }

  function Dealt(plr: seq<Card>, comp: seq<seq<Card>>, player: nat): seq<Card> {
    if player == 0 then plr else if player <= |comp| then comp[player - 1] else []
  }

  lemma ClubThreeHeld(before: seq<Card>, plr: seq<Card>, comp: seq<seq<Card>>, temp: seq<Card>, first: nat)
    requires first <= |comp| && (CLUB_THREE in before ==> CLUB_THREE in Dealt(plr, comp, first))
    ensures CLUB_THREE in before + temp ==>
              CLUB_THREE in Dealt(plr, comp + [temp], if CLUB_THREE in temp then |comp| + 1 else first)
  {
  }

  /** assignPoker: thirteen cards each, sorted, and who holds the three of clubs. */
  method AssignPoker(deck: seq<Card>) returns (hands: seq<seq<Card>>, firstPrior: nat)
    requires |deck| == 52 && IsDeck(multiset(deck))
    ensures |hands| == 4 && firstPrior < 4 && CLUB_THREE in hands[firstPrior]
    ensures forall i | 0 <= i < 4 :: |hands[i]| == 13 && Ordered(ByNum, hands[i])
    ensures multiset(hands[0]) == multiset(deck[..13]) && multiset(hands[1]) == multiset(deck[13..26])
    ensures multiset(hands[2]) == multiset(deck[26..39]) && multiset(hands[3]) == multiset(deck[39..])
    ensures multiset(hands[0]) + multiset(hands[1]) + multiset(hands[2]) + multiset(hands[3]) == multiset(deck)
  {
    hide Sort, Ordered, IsDeck, Dealt;
    var plr, j, first := DealTo(deck, 0, 0, 0);
    firstPrior := first;
    var comp: seq<seq<Card>>, i := [], 0;
    assert plr == deck[..13] == Dealt(plr, comp, 0) by { FirstDealt(plr, comp); }
    while i < 3
      invariant 0 <= i <= 3 && j == 13 * i + 13 && |comp| == i && firstPrior <= i
      invariant (i >= 1 ==> comp[0] == deck[13..26]) && (i >= 2 ==> comp[1] == deck[26..39])
                && (i >= 3 ==> comp[2] == deck[39..52])
      invariant CLUB_THREE in deck[..j] ==> CLUB_THREE in Dealt(plr, comp, firstPrior)
    {
      var temp, j1, first1 := DealTo(deck, i + 1, j, firstPrior);
      ClubThreeHeld(deck[..j], plr, comp, temp, firstPrior);
      assert deck[..j1] == deck[..j] + temp;
      comp := comp + [temp];
      j := j1;
      firstPrior := first1;
      i := i + 1;
    }
    assert deck[..52] == deck && deck[39..52] == deck[39..];
    HasClubThree(deck);
    hands := Sorted4(deck, plr, comp[0], comp[1], comp[2]);
    HolderKept(plr, comp, hands, firstPrior);
  }

  lemma FirstDealt(plr: seq<Card>, comp: seq<seq<Card>>)
    ensures Dealt(plr, comp, 0) == plr
  {
  }

  lemma HolderKept(plr: seq<Card>, comp: seq<seq<Card>>, hands: seq<seq<Card>>, p: nat)
    requires |comp| == 3 && |hands| == 4 && p < 4 && CLUB_THREE in Dealt(plr, comp, p)
    requires multiset(hands[0]) == multiset(plr) && multiset(hands[1]) == multiset(comp[0])
    requires multiset(hands[2]) == multiset(comp[1]) && multiset(hands[3]) == multiset(comp[2])
    ensures CLUB_THREE in hands[p]
  {
    assert CLUB_THREE in multiset(Dealt(plr, comp, p));
    assert multiset(hands[p]) == multiset(Dealt(plr, comp, p));
  }

  lemma HasClubThree(deck: seq<Card>)
    requires IsDeck(multiset(deck))
    ensures CLUB_THREE in deck
  {
    assert CLUB_THREE in multiset(deck);
  }

  method Sorted4(deck: seq<Card>, a: seq<Card>, b: seq<Card>, c: seq<Card>, d: seq<Card>)
      returns (hands: seq<seq<Card>>)
    requires |deck| == 52 && a == deck[..13] && b == deck[13..26] && c == deck[26..39] && d == deck[39..52]
    ensures |hands| == 4 && forall i | 0 <= i < 4 :: |hands[i]| == 13 && Ordered(ByNum, hands[i])
    ensures multiset(hands[0]) == multiset(a) && multiset(hands[1]) == multiset(b)
    ensures multiset(hands[2]) == multiset(c) && multiset(hands[3]) == multiset(d)
    ensures multiset(hands[0]) + multiset(hands[1]) + multiset(hands[2]) + multiset(hands[3]) == multiset(deck)
  {
    hide Sort, Ordered;
    hands := [Sort(ByNum, a), Sort(ByNum, b), Sort(ByNum, c), Sort(ByNum, d)];
    SameLength(hands[0], a);
    SameLength(hands[1], b);
    SameLength(hands[2], c);
    SameLength(hands[3], d);
    assert deck == a + b + c + d;
  }
}
