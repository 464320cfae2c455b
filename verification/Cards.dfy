/** Big Two cards and card sets, with the orders of pokerCore.swift. */
module Cards {
  /** 0 to 3: clubs, diamonds, hearts, spades */
  type Suit = s: int | 0 <= s < 4

  /** 0 is a three, ..., 10 a king, 11 an ace, 12 a two */
  type Rank = n: int | 0 <= n < 13

  datatype Card = Card(suitnum: Suit, num: Rank)

  const CLUB_THREE := Card(0, 0)

  predicate Less(a: Card, b: Card) {
    if a.num == b.num then a.suitnum < b.suitnum else a.num < b.num
  }

  predicate PokerNumCompare(a: Card, b: Card) {
    if a.num == b.num then a.suitnum > b.suitnum else a.num > b.num
  }

  predicate PokerSuitCompare(a: Card, b: Card) {
    if a.suitnum == b.suitnum then a.num > b.num else a.suitnum > b.suitnum
  }

  datatype By = Ascending | ByNum | BySuit

  predicate Before(order: By, a: Card, b: Card) {
    match order
    case Ascending => Less(a, b)
    case ByNum => PokerNumCompare(a, b)
    case BySuit => PokerSuitCompare(a, b)
  }

  predicate Ordered(order: By, cs: seq<Card>) {
    forall i, j | 0 <= i < j < |cs| :: !Before(order, cs[j], cs[i])
  }

  /** Strictly descending ranks. */
  predicate Falling(cs: seq<Card>) {
    forall i, j | 0 <= i < j < |cs| :: cs[i].num > cs[j].num
  }

  ghost predicate Distinct(cs: seq<Card>) {
    forall i, j | 0 <= i < j < |cs| :: cs[i] != cs[j]
  }

  // ---------- sorting ----------

  lemma Prepended(order: By, c: Card, cs: seq<Card>)
    requires Ordered(order, cs) && (cs != [] ==> !Before(order, cs[0], c))
    ensures Ordered(order, [c] + cs)
  {
    var r := [c] + cs;
    forall i, j | 0 <= i < j < |r| ensures !Before(order, r[j], r[i]) {
      if i > 0 { assert r[i] == cs[i - 1]; }
      assert r[j] == cs[j - 1];
    }
  }

  function Insert(order: By, c: Card, cs: seq<Card>): (r: seq<Card>)
    ensures multiset(r) == multiset(cs) + multiset{c}
    ensures r != [] && (r[0] == c || (cs != [] && r[0] == cs[0] && Before(order, cs[0], c)))
  {
    if cs == [] then [c]
    else if !Before(order, cs[0], c) then [c] + cs
    else
      assert cs == [cs[0]] + cs[1..];
      [cs[0]] + Insert(order, c, cs[1..])
  }

  lemma {:induction false} InsertOrdered(order: By, c: Card, cs: seq<Card>)
    requires Ordered(order, cs)
    ensures Ordered(order, Insert(order, c, cs))
  {
    if cs == [] {
    } else if !Before(order, cs[0], c) {
      Prepended(order, c, cs);
    } else {
      InsertOrdered(order, c, cs[1..]);
      Prepended(order, cs[0], Insert(order, c, cs[1..]));
    }
  }

  /** sorted(by:) */
  function Sort(order: By, cs: seq<Card>): (r: seq<Card>)
    ensures Ordered(order, r) && multiset(r) == multiset(cs)
  {
    if cs == [] then []
    else
      assert cs == [cs[0]] + cs[1..];
      InsertOrdered(order, cs[0], Sort(order, cs[1..]));
      Insert(order, cs[0], Sort(order, cs[1..]))
  }

  lemma SameLength(a: seq<Card>, b: seq<Card>)
    requires multiset(a) == multiset(b)
    ensures |a| == |b|
  {
    assert |multiset(a)| == |a| && |multiset(b)| == |b|;
  }

  lemma SameHead(order: By, a: seq<Card>, b: seq<Card>)
    requires a != [] && b != [] && Ordered(order, a) && Ordered(order, b) && multiset(a) == multiset(b)
    ensures a[0] == b[0] && Ordered(order, a[1..]) && Ordered(order, b[1..])
  {
    assert a[0] in multiset(b) && b[0] in multiset(a);
    assert !Before(order, a[0], b[0]) && !Before(order, b[0], a[0]);
  }

  /** Every order is total on cards, so any sorting algorithm gives the same list. */
  lemma {:induction false} SortUnique(order: By, a: seq<Card>, b: seq<Card>)
    requires Ordered(order, a) && Ordered(order, b) && multiset(a) == multiset(b)
    ensures a == b
  {
    SameLength(a, b);
    if a != [] {
      SameHead(order, a, b);
      hide Ordered;
      assert a == [a[0]] + a[1..] && b == [b[0]] + b[1..];
      assert multiset(a[1..]) == multiset(a) - multiset{a[0]};
      assert multiset(b[1..]) == multiset(b) - multiset{b[0]};
      SortUnique(order, a[1..], b[1..]);
    }
  }

  // ---------- taking cards out of a list ----------

  /** remove(at:) */
  function RemoveAt(cs: seq<Card>, i: nat): (r: seq<Card>)
    requires i < |cs|
    ensures multiset(r) + multiset{cs[i]} == multiset(cs)
    ensures |r| == |cs| - 1
  {
    assert cs == cs[..i] + [cs[i]] + cs[i + 1..];
    cs[..i] + cs[i + 1..]
  }

  lemma RemoveOrdered(order: By, cs: seq<Card>, i: nat)
    requires i < |cs| && Ordered(order, cs)
    ensures Ordered(order, RemoveAt(cs, i))
  {
    var r := RemoveAt(cs, i);
    forall a, b | 0 <= a < b < |r| ensures !Before(order, r[b], r[a]) {
      assert r[a] == cs[if a < i then a else a + 1] && r[b] == cs[if b < i then b else b + 1];
    }
  }

  /** remove(at:), k times at the same place. */
  method RemoveBlock(cs: seq<Card>, i: nat, k: nat) returns (rest: seq<Card>)
    requires i + k <= |cs|
    ensures rest == cs[..i] + cs[i + k..]
  {
    rest := cs;
    var n := 0;
    while n < k
      invariant 0 <= n <= k && rest == cs[..i] + cs[i + n..]
    {
      rest := RemoveAt(rest, i);
      n := n + 1;
    }
  }

  lemma BlockOut(cs: seq<Card>, i: nat, k: nat)
    requires i + k <= |cs|
    ensures multiset(cs[..i] + cs[i + k..]) + multiset(cs[i..i + k]) == multiset(cs)
  {
    assert cs == cs[..i] + cs[i..i + k] + cs[i + k..];
  }

  lemma BlockOrdered(order: By, cs: seq<Card>, i: nat, k: nat)
    requires i + k <= |cs| && Ordered(order, cs)
    ensures Ordered(order, cs[..i] + cs[i + k..]) && Ordered(order, cs[i..i + k])
  {
    var rest := cs[..i] + cs[i + k..];
    forall a, b | 0 <= a < b < |rest| ensures !Before(order, rest[b], rest[a]) {
      assert rest[a] == cs[if a < i then a else a + k] && rest[b] == cs[if b < i then b else b + k];
    }
  }

  // ---------- sets ----------

  /** pokerClass: 7 straight flush, 6 four of a kind, 5 full house, 4 flush, 3 straight,
      2 three of a kind, 1 pair, 0 single; -1 is "no set". */
  datatype PokerSet = PokerSet(cards: seq<Card>, classing: int, level: int)

  const NO_SET := PokerSet([], -1, 0)

  predicate IsEmpty(s: PokerSet) {
    s.cards == [] || s.classing == -1
  }

  /** The comparison `<` of pokerClass. */
  predicate SetLess(a: PokerSet, b: PokerSet) {
    if a.classing == b.classing then a.level < b.level else a.classing < b.classing
  }

  const SHUNZI: seq<seq<int>> :=
    [[12, 3, 2, 1, 0], [11, 10, 9, 8, 7], [10, 9, 8, 7, 6], [9, 8, 7, 6, 5], [8, 7, 6, 5, 4],
     [7, 6, 5, 4, 3], [6, 5, 4, 3, 2], [5, 4, 3, 2, 1], [4, 3, 2, 1, 0], [12, 11, 2, 1, 0]]

  predicate IsRow(row: seq<int>) {
    |row| == 5 && row[0] > row[1] > row[2] > row[3] > row[4]
  }

  function Row(r: nat): (row: seq<int>)
    requires r < 10
    ensures IsRow(row)
  {
    SHUNZI[r]
  }

  predicate SameNum(cs: seq<Card>) {
    forall i | 0 <= i < |cs| :: cs[i].num == cs[0].num
  }

  predicate SameSuit(cs: seq<Card>) {
    forall i | 0 <= i < |cs| :: cs[i].suitnum == cs[0].suitnum
  }

  /** The five cards, highest first, have the ranks of the row. */
  predicate HasRanks(cs: seq<Card>, row: seq<int>) {
    |cs| == |row| && forall i | 0 <= i < |row| :: cs[i].num == row[i]
  }

  /** What each class of set looks like; cards are listed from the highest rank down. */
  predicate Shape(s: PokerSet) {
    && Ordered(ByNum, s.cards)
    && match s.classing {
         case 7 => 1 <= s.level <= 10 && HasRanks(s.cards, Row(10 - s.level)) && SameSuit(s.cards)
         case 6 => |s.cards| == 4 && SameNum(s.cards)
         case 5 => |s.cards| == 5 && s.cards[0].num != s.cards[4].num
                   && ((SameNum(s.cards[..3]) && SameNum(s.cards[3..]))
                       || (SameNum(s.cards[..2]) && SameNum(s.cards[2..])))
         case 4 => |s.cards| == 5 && SameSuit(s.cards)
         case 3 => 1 <= s.level <= 10 && HasRanks(s.cards, Row(10 - s.level))
         case 2 => |s.cards| == 3 && SameNum(s.cards)
         case 1 => |s.cards| == 2 && SameNum(s.cards)
         case 0 => |s.cards| == 1
         case _ => false
       }
    && (s.classing == 7 || s.classing == 3 || s.level == 0)
  }

  predicate AllShaped(sets: seq<PokerSet>) {
    forall s | s in sets :: Shape(s)
  }

  predicate OfClass(sets: seq<PokerSet>, classing: int) {
    forall s | s in sets :: Shape(s) && s.classing == classing
  }

  lemma NoSets(classing: int)
    ensures OfClass([], classing)
  {
  }

  lemma OneMoreOfClass(sets: seq<PokerSet>, s: PokerSet)
    requires OfClass(sets, s.classing) && Shape(s)
    ensures OfClass(sets + [s], s.classing)
  {
  }

  /** All cards of the sets together. */
  function CardsOf(sets: seq<PokerSet>): multiset<Card> {
    if sets == [] then multiset{} else CardsOf(sets[..|sets| - 1]) + multiset(sets[|sets| - 1].cards)
  }

  lemma EmptyCards()
    ensures CardsOf([]) == multiset{}
  {
  }

  lemma CardsOfOneMore(sets: seq<PokerSet>, s: PokerSet)
    ensures CardsOf(sets + [s]) == CardsOf(sets) + multiset(s.cards)
  {
    assert (sets + [s])[..|sets|] == sets;
  }

  lemma SumAssociates(x: multiset<Card>, y: multiset<Card>, z: multiset<Card>)
    ensures (x + y) + z == x + (y + z)
  {
  }

  lemma {:induction false} CardsOfConcat(a: seq<PokerSet>, b: seq<PokerSet>)
    ensures CardsOf(a + b) == CardsOf(a) + CardsOf(b)
    decreases |b|
  {
    if |b| == 0 {
      assert a + b == a;
    } else {
      hide CardsOf;
      ConcatStep(a, b[..|b| - 1], b[|b| - 1], b);
    }
  }

  lemma {:induction false} ConcatStep(a: seq<PokerSet>, c: seq<PokerSet>, s: PokerSet, b: seq<PokerSet>)
    requires b == c + [s]
    ensures CardsOf(a + b) == CardsOf(a) + CardsOf(b)
    decreases |b|, 0
  {
    hide CardsOf;
    CardsOfConcat(a, c);
    CardsOfOneMore(a + c, s);
    CardsOfOneMore(c, s);
    assert a + b == (a + c) + [s];
    SumAssociates(CardsOf(a), CardsOf(c), multiset(s.cards));
  }

  lemma Moved(rest: multiset<Card>, taken: multiset<Card>, before: multiset<Card>, others: multiset<Card>,
      all: multiset<Card>)
    requires rest + taken == before && before + others == all
    ensures rest + (others + taken) == all
  {
  }

  /** Moving cards from a list to a new set loses none and doubles none. */
  lemma SetTaken(all: multiset<Card>, was: seq<Card>, rest: seq<Card>, sets: seq<PokerSet>, s: PokerSet)
    requires multiset(rest) + multiset(s.cards) == multiset(was) && multiset(was) + CardsOf(sets) == all
    ensures multiset(rest) + CardsOf(sets + [s]) == all
  {
    hide CardsOf;
    CardsOfOneMore(sets, s);
    Moved(multiset(rest), multiset(s.cards), multiset(was), CardsOf(sets), all);
  }

  lemma {:induction false} SetWithin(sets: seq<PokerSet>, s: PokerSet)
    requires s in sets
    ensures multiset(s.cards) <= CardsOf(sets)
  {
    if s in sets[..|sets| - 1] {
      SetWithin(sets[..|sets| - 1], s);
    }
  }

  // ---------- the deck ----------

  /** Each of the 52 cards, once. */
  ghost predicate IsDeck(cards: multiset<Card>) {
    forall c: Card :: cards[c] == 1
  }

  lemma {:induction false} NoRepeats(cs: seq<Card>)
    requires Distinct(cs)
    ensures forall c :: multiset(cs)[c] == if c in cs then 1 else 0
  {
    if cs != [] {
      NoRepeats(cs[1..]);
      assert cs == [cs[0]] + cs[1..];
    }
  }

  lemma SameMembers(a: seq<Card>, b: seq<Card>)
    requires multiset(a) == multiset(b)
    ensures forall c :: c in a <==> c in b
  {
    assert forall c :: c in a <==> c in multiset(a);
    assert forall c :: c in b <==> c in multiset(b);
  }

  lemma DistinctIff(cs: seq<Card>)
    ensures Distinct(cs) <==> forall c :: multiset(cs)[c] <= 1
  {
    if Distinct(cs) {
      NoRepeats(cs);
    } else {
      var i, j :| 0 <= i < j < |cs| && cs[i] == cs[j];
      assert cs == cs[..j] + [cs[j]] + cs[j + 1..];
      assert cs[..j][i] == cs[j] && cs[j] in multiset(cs[..j]);
      assert multiset(cs)[cs[j]] >= multiset(cs[..j])[cs[j]] + 1;
    }
  }

  /** GeneratePokers, before shuffling. */
  method GeneratePokers() returns (arra: seq<Card>)
    ensures |arra| == 52 && IsDeck(multiset(arra))
  {
    arra := [];
    var i, j := 0, 0;
    while i < 4
      invariant 0 <= i <= 4 && 0 <= j < 13 && (i == 4 ==> j == 0)
      invariant |arra| == 13 * i + j
      invariant forall k | 0 <= k < |arra| :: 13 * arra[k].suitnum + arra[k].num == k
      decreases 4 - i, 13 - j
    {
      arra := arra + [Card(i, j)];
      j := j + 1;
      if j >= 13 {
        j := 0;
        i := i + 1;
      }
    }
    NoRepeats(arra);
    forall c: Card ensures c in arra {
      var k := 13 * c.suitnum + c.num;
      assert arra[k] == c;
    }
  }
}
