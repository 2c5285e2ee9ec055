/**
 * Playing cards (Deck/Card.cs, Deck/Rank.cs, Deck/Suit.cs), the rank-only card
 * comparer (Deck/CardComparer.cs, Constants.cs) and the descending order that
 * every hand in the engine is kept in.
 */
module Cards {
  import opened Wrappers

  /** Constants.SortDirection: comparers negate the ascending result once, so Ace sorts first. */
  const SortDirection: int := -1

  /** Rank: integer-backed, Two = 0 up to Ace = 12. */
  type Rank = r: int | 0 <= r <= 12

  const Two: Rank := 0
  const Three: Rank := 1
  const Four: Rank := 2
  const Five: Rank := 3
  const Six: Rank := 4
  const Seven: Rank := 5
  const Eight: Rank := 6
  const Nine: Rank := 7
  const Ten: Rank := 8
  const Jack: Rank := 9
  const Queen: Rank := 10
  const King: Rank := 11
  const Ace: Rank := 12

  datatype Suit = Clubs | Diamonds | Hearts | Spades

  /** The suits in declaration order, as Enum.GetValues lists them. */
  const Suits: seq<Suit> := [Clubs, Diamonds, Hearts, Spades]

  /**
   * A card is the triple its equality compares: the private blank flag, the
   * rank and the suit. Rank and suit are get-only, so a card never changes.
   */
  datatype Card = Card(isBlank: bool, rank: Rank, suit: Suit)

  /** Card.Blank: built by the private constructor, so its rank and suit hold the zero values. */
  const Blank: Card := Card(true, Two, Clubs)

  /** The public constructor Card(rank, suit). */
  function NewCard(rank: Rank, suit: Suit): (c: Card)
    ensures c.rank == rank && c.suit == suit
    ensures c != Blank
  {
    Card(false, rank, suit)
  }

  /** Card.Equals(Card other); None stands for a null reference. */
  function Equals(card: Card, other: Option<Card>): (equal: bool)
    ensures equal <==> other == Some(card)
  {
    other.Some? &&
    card.isBlank == other.value.isBlank && card.rank == other.value.rank && card.suit == other.value.suit
  }

  /** operator ==, which goes through object.Equals(left, right): two nulls are equal, one null is not. */
  function EqualsOperator(left: Option<Card>, right: Option<Card>): (equal: bool)
    ensures equal <==> left == right
  {
    if left.None? then right.None? else Equals(left.value, right)
  }

  /** operator !=. */
  function NotEqualsOperator(left: Option<Card>, right: Option<Card>): (different: bool)
    ensures different <==> left != right
  {
    !EqualsOperator(left, right)
  }

  lemma BlankEqualsNoRealCard(rank: Rank, suit: Suit)
    ensures !Equals(Blank, Some(NewCard(rank, suit)))
    ensures !Equals(NewCard(rank, suit), Some(Blank))
    ensures !Equals(Blank, Some(NewCard(Two, Clubs)))
  {
  }

  lemma EqualsIsAnEquivalence(a: Card, b: Card, c: Card)
    ensures Equals(a, Some(a)) && !Equals(a, None)
    ensures Equals(a, Some(b)) <==> Equals(b, Some(a))
    ensures Equals(a, Some(b)) && Equals(b, Some(c)) ==> Equals(a, Some(c))
  {
  }

  lemma RealCardsEqualExactlyOnRankAndSuit(r1: Rank, s1: Suit, r2: Rank, s2: Suit)
    ensures Equals(NewCard(r1, s1), Some(NewCard(r2, s2))) <==> r1 == r2 && s1 == s2
  {
  }

  lemma OperatorsAgreeWithEquals(left: Card, right: Option<Card>)
    ensures EqualsOperator(Some(left), right) == Equals(left, right)
    ensures NotEqualsOperator(Some(left), right) == !Equals(left, right)
  {
  }

  /**
   * The one place the sort direction is applied: compares two integers so that
   * the larger one orders first (-1), the smaller one last (1).
   */
  function CompareDescending(a: int, b: int): (order: int)
    ensures order == -1 <==> a > b
    ensures order == 1 <==> a < b
    ensures order == 0 <==> a == b
  {
    if a < b then -1 * SortDirection
    else if a > b then 1 * SortDirection
    else 0
  }

  /** CardComparer.Compare: by rank only; a higher rank orders first. */
  function CompareCards(x: Card, y: Card): (order: int)
    ensures -1 <= order <= 1
    ensures order < 0 <==> x.rank > y.rank
    ensures order > 0 <==> x.rank < y.rank
  {
    CompareDescending(x.rank, y.rank)
  }

  lemma CompareCardsIgnoresSuit(x: Card, y: Card, s: Suit, t: Suit)
    ensures CompareCards(x, y) == CompareCards(NewCard(x.rank, s), NewCard(y.rank, t))
  {
  }

  lemma CompareCardsIsAntisymmetric(x: Card, y: Card)
    ensures CompareCards(x, y) == -CompareCards(y, x)
    ensures CompareCards(x, x) == 0
  {
  }

  lemma CompareCardsIsTransitive(x: Card, y: Card, z: Card)
    ensures CompareCards(x, y) <= 0 && CompareCards(y, z) <= 0 ==> CompareCards(x, z) <= 0
    ensures CompareCards(x, y) < 0 && CompareCards(y, z) < 0 ==> CompareCards(x, z) < 0
  {
  }

  /** The ranks of a hand, card by card. */
  function Ranks(cards: seq<Card>): (ranks: seq<Rank>)
    ensures |ranks| == |cards|
    ensures forall i :: 0 <= i < |cards| ==> ranks[i] == cards[i].rank
  {
    seq(|cards|, i requires 0 <= i < |cards| => cards[i].rank)
  }

  /** The order List.Sort(CardComparer) establishes: ranks never increase. */
  ghost predicate SortedByRank(cards: seq<Card>)
  {
    forall i, j :: 0 <= i < j < |cards| ==> cards[i].rank >= cards[j].rank
  }

  lemma SortedMeansComparerOrder(cards: seq<Card>)
    ensures SortedByRank(cards) <==>
            forall i, j :: 0 <= i < j < |cards| ==> CompareCards(cards[i], cards[j]) <= 0
  {
  }

  lemma SortedRanksDescend(cards: seq<Card>)
    ensures SortedByRank(cards) <==>
            forall i, j :: 0 <= i < j < |Ranks(cards)| ==> Ranks(cards)[i] >= Ranks(cards)[j]
  {
    var ranks := Ranks(cards);
    assert forall i :: 0 <= i < |cards| ==> ranks[i] == cards[i].rank;
  }

  /** Places a card in front of the first card it does not rank below. */
  function Insert(card: Card, sorted: seq<Card>): (r: seq<Card>)
    requires SortedByRank(sorted)
    ensures SortedByRank(r)
    ensures multiset(r) == multiset(sorted) + multiset{card}
  {
    if sorted == [] || card.rank >= sorted[0].rank then
      assert forall x :: x in sorted ==> x.rank <= card.rank by {
        if sorted != [] {
          forall x | x in sorted
            ensures x.rank <= card.rank
          {
            var i :| 0 <= i < |sorted| && sorted[i] == x;
            assert sorted[0].rank >= sorted[i].rank;
          }
        }
      }
      PrependHighest(card, sorted);
      [card] + sorted
    else
      var rest := Insert(card, sorted[1..]);
      assert sorted == [sorted[0]] + sorted[1..];
      BoundedByHead(sorted[0], card, sorted[1..], rest);
      PrependHighest(sorted[0], rest);
      [sorted[0]] + rest
  }

  /** A card that ranks no lower than every card of a sorted hand can go in front of it. */
  lemma PrependHighest(head: Card, sorted: seq<Card>)
    requires SortedByRank(sorted)
    requires forall x :: x in sorted ==> x.rank <= head.rank
    ensures SortedByRank([head] + sorted)
  {
    var r := [head] + sorted;
    forall i, j | 0 <= i < j < |r|
      ensures r[i].rank >= r[j].rank
    {
      assert r[j] == sorted[j - 1];
      if i > 0 {
        assert r[i] == sorted[i - 1];
      }
    }
  }

  /** Everything in a permutation of card::tail ranks no higher than head when those do not. */
  lemma BoundedByHead(head: Card, card: Card, tail: seq<Card>, rest: seq<Card>)
    requires card.rank <= head.rank
    requires forall x :: x in tail ==> x.rank <= head.rank
    requires multiset(rest) == multiset(tail) + multiset{card}
    ensures forall x :: x in rest ==> x.rank <= head.rank
  {
    forall x | x in rest
      ensures x.rank <= head.rank
    {
      assert x in multiset(rest);
      assert x == card || x in multiset(tail);
    }
  }

  /**
   * List.Sort with the card comparer, modelled by a stable insertion sort.
   * .NET's sort is not stable; only sortedness and the permutation are relied on.
   */
  function SortByRank(cards: seq<Card>): (r: seq<Card>)
    ensures SortedByRank(r)
    ensures multiset(r) == multiset(cards)
    ensures |r| == |cards|
  {
    if cards == [] then []
    else
      assert cards == [cards[0]] + cards[1..];
      Insert(cards[0], SortByRank(cards[1..]))
  }

  /** The ranks of two hands laid end to end. */
  lemma RanksAppend(a: seq<Card>, b: seq<Card>)
    ensures Ranks(a + b) == Ranks(a) + Ranks(b)
  {
    var left, right := Ranks(a + b), Ranks(a) + Ranks(b);
    assert |left| == |right|;
    forall i | 0 <= i < |left|
      ensures left[i] == right[i]
    {
      if i < |a| {
        assert (a + b)[i] == a[i];
      } else {
        assert (a + b)[i] == b[i - |a|];
      }
    }
  }

  /** How many cards of rank r a multiset of cards holds, blank or not, of any suit. */
  function RankTally(m: multiset<Card>, r: Rank): nat
  {
    m[Card(false, r, Clubs)] + m[Card(false, r, Diamonds)] + m[Card(false, r, Hearts)] + m[Card(false, r, Spades)] +
    m[Card(true, r, Clubs)] + m[Card(true, r, Diamonds)] + m[Card(true, r, Hearts)] + m[Card(true, r, Spades)]
  }

  /** The number of times a rank occurs among a hand's ranks is the number of its cards of that rank. */
  lemma {:induction false} RankMultiplicity(s: seq<Card>, r: Rank)
    ensures multiset(Ranks(s))[r] == RankTally(multiset(s), r)
    decreases |s|
  {
    if s != [] {
      assert s == [s[0]] + s[1..];
      RanksAppend([s[0]], s[1..]);
      assert Ranks([s[0]]) == [s[0].rank];
      assert multiset(Ranks(s)) == multiset{s[0].rank} + multiset(Ranks(s[1..]));
      assert multiset(s) == multiset{s[0]} + multiset(s[1..]);
      RankMultiplicity(s[1..], r);
      RankTallyAdd(s[0], multiset(s[1..]), r);
    }
  }

  /** One more card adds one to the tally of its own rank and nothing to any other. */
  lemma RankTallyAdd(card: Card, m: multiset<Card>, r: Rank)
    ensures RankTally(multiset{card} + m, r) == RankTally(m, r) + if card.rank == r then 1 else 0
  {
    var one := multiset{card};
    assert RankTally(one + m, r) == RankTally(one, r) + RankTally(m, r);
    assert RankTally(one, r) == if card.rank == r then 1 else 0 by {
      match card.suit
      case Clubs =>
      case Diamonds =>
      case Hearts =>
      case Spades =>
    }
  }

  /** The rank multiset is determined by the card multiset. */
  lemma SameCardsSameRanks(s: seq<Card>, t: seq<Card>)
    requires multiset(s) == multiset(t)
    ensures multiset(Ranks(s)) == multiset(Ranks(t))
  {
    forall r: Rank
      ensures multiset(Ranks(s))[r] == multiset(Ranks(t))[r]
    {
      RankMultiplicity(s, r);
      RankMultiplicity(t, r);
    }
  }

  /** Two non-increasing integer sequences with the same elements are equal. */
  lemma {:induction false} SortedPermutationsAreEqual(a: seq<Rank>, b: seq<Rank>)
    requires forall i, j :: 0 <= i < j < |a| ==> a[i] >= a[j]
    requires forall i, j :: 0 <= i < j < |b| ==> b[i] >= b[j]
    requires multiset(a) == multiset(b)
    ensures a == b
    decreases |a|
  {
    if a == [] {
      assert |multiset(b)| == 0;
    } else {
      HeadsAgree(a, b);
      TailDescends(a);
      TailDescends(b);
      SortedPermutationsAreEqual(a[1..], b[1..]);
      assert a == [a[0]] + a[1..];
      assert b == [b[0]] + b[1..];
    }
  }

  /** Two non-increasing sequences with the same elements start with the same, largest, element. */
  lemma HeadsAgree(a: seq<Rank>, b: seq<Rank>)
    requires a != []
    requires forall i, j :: 0 <= i < j < |a| ==> a[i] >= a[j]
    requires forall i, j :: 0 <= i < j < |b| ==> b[i] >= b[j]
    requires multiset(a) == multiset(b)
    ensures b != [] && a[0] == b[0]
    ensures multiset(a[1..]) == multiset(b[1..])
  {
    assert a[0] in multiset(b);
    var j :| 0 <= j < |b| && b[j] == a[0];
    assert b[0] >= b[j];
    assert b[0] in multiset(a);
    var i :| 0 <= i < |a| && a[i] == b[0];
    assert a[0] >= a[i];
    assert a[0] == b[0];
    assert a == [a[0]] + a[1..];
    assert b == [b[0]] + b[1..];
    assert multiset(a) == multiset{a[0]} + multiset(a[1..]);
    assert multiset(b) == multiset{b[0]} + multiset(b[1..]);
    assert multiset(a[1..]) == multiset(a) - multiset{a[0]};
    assert multiset(b[1..]) == multiset(b) - multiset{b[0]};
  }

  /** The tail of a non-increasing sequence is non-increasing. */
  lemma TailDescends(a: seq<Rank>)
    requires a != []
    requires forall i, j :: 0 <= i < j < |a| ==> a[i] >= a[j]
    ensures forall i, j :: 0 <= i < j < |a[1..]| ==> a[1..][i] >= a[1..][j]
  {
    forall i, j | 0 <= i < j < |a[1..]|
      ensures a[1..][i] >= a[1..][j]
    {
      assert a[1..][i] == a[i + 1] && a[1..][j] == a[j + 1];
    }
  }

  /**
   * However the sort orders cards of equal rank, a sorted hand's rank at every
   * position is fixed by its cards.
   */
  lemma SortedHandsHaveSameRanks(s: seq<Card>, t: seq<Card>)
    requires SortedByRank(s) && SortedByRank(t)
    requires multiset(s) == multiset(t)
    ensures Ranks(s) == Ranks(t)
  {
    SameCardsSameRanks(s, t);
    SortedPermutationsAreEqual(Ranks(s), Ranks(t));
  }

  /**
   * The card comparer lifted to equal-length sequences: the first position
   * where they differ decides, the higher value ordering first.
   */
  function LexCompare(a: seq<int>, b: seq<int>): (order: int)
    requires |a| == |b|
    ensures -1 <= order <= 1
    ensures order == 0 <==> a == b
    decreases |a|
  {
    if a == [] then 0
    else if a[0] != b[0] then CompareDescending(a[0], b[0])
    else
      assert a == [a[0]] + a[1..] && b == [b[0]] + b[1..];
      LexCompare(a[1..], b[1..])
  }

  lemma {:induction false} LexCompareIsAntisymmetric(a: seq<int>, b: seq<int>)
    requires |a| == |b|
    ensures LexCompare(a, b) == -LexCompare(b, a)
    decreases |a|
  {
    if a != [] && a[0] == b[0] {
      LexCompareIsAntisymmetric(a[1..], b[1..]);
    }
  }

  lemma {:induction false} LexCompareIsTransitive(a: seq<int>, b: seq<int>, c: seq<int>)
    requires |a| == |b| == |c|
    requires LexCompare(a, b) <= 0 && LexCompare(b, c) <= 0
    ensures LexCompare(a, c) <= 0
    decreases |a|
  {
    if a != [] && a[0] == b[0] && b[0] == c[0] {
      LexCompareIsTransitive(a[1..], b[1..], c[1..]);
    }
  }

  /** Comparing a common prefix first and then the rest is the same as comparing the whole. */
  lemma {:induction false} LexCompareAppend(a: seq<int>, b: seq<int>, c: seq<int>, d: seq<int>)
    requires |a| == |b| && |c| == |d|
    ensures LexCompare(a + c, b + d) == if a != b then LexCompare(a, b) else LexCompare(c, d)
    decreases |a|
  {
    if a != [] {
      assert (a + c)[1..] == a[1..] + c;
      assert (b + d)[1..] == b[1..] + d;
      if a[0] == b[0] {
        LexCompareAppend(a[1..], b[1..], c, d);
        if a[1..] == b[1..] {
          assert a == [a[0]] + a[1..] && b == [b[0]] + b[1..];
        }
      }
    } else {
      assert a + c == c && b + d == d;
    }
  }
}
