/**
 * TwoPairComparer (Hands/Comparers/TwoPairComparer.cs): two pairs, ranked by
 * the higher pair, then the other pair, then the odd card. It does not use
 * the high-card comparer.
 */
module TwoPairComparer {
  import opened Wrappers
  import opened Errors
  import opened Cards
  import opened HandViews

  /** The foreach that keeps the highest rank occurring twice, starting from high. */
  function HighestPair(keys: seq<Rank>, ranks: seq<Rank>, high: Rank): (r: Rank)
    ensures r >= high
    ensures r == high || (r in keys && CountOf(ranks, r) == 2)
    ensures forall k :: k in keys && CountOf(ranks, k) == 2 ==> k <= r
    decreases |keys|
  {
    if keys == [] then high
    else
      assert keys == [keys[0]] + keys[1..];
      HighestPair(keys[1..], ranks, if CountOf(ranks, keys[0]) == 2 && high < keys[0] then keys[0] else high)
  }

  /**
   * Compare(hand): at least five cards and at most three distinct ranks is
   * always reported as two pair; the rank is the highest one occurring
   * exactly twice, or Two when none does.
   */
  function Classify(cards: seq<Card>): (c: Classification)
    ensures c == NoMatch || c.category == TwoPair
    ensures c != NoMatch <==> |cards| >= 5 && |Keys(Ranks(cards))| <= 3
    ensures c != NoMatch ==> c.high == Two || CountOf(Ranks(cards), c.high) == 2
    ensures c != NoMatch ==> forall r: Rank :: CountOf(Ranks(cards), r) == 2 ==> r <= c.high
  {
    if |cards| < 5 then NoMatch
    else
      var keys := Keys(Ranks(cards));
      if |keys| > 3 then NoMatch
      else
        Classification(TwoPair, HighestPair(keys, Ranks(cards), Two))
  }

  /** Compare(hand) as written: the counting loop, then the foreach keeping the highest pair. */
  method Detect(cards: seq<Card>) returns (c: Classification)
    ensures c == Classify(cards)
  {
    if |cards| < 5 {
      return NoMatch;
    }
    var keys, counts := Tally(cards);
    if |keys| > 3 {
      return NoMatch;
    }
    var high := Two;
    for i := 0 to |keys|
      invariant HighestPair(keys[i..], Ranks(cards), high) == HighestPair(keys, Ranks(cards), Two)
    {
      assert keys[i..][1..] == keys[i + 1..];
      if counts[keys[i]] == 2 && high < keys[i] {
        high := keys[i];
      }
    }
    assert keys[|keys|..] == [];
    return Classification(TwoPair, high);
  }

  /** Whether a Dictionary entry is a pair other than the reported high pair. */
  predicate IsOtherPair(ranks: seq<Rank>, exclude: Rank, k: Rank)
  {
    k != exclude && CountOf(ranks, k) == 2
  }

  /** The foreach that keeps the last pair other than exclude, starting from pair. */
  function LastOtherPair(keys: seq<Rank>, ranks: seq<Rank>, exclude: Rank, pair: Rank): (r: Rank)
    ensures r == pair || (r in keys && IsOtherPair(ranks, exclude, r))
    ensures (exists k :: k in keys && IsOtherPair(ranks, exclude, k)) ==> r in keys && IsOtherPair(ranks, exclude, r)
    ensures (forall i, j :: 0 <= i < j < |keys| ==> keys[i] > keys[j]) ==>
            forall k :: k in keys && IsOtherPair(ranks, exclude, k) ==> r <= k
    decreases |keys|
  {
    if keys == [] then pair
    else
      assert keys == [keys[0]] + keys[1..];
      LastOtherPair(keys[1..], ranks, exclude, if IsOtherPair(ranks, exclude, keys[0]) then keys[0] else pair)
  }

  /** The foreach that keeps the last rank occurring once, starting from single. */
  function LastSingle(keys: seq<Rank>, ranks: seq<Rank>, single: Rank): (r: Rank)
    ensures r == single || (r in keys && CountOf(ranks, r) == 1)
    ensures (exists k :: k in keys && CountOf(ranks, k) == 1) ==> r in keys && CountOf(ranks, r) == 1
    ensures (forall i, j :: 0 <= i < j < |keys| ==> keys[i] > keys[j]) ==>
            forall k :: k in keys && CountOf(ranks, k) == 1 ==> r <= k
    decreases |keys|
  {
    if keys == [] then single
    else
      assert keys == [keys[0]] + keys[1..];
      LastSingle(keys[1..], ranks, if CountOf(ranks, keys[0]) == 1 then keys[0] else single)
  }

  /** xPair / yPair: the second pair's rank, HighCard when there is no other pair. */
  function SecondPair(v: HandView): Rank
  {
    LastOtherPair(Keys(Ranks(v.cards)), Ranks(v.cards), v.highCard, v.highCard)
  }

  /** xSingle / ySingle: the odd card's rank, Two when no rank occurs once. */
  function Single(v: HandView): Rank
  {
    LastSingle(Keys(Ranks(v.cards)), Ranks(v.cards), Two)
  }

  /**
   * In a hand sorted by rank, the second pair is the lowest pair other than
   * HighCard and the odd card the lowest rank occurring once.
   */
  lemma SortedTieBreakRanks(v: HandView)
    requires SortedByRank(v.cards)
    ensures forall r: Rank :: IsOtherPair(Ranks(v.cards), v.highCard, r) ==>
              IsOtherPair(Ranks(v.cards), v.highCard, SecondPair(v)) && SecondPair(v) <= r
    ensures forall r: Rank :: CountOf(Ranks(v.cards), r) == 1 ==> CountOf(Ranks(v.cards), Single(v)) == 1 && Single(v) <= r
  {
    SortedRanksDescend(v.cards);
    KeysOfSortedRanksDescend(Ranks(v.cards));
  }

  /** Compare(x, y): the shared checks, then the high pair, the second pair and the odd card in turn. */
  function Compare(x: HandView, y: HandView): (r: Result<int, Error>)
    ensures r == Err(CountMismatch) <==> x.Count() != y.Count()
    ensures r == Err(NotThisCategory) <==>
            x.Count() == y.Count() && x.category != TwoPair && y.category != TwoPair
    ensures x.Count() == y.Count() && x.category == TwoPair && y.category != TwoPair ==> r == Ok(-1)
    ensures x.Count() == y.Count() && x.category != TwoPair && y.category == TwoPair ==> r == Ok(1)
    ensures x.Count() == y.Count() && x.category == TwoPair == y.category ==>
            r == Ok(LexCompare([x.highCard, SecondPair(x), Single(x)], [y.highCard, SecondPair(y), Single(y)]))
  {
    match Gate(TwoPair, x, y)
    case Some(decided) => decided
    case None =>
      var xPair, yPair, xSingle, ySingle := SecondPair(x), SecondPair(y), Single(x), Single(y);
      ThreeLevels(x.highCard, xPair, xSingle, y.highCard, yPair, ySingle);
      if x.highCard != y.highCard then Ok(CompareDescending(x.highCard, y.highCard))
      else if xPair != yPair then Ok(CompareDescending(xPair, yPair))
      else Ok(CompareDescending(xSingle, ySingle))
  }

  lemma ThreeLevels(a0: int, a1: int, a2: int, b0: int, b1: int, b2: int)
    ensures LexCompare([a0, a1, a2], [b0, b1, b2]) ==
            if a0 != b0 then CompareDescending(a0, b0)
            else if a1 != b1 then CompareDescending(a1, b1)
            else CompareDescending(a2, b2)
  {
    assert [a2][1..] == [] && [b2][1..] == [];
    assert LexCompare([a2], [b2]) == CompareDescending(a2, b2);
    assert [a1, a2][1..] == [a2] && [b1, b2][1..] == [b2];
    assert LexCompare([a1, a2], [b1, b2]) ==
           if a1 != b1 then CompareDescending(a1, b1) else LexCompare([a2], [b2]);
    assert [a0, a1, a2][1..] == [a1, a2] && [b0, b1, b2][1..] == [b1, b2];
  }

  /** The foreach over one hand's Dictionary, collecting its second pair and its odd card. */
  method PairAndSingle(v: HandView) returns (pair: Rank, single: Rank)
    ensures pair == SecondPair(v) && single == Single(v)
  {
    var keys, counts := Tally(v.cards);
    pair := v.highCard;
    single := Two;
    for i := 0 to |keys|
      invariant LastOtherPair(keys[i..], Ranks(v.cards), v.highCard, pair) == SecondPair(v)
      invariant LastSingle(keys[i..], Ranks(v.cards), single) == Single(v)
    {
      assert keys[i..][1..] == keys[i + 1..];
      if keys[i] != v.highCard && counts[keys[i]] == 2 {
        pair := keys[i];
      }
      if counts[keys[i]] == 1 {
        single := keys[i];
      }
    }
    assert keys[|keys|..] == [];
  }

  /** Compare(x, y) as written, building both Dictionaries before the three comparisons. */
  method CompareHands(x: HandView, y: HandView) returns (r: Result<int, Error>)
    ensures r == Compare(x, y)
  {
    if x.Count() != y.Count() {
      return Err(CountMismatch);
    }
    if x.category != TwoPair && y.category != TwoPair {
      return Err(NotThisCategory);
    }
    if x.category != TwoPair && y.category == TwoPair {
      return Ok(-1 * SortDirection);
    }
    if x.category == TwoPair && y.category != TwoPair {
      return Ok(1 * SortDirection);
    }
    if x.highCard < y.highCard {
      return Ok(-1 * SortDirection);
    }
    if x.highCard > y.highCard {
      return Ok(1 * SortDirection);
    }
    var xPair, xSingle := PairAndSingle(x);
    var yPair, ySingle := PairAndSingle(y);
    if xPair < yPair {
      return Ok(-1 * SortDirection);
    }
    if xPair > yPair {
      return Ok(1 * SortDirection);
    }
    if xSingle < ySingle {
      return Ok(-1 * SortDirection);
    }
    if xSingle > ySingle {
      return Ok(1 * SortDirection);
    }
    return Ok(0);
  }
}
