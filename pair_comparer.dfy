/**
 * PairComparer (Hands/Comparers/PairComparer.cs): one pair, ranked by the
 * pair's rank and then by the remaining cards through the high-card comparer.
 */
module PairComparer {
  import opened Wrappers
  import opened Errors
  import opened Cards
  import opened HandViews
  import HighCardComparer

  /**
   * Compare(hand): at least five cards, at most four distinct ranks, and a
   * rank occurring exactly twice; the rank reported is the first such rank
   * the rank-count Dictionary yields.
   */
  function Classify(cards: seq<Card>): (c: Classification)
    ensures c == NoMatch || c.category == OnePair
    ensures c != NoMatch <==>
            |cards| >= 5 && |Keys(Ranks(cards))| <= 4 && exists r: Rank :: CountOf(Ranks(cards), r) == 2
    ensures c != NoMatch ==> CountOf(Ranks(cards), c.high) == 2
    ensures c != NoMatch && SortedByRank(cards) ==> forall r: Rank :: CountOf(Ranks(cards), r) == 2 ==> r <= c.high
  {
    if |cards| < 5 then NoMatch
    else
      var ranks := Ranks(cards);
      var keys := Keys(ranks);
      if |keys| > 4 then NoMatch
      else
        var i := FirstWithCount(keys, ranks, 2);
        FirstWithCountOfHand(cards, 2);
        if i == |keys| then NoMatch else Classification(OnePair, keys[i])
  }

  /** Compare(hand) as written: the counting loop, then the foreach over the Dictionary. */
  method Detect(cards: seq<Card>) returns (c: Classification)
    ensures c == Classify(cards)
  {
    if |cards| < 5 {
      return NoMatch;
    }
    var keys, counts := Tally(cards);
    if |keys| > 4 {
      return NoMatch;
    }
    var i := FindWithCount(keys, counts, Ranks(cards), 2);
    if i < |keys| {
      return Classification(OnePair, keys[i]);
    }
    return NoMatch;
  }

  /** Compare(x, y): the shared checks, then the pair's rank, then the kickers unchanged. */
  function Compare(x: HandView, y: HandView): (r: Result<int, Error>)
    ensures r == Err(CountMismatch) <==> x.Count() != y.Count()
    ensures r == Err(NotThisCategory) <==>
            x.Count() == y.Count() && x.category != OnePair && y.category != OnePair
    ensures x.Count() == y.Count() && x.category == OnePair && y.category != OnePair ==> r == Ok(-1)
    ensures x.Count() == y.Count() && x.category != OnePair && y.category == OnePair ==> r == Ok(1)
    ensures x.Count() == y.Count() && x.category == OnePair == y.category ==>
            (x.highCard > y.highCard ==> r == Ok(-1)) &&
            (x.highCard < y.highCard ==> r == Ok(1)) &&
            (x.highCard == y.highCard ==> r == HighCardComparer.Compare(x, y))
  {
    match Gate(OnePair, x, y)
    case Some(decided) => decided
    case None =>
      if x.highCard != y.highCard then Ok(CompareDescending(x.highCard, y.highCard))
      else HighCardComparer.Compare(x, y)
  }
}
