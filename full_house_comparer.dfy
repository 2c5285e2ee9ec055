/**
 * FullHouseComparer (Hands/Comparers/FullHouseComparer.cs): exactly two
 * distinct ranks, one of them three times, ranked by that rank and then by
 * the kickers.
 */
module FullHouseComparer {
  import opened Wrappers
  import opened Errors
  import opened Cards
  import opened HandViews
  import HighCardComparer

  /** Compare(hand): at least five cards, exactly two distinct ranks, and one of them three times. */
  function Classify(cards: seq<Card>): (c: Classification)
    ensures c == NoMatch || c.category == FullHouse
    ensures c != NoMatch <==>
            |cards| >= 5 && |Keys(Ranks(cards))| == 2 && exists r: Rank :: CountOf(Ranks(cards), r) == 3
    ensures c != NoMatch ==> CountOf(Ranks(cards), c.high) == 3
    ensures c != NoMatch && SortedByRank(cards) ==> forall r: Rank :: CountOf(Ranks(cards), r) == 3 ==> r <= c.high
  {
    if |cards| < 5 then NoMatch
    else
      var ranks := Ranks(cards);
      var keys := Keys(ranks);
      if |keys| != 2 then NoMatch
      else
        var i := FirstWithCount(keys, ranks, 3);
        FirstWithCountOfHand(cards, 3);
        if i == |keys| then NoMatch else Classification(FullHouse, keys[i])
  }

  /** Compare(hand) as written: the counting loop, then the foreach over the Dictionary. */
  method Detect(cards: seq<Card>) returns (c: Classification)
    ensures c == Classify(cards)
  {
    if |cards| < 5 {
      return NoMatch;
    }
    var keys, counts := Tally(cards);
    if |keys| != 2 {
      return NoMatch;
    }
    var i := FindWithCount(keys, counts, Ranks(cards), 3);
    if i < |keys| {
      return Classification(FullHouse, keys[i]);
    }
    return NoMatch;
  }

  /** Compare(x, y): the shared checks, then the rank of the three, then the kickers unchanged. */
  function Compare(x: HandView, y: HandView): (r: Result<int, Error>)
    ensures r == Err(CountMismatch) <==> x.Count() != y.Count()
    ensures r == Err(NotThisCategory) <==>
            x.Count() == y.Count() && x.category != FullHouse && y.category != FullHouse
    ensures x.Count() == y.Count() && x.category == FullHouse && y.category != FullHouse ==> r == Ok(-1)
    ensures x.Count() == y.Count() && x.category != FullHouse && y.category == FullHouse ==> r == Ok(1)
    ensures x.Count() == y.Count() && x.category == FullHouse == y.category ==>
            (x.highCard > y.highCard ==> r == Ok(-1)) &&
            (x.highCard < y.highCard ==> r == Ok(1)) &&
            (x.highCard == y.highCard ==> r == HighCardComparer.Compare(x, y))
  {
    match Gate(FullHouse, x, y)
    case Some(decided) => decided
    case None =>
      if x.highCard != y.highCard then Ok(CompareDescending(x.highCard, y.highCard))
      else HighCardComparer.Compare(x, y)
  }
}
