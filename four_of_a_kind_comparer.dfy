/**
 * FourOfAKindComparer (Hands/Comparers/FourOfAKindComparer.cs): a rank
 * occurring four times among at most two distinct ranks, ranked by that rank
 * and then by the kickers.
 */
module FourOfAKindComparer {
  import opened Wrappers
  import opened Errors
  import opened Cards
  import opened HandViews
  import HighCardComparer

  /** Compare(hand): at least five cards, at most two distinct ranks, and one of them four times. */
  function Classify(cards: seq<Card>): (c: Classification)
    ensures c == NoMatch || c.category == FourOfAKind
    ensures c != NoMatch <==>
            |cards| >= 5 && |Keys(Ranks(cards))| <= 2 && exists r: Rank :: CountOf(Ranks(cards), r) == 4
    ensures c != NoMatch ==> CountOf(Ranks(cards), c.high) == 4
    ensures c != NoMatch && SortedByRank(cards) ==> forall r: Rank :: CountOf(Ranks(cards), r) == 4 ==> r <= c.high
  {
    if |cards| < 5 then NoMatch
    else
      var ranks := Ranks(cards);
      var keys := Keys(ranks);
      if |keys| > 2 then NoMatch
      else
        var i := FirstWithCount(keys, ranks, 4);
        FirstWithCountOfHand(cards, 4);
        if i == |keys| then NoMatch else Classification(FourOfAKind, keys[i])
  }

  /** Compare(hand) as written: the counting loop, then the foreach over the Dictionary. */
  method Detect(cards: seq<Card>) returns (c: Classification)
    ensures c == Classify(cards)
  {
    if |cards| < 5 {
      return NoMatch;
    }
    var keys, counts := Tally(cards);
    if |keys| > 2 {
      return NoMatch;
    }
    var i := FindWithCount(keys, counts, Ranks(cards), 4);
    if i < |keys| {
      return Classification(FourOfAKind, keys[i]);
    }
    return NoMatch;
  }

  /** Compare(x, y): the shared checks, then the rank of the four, then the kickers unchanged. */
  function Compare(x: HandView, y: HandView): (r: Result<int, Error>)
    ensures r == Err(CountMismatch) <==> x.Count() != y.Count()
    ensures r == Err(NotThisCategory) <==>
            x.Count() == y.Count() && x.category != FourOfAKind && y.category != FourOfAKind
    ensures x.Count() == y.Count() && x.category == FourOfAKind && y.category != FourOfAKind ==> r == Ok(-1)
    ensures x.Count() == y.Count() && x.category != FourOfAKind && y.category == FourOfAKind ==> r == Ok(1)
    ensures x.Count() == y.Count() && x.category == FourOfAKind == y.category ==>
            (x.highCard > y.highCard ==> r == Ok(-1)) &&
            (x.highCard < y.highCard ==> r == Ok(1)) &&
            (x.highCard == y.highCard ==> r == HighCardComparer.Compare(x, y))
  {
    match Gate(FourOfAKind, x, y)
    case Some(decided) => decided
    case None =>
      if x.highCard != y.highCard then Ok(CompareDescending(x.highCard, y.highCard))
      else HighCardComparer.Compare(x, y)
  }
}
