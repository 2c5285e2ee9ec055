/**
 * HighCardComparer (Hands/Comparers/HighCardComparer.cs): every non-empty
 * hand is a high-card hand, and two hands are ordered card by card with the
 * card comparer, ignoring their categories. The other comparers use it for
 * their kickers.
 */
module HighCardComparer {
  import opened Wrappers
  import opened Errors
  import opened Cards
  import opened HandViews

  /** Compare(hand): an empty hand has no high card; any other hand is headed by its first card. */
  function Classify(cards: seq<Card>): (c: Classification)
    ensures c.category == HighCard
    ensures cards == [] ==> c == NoMatch
    ensures cards != [] ==> c.high == cards[0].rank
    ensures cards != [] && SortedByRank(cards) ==> forall i :: 0 <= i < |cards| ==> cards[i].rank <= c.high
  {
    if |cards| == 0 then NoMatch
    else Classification(HighCard, cards[0].rank)
  }

  /** The card comparer's value at the first position where it is non-zero, or 0 when there is none. */
  function Kickers(xs: seq<Card>, ys: seq<Card>): (order: int)
    requires |xs| == |ys|
    ensures order == LexCompare(Ranks(xs), Ranks(ys))
    decreases |xs|
  {
    if xs == [] then 0
    else if CompareCards(xs[0], ys[0]) != 0 then CompareCards(xs[0], ys[0])
    else
      assert Ranks(xs)[1..] == Ranks(xs[1..]) && Ranks(ys)[1..] == Ranks(ys[1..]);
      Kickers(xs[1..], ys[1..])
  }

  /**
   * Compare(x, y): refused for hands of different Count; otherwise the hand
   * whose ranks, read from the top, are the first to be higher orders first.
   */
  function Compare(x: HandView, y: HandView): (r: Result<int, Error>)
    ensures r.Err? <==> x.Count() != y.Count()
    ensures r.Err? ==> r.error == CountMismatch
    ensures r.Ok? ==> r.value == LexCompare(Ranks(x.cards), Ranks(y.cards))
    ensures r.Ok? ==> (r.value == 0 <==> Ranks(x.cards) == Ranks(y.cards))
  {
    if x.Count() != y.Count() then Err(CountMismatch)
    else Ok(Kickers(x.cards, y.cards))
  }

  /** The loop of Compare(x, y), returning at the first position the card comparer does not call equal. */
  method CompareHands(x: HandView, y: HandView) returns (r: Result<int, Error>)
    ensures r == Compare(x, y)
  {
    if x.Count() != y.Count() {
      return Err(CountMismatch);
    }
    for i := 0 to x.Count()
      invariant Kickers(x.cards, y.cards) == Kickers(x.cards[i..], y.cards[i..])
    {
      var value := CompareCards(x.cards[i], y.cards[i]);
      assert x.cards[i..][1..] == x.cards[i + 1..] && y.cards[i..][1..] == y.cards[i + 1..];
      if value != 0 {
        return Ok(value);
      }
    }
    return Ok(0);
  }

  lemma CompareIsAntisymmetric(x: HandView, y: HandView)
    ensures Compare(x, y).Ok? <==> Compare(y, x).Ok?
    ensures Compare(x, y).Ok? ==> Compare(x, y).value == -Compare(y, x).value
  {
    if x.Count() == y.Count() {
      LexCompareIsAntisymmetric(Ranks(x.cards), Ranks(y.cards));
    }
  }

  lemma CompareIsReflexive(x: HandView)
    ensures Compare(x, x) == Ok(0)
  {
  }

  /** Suits play no part: hands with the same ranks position by position compare equal. */
  lemma CompareIgnoresSuitsAndCategories(x: HandView, y: HandView)
    requires Ranks(x.cards) == Ranks(y.cards)
    ensures Compare(x, y) == Ok(0)
  {
  }
}
