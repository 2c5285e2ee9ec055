/**
 * StraightFlushComparer (Hands/Comparers/StraightFlushComparer.cs): a
 * descending run all of one suit, ranked by the top card alone.
 */
module StraightFlushComparer {
  import opened Wrappers
  import opened Errors
  import opened Cards
  import opened HandViews
  import StraightComparer
  import FlushComparer

  /** The loop's test at position i: the next card has the first card's suit and ranks one lower. */
  predicate SuitedStep(cards: seq<Card>, i: nat)
    requires i < |cards| - 1
  {
    cards[i + 1].suit == cards[0].suit && cards[i + 1].rank == cards[i].rank - 1
  }

  /** Compare(hand): at least five cards, each of the first card's suit and one rank below its predecessor. */
  function Classify(cards: seq<Card>): (c: Classification)
    ensures c == NoMatch || c.category == StraightFlush
    ensures c != NoMatch <==>
            FlushComparer.Classify(cards) != NoMatch && StraightComparer.Classify(cards) != NoMatch
    ensures c != NoMatch ==> c.high == cards[0].rank
    ensures c != NoMatch ==> c.high == StraightComparer.Classify(cards).high == FlushComparer.Classify(cards).high
  {
    if |cards| < 5 then NoMatch
    else if forall i :: 0 <= i < |cards| - 1 ==> SuitedStep(cards, i) then
      assert FlushComparer.SameSuit(cards) by {
        forall i | 0 < i < |cards|
          ensures cards[i].suit == cards[0].suit
        {
          assert SuitedStep(cards, i - 1);
        }
      }
      assert StraightComparer.Consecutive(cards) by {
        forall i | 0 <= i < |cards| - 1
          ensures cards[i + 1].rank == cards[i].rank - 1
        {
          assert SuitedStep(cards, i);
        }
      }
      Classification(StraightFlush, cards[0].rank)
    else
      assert !(FlushComparer.SameSuit(cards) && StraightComparer.Consecutive(cards));
      NoMatch
  }

  /** Compare(hand) as written: one scan checking suit and run together, stopping at the first failure. */
  method Detect(cards: seq<Card>) returns (c: Classification)
    ensures c == Classify(cards)
  {
    if |cards| < 5 {
      return NoMatch;
    }
    var suit := cards[0].suit;
    for i := 0 to |cards| - 1
      invariant forall t :: 0 <= t < i ==> SuitedStep(cards, t)
    {
      if suit != cards[i + 1].suit {
        return NoMatch;
      }
      if cards[i + 1].rank != cards[i].rank - 1 {
        return NoMatch;
      }
    }
    return Classification(StraightFlush, cards[0].rank);
  }

  /** Compare(x, y): the shared checks, then the top card alone. */
  function Compare(x: HandView, y: HandView): (r: Result<int, Error>)
    ensures r == Err(CountMismatch) <==> x.Count() != y.Count()
    ensures r == Err(NotThisCategory) <==>
            x.Count() == y.Count() && x.category != StraightFlush && y.category != StraightFlush
    ensures x.Count() == y.Count() && x.category == StraightFlush && y.category != StraightFlush ==> r == Ok(-1)
    ensures x.Count() == y.Count() && x.category != StraightFlush && y.category == StraightFlush ==> r == Ok(1)
    ensures x.Count() == y.Count() && x.category == StraightFlush == y.category ==>
            r == Ok(LexCompare([x.highCard], [y.highCard]))
  {
    assert [x.highCard][1..] == [] && [y.highCard][1..] == [];
    match Gate(StraightFlush, x, y)
    case Some(decided) => decided
    case None => Ok(CompareDescending(x.highCard, y.highCard))
  }
}
