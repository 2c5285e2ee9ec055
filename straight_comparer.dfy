/**
 * StraightComparer (Hands/Comparers/StraightComparer.cs): every card one
 * rank below the card before it, ranked by the top card alone.
 */
module StraightComparer {
  import opened Wrappers
  import opened Errors
  import opened Cards
  import opened HandViews

  /** Each card ranks exactly one below the card before it; suits are not looked at. */
  predicate Consecutive(cards: seq<Card>)
  {
    forall i :: 0 <= i < |cards| - 1 ==> cards[i + 1].rank == cards[i].rank - 1
  }

  lemma {:induction false} ConsecutiveFromTop(cards: seq<Card>, i: nat)
    requires Consecutive(cards) && i < |cards|
    ensures cards[i].rank == cards[0].rank - i
    decreases i
  {
    if i > 0 {
      ConsecutiveFromTop(cards, i - 1);
    }
  }

  /** A consecutive run is determined by its top card: position i holds rank top - i. */
  lemma RunFromTop(cards: seq<Card>)
    requires Consecutive(cards)
    ensures forall i :: 0 <= i < |cards| ==> cards[i].rank == cards[0].rank - i
  {
    forall i | 0 <= i < |cards|
      ensures cards[i].rank == cards[0].rank - i
    {
      ConsecutiveFromTop(cards, i);
    }
  }

  /** Compare(hand): at least five cards forming a descending run; the top card is the high card. */
  function Classify(cards: seq<Card>): (c: Classification)
    ensures c == NoMatch || c.category == Straight
    ensures c != NoMatch <==> |cards| >= 5 && Consecutive(cards)
    ensures c != NoMatch ==> c.high == cards[0].rank
    ensures c != NoMatch ==> forall i :: 0 <= i < |cards| ==> cards[i].rank == c.high - i
    ensures c != NoMatch ==> c.high >= |cards| - 1
  {
    if |cards| < 5 then NoMatch
    else if Consecutive(cards) then
      RunFromTop(cards);
      assert cards[|cards| - 1].rank >= 0;
      Classification(Straight, cards[0].rank)
    else NoMatch
  }

  /** Compare(hand) as written: scan neighbouring cards and stop at the first gap. */
  method Detect(cards: seq<Card>) returns (c: Classification)
    ensures c == Classify(cards)
  {
    if |cards| < 5 {
      return NoMatch;
    }
    for i := 0 to |cards| - 1
      invariant forall t :: 0 <= t < i ==> cards[t + 1].rank == cards[t].rank - 1
    {
      if cards[i + 1].rank != cards[i].rank - 1 {
        return NoMatch;
      }
    }
    return Classification(Straight, cards[0].rank);
  }

  /** Compare(x, y): the shared checks, then the top card alone. */
  function Compare(x: HandView, y: HandView): (r: Result<int, Error>)
    ensures r == Err(CountMismatch) <==> x.Count() != y.Count()
    ensures r == Err(NotThisCategory) <==>
            x.Count() == y.Count() && x.category != Straight && y.category != Straight
    ensures x.Count() == y.Count() && x.category == Straight && y.category != Straight ==> r == Ok(-1)
    ensures x.Count() == y.Count() && x.category != Straight && y.category == Straight ==> r == Ok(1)
    ensures x.Count() == y.Count() && x.category == Straight == y.category ==>
            r == Ok(LexCompare([x.highCard], [y.highCard]))
  {
    assert [x.highCard][1..] == [] && [y.highCard][1..] == [];
    match Gate(Straight, x, y)
    case Some(decided) => decided
    case None => Ok(CompareDescending(x.highCard, y.highCard))
  }

  /** The Ace does not play low: Ace, Five, Four, Three, Two is not a straight. */
  lemma NoWheel(s0: Suit, s1: Suit, s2: Suit, s3: Suit, s4: Suit)
    ensures Classify([NewCard(Ace, s0), NewCard(Five, s1), NewCard(Four, s2),
                      NewCard(Three, s3), NewCard(Two, s4)]) == NoMatch
  {
    var cards := [NewCard(Ace, s0), NewCard(Five, s1), NewCard(Four, s2), NewCard(Three, s3), NewCard(Two, s4)];
    assert cards[1].rank != cards[0].rank - 1;
  }

  /** Six down to Two is the lowest five-card straight. */
  lemma LowestStraight(cards: seq<Card>)
    requires |cards| == 5 && Classify(cards) != NoMatch
    ensures Classify(cards).high >= Six
  {
  }
}
