/**
 * FlushComparer (Hands/Comparers/FlushComparer.cs): every card of one suit,
 * ranked by the high-card comparer.
 */
module FlushComparer {
  import opened Wrappers
  import opened Errors
  import opened Cards
  import opened HandViews
  import HighCardComparer

  /** Every card has the suit of the first card. */
  predicate SameSuit(cards: seq<Card>)
  {
    forall i :: 0 <= i < |cards| ==> cards[i].suit == cards[0].suit
  }

  /** Compare(hand): at least five cards, none of a suit other than the first card's. */
  function Classify(cards: seq<Card>): (c: Classification)
    ensures c == NoMatch || c.category == Flush
    ensures c != NoMatch <==> |cards| >= 5 && SameSuit(cards)
    ensures c != NoMatch ==> c.high == cards[0].rank
    ensures c != NoMatch && SortedByRank(cards) ==> forall i :: 0 <= i < |cards| ==> cards[i].rank <= c.high
  {
    if |cards| < 5 then NoMatch
    else if exists card :: card in cards && card.suit != cards[0].suit then NoMatch
    else Classification(Flush, cards[0].rank)
  }

  /** Ranks play no part in detection: hands whose suits agree card by card are both flushes or neither. */
  lemma DetectionIgnoresRanks(cards: seq<Card>, other: seq<Card>)
    requires |cards| == |other|
    requires forall i :: 0 <= i < |cards| ==> cards[i].suit == other[i].suit
    ensures (Classify(cards) == NoMatch) == (Classify(other) == NoMatch)
  {
  }

  /** SameSuit compares with the first card, which is the same as all cards sharing one suit. */
  lemma SameSuitIsOneSuit(cards: seq<Card>)
    ensures SameSuit(cards) <==> forall a, b :: a in cards && b in cards ==> a.suit == b.suit
  {
    if SameSuit(cards) {
      forall a, b | a in cards && b in cards
        ensures a.suit == b.suit
      {
        var i :| 0 <= i < |cards| && cards[i] == a;
        var j :| 0 <= j < |cards| && cards[j] == b;
      }
    }
  }

  /** The order of the cards plays no part in detection: a rearranged hand is a flush exactly when the original is. */
  lemma DetectionIgnoresOrder(cards: seq<Card>, other: seq<Card>)
    requires multiset(cards) == multiset(other)
    ensures (Classify(cards) == NoMatch) == (Classify(other) == NoMatch)
  {
    assert |multiset(cards)| == |cards| && |multiset(other)| == |other|;
    assert forall c :: c in cards <==> c in other by {
      forall c
        ensures c in cards <==> c in other
      {
        assert c in cards <==> c in multiset(cards);
        assert c in other <==> c in multiset(other);
      }
    }
    SameSuitIsOneSuit(cards);
    SameSuitIsOneSuit(other);
  }

  /** Compare(x, y): the shared checks, then the high-card comparer's answer. */
  function Compare(x: HandView, y: HandView): (r: Result<int, Error>)
    ensures r == Err(CountMismatch) <==> x.Count() != y.Count()
    ensures r == Err(NotThisCategory) <==>
            x.Count() == y.Count() && x.category != Flush && y.category != Flush
    ensures x.Count() == y.Count() && x.category == Flush && y.category != Flush ==> r == Ok(-1)
    ensures x.Count() == y.Count() && x.category != Flush && y.category == Flush ==> r == Ok(1)
    ensures x.Count() == y.Count() && x.category == Flush == y.category ==>
            r == Ok(LexCompare(Ranks(x.cards), Ranks(y.cards)))
  {
    match Gate(Flush, x, y)
    case Some(decided) => decided
    case None => HighCardComparer.Compare(x, y)
  }
}
