/**
 * Hand (Hands/Hand.cs): a list of cards kept sorted from Ace down to Two,
 * with its Type and HighCard cached. Every change to the cards re-sorts them
 * and asks the hand comparer again.
 */
module Hands {
  import opened Wrappers
  import opened Errors
  import opened Cards
  import opened HandViews
  import HandComparer

  /** List.Remove: drops the first card equal to the given one, when there is one. */
  function RemoveFirst(cards: seq<Card>, card: Card): (r: seq<Card>)
    ensures card in cards ==> multiset(r) == multiset(cards) - multiset{card} && |r| == |cards| - 1
    ensures card !in cards ==> r == cards
  {
    if cards == [] then []
    else if cards[0] == card then
      assert cards == [cards[0]] + cards[1..];
      cards[1..]
    else
      assert cards == [cards[0]] + cards[1..];
      [cards[0]] + RemoveFirst(cards[1..], card)
  }

  class Hand {
    /** _cards */
    var cards: seq<Card>
    /** Type */
    var category: Category
    /** HighCard */
    var highCard: Rank

    /** The cards are in rank order, and Type and HighCard are the hand comparer's answer for them. */
    ghost predicate Valid()
      reads this
    {
      SortedByRank(cards) && Classification(category, highCard) == HandComparer.Classify(cards)
    }

    /** The hand as IHand shows it to the comparers. */
    function View(): HandView
      reads this
    {
      HandView(cards, category, highCard)
    }

    /** Hand(cards, ...): sort the cards, then classify them. */
    constructor(cards: seq<Card>)
      ensures this.cards == SortByRank(cards)
      ensures multiset(this.cards) == multiset(cards)
      ensures Valid()
    {
      var sorted := SortByRank(cards);
      var comparison := HandComparer.Detect(sorted);
      this.cards := sorted;
      category := comparison.category;
      highCard := comparison.high;
    }

    /** The re-sort and reclassification that follows every change to the cards. */
    method SortAndClassify()
      modifies this
      ensures cards == SortByRank(old(cards))
      ensures Valid()
    {
      cards := SortByRank(cards);
      var comparison := HandComparer.Detect(cards);
      category := comparison.category;
      highCard := comparison.high;
    }

    /** Add(card): one more card, then re-sort and reclassify. */
    method Add(card: Card)
      modifies this
      ensures cards == SortByRank(old(cards) + [card])
      ensures multiset(cards) == multiset(old(cards)) + multiset{card}
      ensures |cards| == |old(cards)| + 1
      ensures Valid()
    {
      cards := cards + [card];
      SortAndClassify();
    }

    /**
     * Discard(card): take out one card equal to the given one and re-sort and
     * reclassify; a card the hand does not hold leaves it as it is.
     */
    method Discard(card: Card) returns (removed: bool)
      requires Valid()
      modifies this
      ensures removed <==> card in old(cards)
      ensures removed ==> cards == SortByRank(RemoveFirst(old(cards), card))
      ensures removed ==> multiset(cards) == multiset(old(cards)) - multiset{card} && |cards| == |old(cards)| - 1
      ensures !removed ==> unchanged(this)
      ensures Valid()
    {
      removed := card in cards;
      if removed {
        cards := RemoveFirst(cards, card);
        SortAndClassify();
      }
    }

    /** ICollection.Clear(): no cards, and Type and HighCard back to zero, which is what an empty hand classifies as. */
    method Clear()
      modifies this
      ensures cards == [] && category == HighCard && highCard == Two
      ensures Valid()
    {
      cards := [];
      category := 0;
      highCard := 0;
      HandComparer.EmptyHandIsNoMatch();
    }

    /** ICollection.Remove(item): the same as Discard. */
    method Remove(card: Card) returns (removed: bool)
      requires Valid()
      modifies this
      ensures removed <==> card in old(cards)
      ensures removed ==> cards == SortByRank(RemoveFirst(old(cards), card))
      ensures !removed ==> unchanged(this)
      ensures Valid()
    {
      removed := Discard(card);
    }

    /** CompareTo(other): the hand comparer's order of this hand against the other. */
    method CompareTo(other: HandView) returns (r: Result<int, Error>)
      ensures r == HandComparer.Compare(View(), other)
    {
      r := HandComparer.CompareHands(View(), other);
    }
  }

  /**
   * Adding a card and then discarding it gives back the same cards, up to
   * the order of cards of equal rank, and the same Type and HighCard: the
   * cards Hand.Add and then Hand.Discard leave are those of the hand before.
   */
  lemma {:induction false} AddThenDiscard(cards: seq<Card>, card: Card)
    requires SortedByRank(cards)
    ensures var added := SortByRank(cards + [card]);
            card in added &&
            var after := SortByRank(RemoveFirst(added, card));
            multiset(after) == multiset(cards) &&
            Ranks(after) == Ranks(cards) &&
            HandComparer.Classify(after) == HandComparer.Classify(cards)
  {
    AddThenDiscardSameCards(cards, card);
    SameHandAgain(SortByRank(RemoveFirst(SortByRank(cards + [card]), card)), cards);
  }

  /** The multiset half of AddThenDiscard. */
  lemma AddThenDiscardSameCards(cards: seq<Card>, card: Card)
    ensures card in SortByRank(cards + [card])
    ensures multiset(SortByRank(RemoveFirst(SortByRank(cards + [card]), card))) == multiset(cards)
  {
    var added := SortByRank(cards + [card]);
    assert card in multiset(added);
    var removed := RemoveFirst(added, card);
    assert multiset(removed) == multiset(added) - multiset{card};
    assert multiset(added) == multiset(cards) + multiset{card};
  }

  /** Two sorted arrangements of the same cards have the same ranks and the same classification. */
  lemma SameHandAgain(s: seq<Card>, t: seq<Card>)
    requires SortedByRank(s) && SortedByRank(t) && multiset(s) == multiset(t)
    ensures Ranks(s) == Ranks(t) && HandComparer.Classify(s) == HandComparer.Classify(t)
  {
    HandComparer.ClassifyIgnoresOrderOfEqualRanks(s, t);
    SortedHandsHaveSameRanks(s, t);
  }
}
