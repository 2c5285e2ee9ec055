/**
 * ThreeOfAKindComparer. Its source file is not part of this model; what it
 * does is reconstructed from its tests and from the Pair and FullHouse
 * comparers it parallels: a rank occurring exactly three times among at most
 * three distinct ranks, ranked by that rank and then by the kickers.
 */
module ThreeOfAKindComparer {
  import opened Wrappers
  import opened Errors
  import opened Cards
  import opened HandViews
  import HighCardComparer

  /** Compare(hand): at least five cards, at most three distinct ranks, and a rank occurring three times. */
  function Classify(cards: seq<Card>): (c: Classification)
    ensures c == NoMatch || c.category == ThreeOfAKind
    ensures c != NoMatch <==>
            |cards| >= 5 && |Keys(Ranks(cards))| <= 3 && exists r: Rank :: CountOf(Ranks(cards), r) == 3
    ensures c != NoMatch ==> CountOf(Ranks(cards), c.high) == 3
    ensures c != NoMatch && SortedByRank(cards) ==> forall r: Rank :: CountOf(Ranks(cards), r) == 3 ==> r <= c.high
  {
    if |cards| < 5 then NoMatch
    else
      var ranks := Ranks(cards);
      var keys := Keys(ranks);
      if |keys| > 3 then NoMatch
      else
        var i := FirstWithCount(keys, ranks, 3);
        FirstWithCountOfHand(cards, 3);
        if i == |keys| then NoMatch else Classification(ThreeOfAKind, keys[i])
  }

  /** Compare(x, y): the shared checks, then the rank of the three, then the kickers unchanged. */
  function Compare(x: HandView, y: HandView): (r: Result<int, Error>)
    ensures r == Err(CountMismatch) <==> x.Count() != y.Count()
    ensures r == Err(NotThisCategory) <==>
            x.Count() == y.Count() && x.category != ThreeOfAKind && y.category != ThreeOfAKind
    ensures x.Count() == y.Count() && x.category == ThreeOfAKind && y.category != ThreeOfAKind ==> r == Ok(-1)
    ensures x.Count() == y.Count() && x.category != ThreeOfAKind && y.category == ThreeOfAKind ==> r == Ok(1)
    ensures x.Count() == y.Count() && x.category == ThreeOfAKind == y.category ==>
            (x.highCard > y.highCard ==> r == Ok(-1)) &&
            (x.highCard < y.highCard ==> r == Ok(1)) &&
            (x.highCard == y.highCard ==> r == HighCardComparer.Compare(x, y))
  {
    match Gate(ThreeOfAKind, x, y)
    case Some(decided) => decided
    case None =>
      if x.highCard != y.highCard then Ok(CompareDescending(x.highCard, y.highCard))
      else HighCardComparer.Compare(x, y)
  }

  /** Eight, three Sevens and a Four: three of a kind in Sevens. */
  lemma ThreeSevensMatch()
    ensures Classify([NewCard(Eight, Spades), NewCard(Seven, Spades), NewCard(Seven, Spades),
                      NewCard(Seven, Spades), NewCard(Four, Spades)]) == Classification(ThreeOfAKind, Seven)
  {
    var cards := [NewCard(Eight, Spades), NewCard(Seven, Spades), NewCard(Seven, Spades),
                  NewCard(Seven, Spades), NewCard(Four, Spades)];
    var ranks: seq<Rank> := [Eight, Seven, Seven, Seven, Four];
    assert Ranks(cards) == ranks;
    SevensKeys();
    var keys := [Eight, Seven, Four];
    assert CountOf(Ranks(cards), Eight) == 1 && CountOf(Ranks(cards), Seven) == 3 by {
      assert multiset(ranks) == multiset{Eight, Seven, Seven, Seven, Four};
    }
    assert FirstWithCount(keys[1..], Ranks(cards), 3) == 0;
    assert FirstWithCount(keys, Ranks(cards), 3) == 1;
  }

  lemma SevensKeys()
    ensures Keys([Eight, Seven, Seven, Seven, Four]) == [Eight, Seven, Four]
  {
    var ranks: seq<Rank> := [Eight, Seven, Seven, Seven, Four];
    assert Keys([Eight]) == [Eight] by {
      assert [Eight][..0] == [];
    }
    assert Keys([Eight, Seven]) == [Eight, Seven] by {
      assert [Eight, Seven][..1] == [Eight];
    }
    assert Keys([Eight, Seven, Seven]) == [Eight, Seven] by {
      assert [Eight, Seven, Seven][..2] == [Eight, Seven];
    }
    assert Keys([Eight, Seven, Seven, Seven]) == [Eight, Seven] by {
      assert [Eight, Seven, Seven, Seven][..3] == [Eight, Seven, Seven];
    }
    assert ranks[..4] == [Eight, Seven, Seven, Seven];
  }

  /** A pair of Eights with three odd cards has four distinct ranks: no match. */
  lemma PairOfEightsDoesNotMatch()
    ensures Classify([NewCard(Eight, Spades), NewCard(Eight, Spades), NewCard(Seven, Spades),
                      NewCard(Three, Spades), NewCard(Two, Spades)]) == NoMatch
  {
    var cards := [NewCard(Eight, Spades), NewCard(Eight, Spades), NewCard(Seven, Spades),
                  NewCard(Three, Spades), NewCard(Two, Spades)];
    var ranks: seq<Rank> := [Eight, Eight, Seven, Three, Two];
    assert Ranks(cards) == ranks;
    EightsKeys();
  }

  lemma EightsKeys()
    ensures |Keys([Eight, Eight, Seven, Three, Two])| == 4
  {
    var ranks: seq<Rank> := [Eight, Eight, Seven, Three, Two];
    assert Keys([Eight]) == [Eight] by {
      assert [Eight][..0] == [];
    }
    assert Keys([Eight, Eight]) == [Eight] by {
      assert [Eight, Eight][..1] == [Eight];
    }
    assert Keys([Eight, Eight, Seven]) == [Eight, Seven] by {
      assert [Eight, Eight, Seven][..2] == [Eight, Eight];
    }
    assert Keys([Eight, Eight, Seven, Three]) == [Eight, Seven, Three] by {
      assert [Eight, Eight, Seven, Three][..3] == [Eight, Eight, Seven];
    }
    assert ranks[..4] == [Eight, Eight, Seven, Three];
    assert Keys(ranks) == [Eight, Seven, Three, Two];
  }
}
