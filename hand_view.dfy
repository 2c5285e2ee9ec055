/**
 * What every category comparer sees of a hand (Hands/IHand.cs): the cards in
 * their current order, Count, and the cached Type and HighCard. Also the hand
 * categories (Hands/Hands.cs), the (category, rank) pair a detector returns,
 * the rank-count Dictionary several detectors fill, and the checks every
 * category comparer makes before its tie-break.
 */
module HandViews {
  import opened Wrappers
  import opened Errors
  import opened Cards

  /** Hands: the ordinal is the strength, HighCard = 0 up to StraightFlush = 8. */
  type Category = c: int | 0 <= c <= 8

  const HighCard: Category := 0
  const OnePair: Category := 1
  const TwoPair: Category := 2
  const ThreeOfAKind: Category := 3
  const Straight: Category := 4
  const Flush: Category := 5
  const FullHouse: Category := 6
  const FourOfAKind: Category := 7
  const StraightFlush: Category := 8

  /** The Tuple<Hands, Rank> a detector returns. */
  datatype Classification = Classification(category: Category, high: Rank)

  /** Tuple.Create<Hands, Rank>(0, 0): the "no match" answer of every detector. */
  const NoMatch: Classification := Classification(0, 0)

  /** An IHand as the comparers read it. */
  datatype HandView = HandView(cards: seq<Card>, category: Category, highCard: Rank)
  {
    function Count(): nat
    {
      |cards|
    }
  }

  /**
   * The keys of the rank-count Dictionary in the order it enumerates them.
   * A Dictionary that is only ever added to enumerates its keys in insertion
   * order, which is the order in which ranks first occur in the hand.
   */
  function Keys(ranks: seq<Rank>): (keys: seq<Rank>)
    ensures forall r :: r in keys <==> r in ranks
    ensures forall i, j :: 0 <= i < j < |keys| ==> keys[i] != keys[j]
    ensures |keys| <= |ranks|
  {
    if ranks == [] then []
    else
      var prefix := Keys(ranks[..|ranks| - 1]);
      var r := ranks[|ranks| - 1];
      assert ranks == ranks[..|ranks| - 1] + [r];
      if r in prefix then prefix else prefix + [r]
  }

  /** The Dictionary's value for a rank: how many cards of the hand have it. */
  function CountOf(ranks: seq<Rank>, r: Rank): (n: nat)
    ensures n <= |ranks|
    ensures n > 0 <==> r in ranks
  {
    assert |multiset(ranks)| == |ranks|;
    CountBoundedBySize(multiset(ranks), r);
    multiset(ranks)[r]
  }

  lemma CountBoundedBySize(m: multiset<Rank>, r: Rank)
    ensures m[r] <= |m|
  {
    var single := multiset{}[r := m[r]];
    assert single <= m;
  }

  /** In a hand sorted by rank, the distinct ranks come out strictly descending. */
  lemma {:induction false} KeysOfSortedRanksDescend(ranks: seq<Rank>)
    requires forall i, j :: 0 <= i < j < |ranks| ==> ranks[i] >= ranks[j]
    ensures forall i, j :: 0 <= i < j < |Keys(ranks)| ==> Keys(ranks)[i] > Keys(ranks)[j]
    decreases |ranks|
  {
    if ranks != [] {
      var prefix := ranks[..|ranks| - 1];
      var r := ranks[|ranks| - 1];
      assert ranks == prefix + [r];
      KeysOfSortedRanksDescend(prefix);
      if r !in Keys(prefix) {
        var keys := Keys(prefix) + [r];
        assert Keys(ranks) == keys;
        forall i | 0 <= i < |keys| - 1
          ensures keys[i] > r
        {
          assert keys[i] in prefix;
        }
      }
    }
  }

  /**
   * The rank-count loop every counting detector runs: a new rank is added
   * with count 1, a rank already present has its count incremented.
   */
  method Tally(cards: seq<Card>) returns (keys: seq<Rank>, counts: map<Rank, int>)
    ensures keys == Keys(Ranks(cards))
    ensures forall r :: r in counts <==> r in keys
    ensures forall r :: r in counts ==> counts[r] == CountOf(Ranks(cards), r)
  {
    keys := [];
    counts := map[];
    for i := 0 to |cards|
      invariant Tallied(Ranks(cards[..i]), keys, counts)
    {
      var r := cards[i].rank;
      assert Ranks(cards[..i + 1]) == Ranks(cards[..i]) + [r];
      TalliedStep(Ranks(cards[..i]), r, keys, counts);
      if r in counts {
        counts := counts[r := counts[r] + 1];
      } else {
        keys := keys + [r];
        counts := counts[r := 1];
      }
    }
    assert cards[..|cards|] == cards;
  }

  /** The state of the counting loop once it has seen the given ranks. */
  ghost predicate Tallied(ranks: seq<Rank>, keys: seq<Rank>, counts: map<Rank, int>)
  {
    keys == Keys(ranks) && Counted(ranks, keys, counts)
  }

  /** The Dictionary holds exactly the keys, each with the number of times its rank was seen. */
  ghost predicate Counted(ranks: seq<Rank>, keys: seq<Rank>, counts: map<Rank, int>)
  {
    (forall r :: r in counts <==> r in keys) &&
    (forall r :: r in counts ==> counts[r] == multiset(ranks)[r])
  }

  /** One pass of the counting loop keeps its state in step with the ranks seen. */
  lemma TalliedStep(ranks: seq<Rank>, r: Rank, keys: seq<Rank>, counts: map<Rank, int>)
    requires Tallied(ranks, keys, counts)
    ensures if r in counts then Tallied(ranks + [r], keys, counts[r := counts[r] + 1])
            else Tallied(ranks + [r], keys + [r], counts[r := 1])
  {
    KeysAppend(ranks, r);
    if r in counts {
      CountedSeen(ranks, r, keys, counts);
    } else {
      CountedNew(ranks, r, keys, counts);
    }
  }

  /** A rank already in the Dictionary has its count incremented. */
  lemma CountedSeen(ranks: seq<Rank>, r: Rank, keys: seq<Rank>, counts: map<Rank, int>)
    requires Counted(ranks, keys, counts) && r in counts
    ensures Counted(ranks + [r], keys, counts[r := counts[r] + 1])
  {
    assert multiset(ranks + [r]) == multiset(ranks) + multiset{r};
    CountsStep(multiset(ranks), multiset(ranks + [r]), r, counts);
    assert forall q :: q in counts[r := counts[r] + 1] <==> q in keys;
  }

  /** A rank met for the first time is added to the Dictionary with count 1. */
  lemma CountedNew(ranks: seq<Rank>, r: Rank, keys: seq<Rank>, counts: map<Rank, int>)
    requires Counted(ranks, keys, counts) && r !in counts && r !in ranks
    ensures Counted(ranks + [r], keys + [r], counts[r := 1])
  {
    assert multiset(ranks + [r]) == multiset(ranks) + multiset{r};
    CountsStep(multiset(ranks), multiset(ranks + [r]), r, counts);
    assert forall q :: q in counts[r := 1] <==> q in keys + [r];
  }

  /** A rank met for the first time is appended to the keys; one met before leaves them as they are. */
  lemma KeysAppend(ranks: seq<Rank>, r: Rank)
    ensures Keys(ranks + [r]) == if r in Keys(ranks) then Keys(ranks) else Keys(ranks) + [r]
  {
    assert (ranks + [r])[..|ranks|] == ranks;
  }

  /** Counting one more rank: the tally of that rank goes up by one, a new rank starting at one. */
  lemma CountsStep(before: multiset<Rank>, after: multiset<Rank>, r: Rank, counts: map<Rank, int>)
    requires after == before + multiset{r}
    requires forall q :: q in counts ==> counts[q] == before[q]
    requires r !in counts ==> before[r] == 0
    ensures var counts' := if r in counts then counts[r := counts[r] + 1] else counts[r := 1];
            forall q :: q in counts' ==> counts'[q] == after[q]
  {
  }

  /**
   * The position at which a foreach over the Dictionary first meets a rank
   * with count n, or |keys| when it meets none.
   */
  function FirstWithCount(keys: seq<Rank>, ranks: seq<Rank>, n: nat): (i: nat)
    ensures i <= |keys|
    ensures forall t :: 0 <= t < i ==> CountOf(ranks, keys[t]) != n
    ensures i < |keys| ==> CountOf(ranks, keys[i]) == n
    decreases |keys|
  {
    if keys == [] then 0
    else if CountOf(ranks, keys[0]) == n then 0
    else 1 + FirstWithCount(keys[1..], ranks, n)
  }

  /** The foreach over the Dictionary that stops at the first entry whose count is n. */
  method FindWithCount(keys: seq<Rank>, counts: map<Rank, int>, ranks: seq<Rank>, n: nat) returns (i: nat)
    requires forall r :: r in keys ==> r in counts && counts[r] == CountOf(ranks, r)
    ensures i == FirstWithCount(keys, ranks, n)
  {
    i := 0;
    while i < |keys|
      invariant i <= |keys|
      invariant forall t :: 0 <= t < i ==> CountOf(ranks, keys[t]) != n
    {
      if counts[keys[i]] == n {
        return;
      }
      i := i + 1;
    }
  }

  /** The foreach finds an entry with count n exactly when some rank occurs n times. */
  lemma FirstWithCountFindsAny(ranks: seq<Rank>, n: nat)
    requires n > 0
    ensures FirstWithCount(Keys(ranks), ranks, n) < |Keys(ranks)| <==> exists r: Rank :: CountOf(ranks, r) == n
  {
    var keys := Keys(ranks);
    var i := FirstWithCount(keys, ranks, n);
    if r: Rank :| CountOf(ranks, r) == n {
      var t :| 0 <= t < |keys| && keys[t] == r;
      assert i <= t;
    }
    if i < |keys| {
      assert CountOf(ranks, keys[i]) == n;
    }
  }

  /** In a hand sorted by rank the first entry with count n carries the highest such rank. */
  lemma FirstWithCountIsHighest(ranks: seq<Rank>, n: nat)
    requires n > 0
    ensures var keys := Keys(ranks);
            var i := FirstWithCount(keys, ranks, n);
            (forall a, b :: 0 <= a < b < |ranks| ==> ranks[a] >= ranks[b]) && i < |keys| ==>
              forall r: Rank :: CountOf(ranks, r) == n ==> r <= keys[i]
  {
    if (forall a, b :: 0 <= a < b < |ranks| ==> ranks[a] >= ranks[b]) && FirstWithCount(Keys(ranks), ranks, n) < |Keys(ranks)| {
      FoundIsHighest(ranks, n);
    }
  }

  /** What a detector learns from the foreach over the Dictionary of a hand's ranks. */
  lemma FirstWithCountOfHand(cards: seq<Card>, n: nat)
    requires n > 0
    ensures var ranks := Ranks(cards);
            var keys := Keys(ranks);
            var i := FirstWithCount(keys, ranks, n);
            (i < |keys| <==> exists r: Rank :: CountOf(ranks, r) == n) &&
            (i < |keys| ==> CountOf(ranks, keys[i]) == n) &&
            (i < |keys| && SortedByRank(cards) ==> forall r: Rank :: CountOf(ranks, r) == n ==> r <= keys[i])
  {
    FirstWithCountFindsAny(Ranks(cards), n);
    FirstWithCountIsHighest(Ranks(cards), n);
    SortedRanksDescend(cards);
  }

  /** The sorted case of FirstWithCountIsHighest. */
  lemma FoundIsHighest(ranks: seq<Rank>, n: nat)
    requires n > 0
    requires forall a, b :: 0 <= a < b < |ranks| ==> ranks[a] >= ranks[b]
    requires FirstWithCount(Keys(ranks), ranks, n) < |Keys(ranks)|
    ensures forall r: Rank :: CountOf(ranks, r) == n ==> r <= Keys(ranks)[FirstWithCount(Keys(ranks), ranks, n)]
  {
    var keys := Keys(ranks);
    var i := FirstWithCount(keys, ranks, n);
    KeysOfSortedRanksDescend(ranks);
    forall r: Rank | CountOf(ranks, r) == n
      ensures r <= keys[i]
    {
      assert r in ranks;
      var t :| 0 <= t < |keys| && keys[t] == r;
      assert i <= t;
      if i < t {
        assert keys[i] > keys[t];
      }
    }
  }

  /**
   * The three checks every category comparer makes before its tie-break:
   * hands of different Count are refused, hands neither of which is of the
   * category are refused, and a hand that alone is of the category orders
   * first. None means both hands are of the category.
   */
  function Gate(k: Category, x: HandView, y: HandView): (g: Option<Result<int, Error>>)
    ensures g == Some(Err(CountMismatch)) <==> x.Count() != y.Count()
    ensures g == Some(Err(NotThisCategory)) <==>
            x.Count() == y.Count() && x.category != k && y.category != k
    ensures g == Some(Ok(1)) <==> x.Count() == y.Count() && x.category != k && y.category == k
    ensures g == Some(Ok(-1)) <==> x.Count() == y.Count() && x.category == k && y.category != k
    ensures g == None <==> x.Count() == y.Count() && x.category == k && y.category == k
  {
    if x.Count() != y.Count() then Some(Err(CountMismatch))
    else if x.category != k && y.category != k then Some(Err(NotThisCategory))
    else if x.category != k && y.category == k then Some(Ok(-1 * SortDirection))
    else if x.category == k && y.category != k then Some(Ok(1 * SortDirection))
    else None
  }
}
