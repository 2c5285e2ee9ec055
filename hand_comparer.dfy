/**
 * HandComparer (Hands/Comparers/HandComparer.cs): holds the nine category
 * comparers from best to worst. Classifying a hand asks each in turn and
 * keeps the first that matches; comparing two hands orders them by category
 * and hands a tie to the comparers, moving on past every one that refuses.
 */
module HandComparer {
  import opened Wrappers
  import opened Errors
  import opened Cards
  import opened HandViews
  import HighCardComparer
  import PairComparer
  import TwoPairComparer
  import ThreeOfAKindComparer
  import StraightComparer
  import FlushComparer
  import FullHouseComparer
  import FourOfAKindComparer
  import StraightFlushComparer

  /** _comparers, best hand first. */
  const Order: seq<Category> :=
    [StraightFlush, FourOfAKind, FullHouse, Flush, Straight, ThreeOfAKind, TwoPair, OnePair, HighCard]

  lemma OrderIsBestFirst()
    ensures |Order| == 9
    ensures forall i :: 0 <= i < |Order| ==> Order[i] == 8 - i
  {
  }

  /** The single-hand Compare of the comparer for category k. */
  function Detector(k: Category, cards: seq<Card>): (c: Classification)
    ensures c == NoMatch || c.category == k
  {
    if k == StraightFlush then StraightFlushComparer.Classify(cards)
    else if k == FourOfAKind then FourOfAKindComparer.Classify(cards)
    else if k == FullHouse then FullHouseComparer.Classify(cards)
    else if k == Flush then FlushComparer.Classify(cards)
    else if k == Straight then StraightComparer.Classify(cards)
    else if k == ThreeOfAKind then ThreeOfAKindComparer.Classify(cards)
    else if k == TwoPair then TwoPairComparer.Classify(cards)
    else if k == OnePair then PairComparer.Classify(cards)
    else HighCardComparer.Classify(cards)
  }

  /**
   * The foreach of Compare(hand) from position i of Order on, where
   * comparison is the value the loop variable holds on entry.
   */
  function ClassifyFrom(i: nat, cards: seq<Card>, comparison: Classification): Classification
    requires i <= |Order|
    decreases |Order| - i
  {
    if i == |Order| then comparison
    else
      var next := Detector(Order[i], cards);
      if next.category != HighCard then next else ClassifyFrom(i + 1, cards, next)
  }

  /**
   * From any position of Order the foreach answers the first category, from
   * that position down, whose comparer matches; the high-card comparer at
   * the end always has the last word.
   */
  lemma {:induction false} ClassifyFromFindsFirstMatch(i: nat, cards: seq<Card>, comparison: Classification)
    requires i < |Order|
    ensures var c := ClassifyFrom(i, cards, comparison);
            c == Detector(c.category, cards) && c.category <= 8 - i &&
            forall k: Category :: c.category < k <= 8 - i ==> Detector(k, cards) == NoMatch
    decreases |Order| - i
  {
    OrderIsBestFirst();
    var next := Detector(Order[i], cards);
    assert Order[i] == 8 - i;
    if next.category == HighCard && i + 1 < |Order| {
      assert next == NoMatch;
      ClassifyFromFindsFirstMatch(i + 1, cards, next);
      var c := ClassifyFrom(i + 1, cards, next);
      assert ClassifyFrom(i, cards, comparison) == c;
      forall k: Category | c.category < k <= 8 - i
        ensures Detector(k, cards) == NoMatch
      {
        if k == 8 - i {
          assert Detector(k, cards) == next;
        }
      }
    } else {
      assert ClassifyFrom(i, cards, comparison) == next;
    }
  }

  /**
   * Compare(hand): the best category whose comparer matches the hand, with
   * that comparer's rank; every better category's comparer answers no match.
   */
  function Classify(cards: seq<Card>): (c: Classification)
    ensures c == Detector(c.category, cards)
    ensures forall k: Category :: k > c.category ==> Detector(k, cards) == NoMatch
  {
    ClassifyFromFindsFirstMatch(0, cards, NoMatch);
    ClassifyFrom(0, cards, NoMatch)
  }

  /** The comparer for category k, run as its source is written. */
  method DetectWith(k: Category, cards: seq<Card>) returns (c: Classification)
    ensures c == Detector(k, cards)
  {
    if k == StraightFlush {
      c := StraightFlushComparer.Detect(cards);
    } else if k == FourOfAKind {
      c := FourOfAKindComparer.Detect(cards);
    } else if k == FullHouse {
      c := FullHouseComparer.Detect(cards);
    } else if k == Flush {
      c := FlushComparer.Classify(cards);
    } else if k == Straight {
      c := StraightComparer.Detect(cards);
    } else if k == ThreeOfAKind {
      c := ThreeOfAKindComparer.Classify(cards);
    } else if k == TwoPair {
      c := TwoPairComparer.Detect(cards);
    } else if k == OnePair {
      c := PairComparer.Detect(cards);
    } else {
      c := HighCardComparer.Classify(cards);
    }
  }

  /** Compare(hand) as written: the foreach that returns at the first category other than HighCard. */
  method Detect(cards: seq<Card>) returns (c: Classification)
    ensures c == Classify(cards)
  {
    c := NoMatch;
    for i := 0 to |Order|
      invariant ClassifyFrom(i, cards, c) == Classify(cards)
    {
      c := DetectWith(Order[i], cards);
      if c.category != HighCard {
        return;
      }
    }
  }

  /** A hand with no cards is classified as no match at all. */
  lemma EmptyHandIsNoMatch()
    ensures Classify([]) == NoMatch
  {
    forall k: Category
      ensures Detector(k, []) == NoMatch
    {
    }
  }

  /**
   * A run of at least five cards of one suit is a straight flush headed by
   * its top card, although the flush and straight comparers match it too.
   */
  lemma StraightFlushOutranksFlushAndStraight(cards: seq<Card>)
    requires |cards| >= 5 && StraightComparer.Consecutive(cards) && FlushComparer.SameSuit(cards)
    ensures FlushComparer.Classify(cards) != NoMatch && StraightComparer.Classify(cards) != NoMatch
    ensures Classify(cards) == Classification(StraightFlush, cards[0].rank)
  {
    assert StraightFlushComparer.Classify(cards) != NoMatch;
  }

  /**
   * The two-pair comparer matches every full house (it only counts distinct
   * ranks); the order of the comparers is what reports it as a full house.
   */
  lemma FullHouseOutranksTwoPair(cards: seq<Card>)
    requires FullHouseComparer.Classify(cards) != NoMatch
    ensures TwoPairComparer.Classify(cards) != NoMatch
    ensures Classify(cards).category >= FullHouse
  {
    assert Detector(FullHouse, cards) != NoMatch;
  }

  /**
   * Hand sorts its cards with List.Sort, which may leave cards of equal
   * rank in any order. Every comparer reads the same answer from any two
   * sorted arrangements of the same cards.
   */
  lemma DetectorsIgnoreOrderOfEqualRanks(k: Category, s: seq<Card>, t: seq<Card>)
    requires SortedByRank(s) && SortedByRank(t) && multiset(s) == multiset(t)
    ensures Detector(k, s) == Detector(k, t)
  {
    SortedHandsHaveSameRanks(s, t);
    assert |s| == |Ranks(s)| == |Ranks(t)| == |t|;
    if |s| > 0 {
      assert s[0].rank == Ranks(s)[0] == Ranks(t)[0] == t[0].rank;
    }
    FlushComparer.DetectionIgnoresOrder(s, t);
    assert StraightComparer.Consecutive(s) <==> StraightComparer.Consecutive(t);
  }

  /** The classification of a sorted hand depends only on which cards it holds. */
  lemma ClassifyIgnoresOrderOfEqualRanks(s: seq<Card>, t: seq<Card>)
    requires SortedByRank(s) && SortedByRank(t) && multiset(s) == multiset(t)
    ensures Classify(s) == Classify(t)
  {
    forall k: Category
      ensures Detector(k, s) == Detector(k, t)
    {
      DetectorsIgnoreOrderOfEqualRanks(k, s, t);
    }
  }

  /** The comparer for category k on a pair of hands. */
  function Comparer(k: Category, x: HandView, y: HandView): (r: Result<int, Error>)
    ensures r == Err(CountMismatch) <==> x.Count() != y.Count()
    ensures k != HighCard ==>
              (r == Err(NotThisCategory) <==> x.Count() == y.Count() && x.category != k && y.category != k)
    ensures x.Count() == y.Count() && x.category == k == y.category ==> r.Ok?
  {
    if k == StraightFlush then StraightFlushComparer.Compare(x, y)
    else if k == FourOfAKind then FourOfAKindComparer.Compare(x, y)
    else if k == FullHouse then FullHouseComparer.Compare(x, y)
    else if k == Flush then FlushComparer.Compare(x, y)
    else if k == Straight then StraightComparer.Compare(x, y)
    else if k == ThreeOfAKind then ThreeOfAKindComparer.Compare(x, y)
    else if k == TwoPair then TwoPairComparer.Compare(x, y)
    else if k == OnePair then PairComparer.Compare(x, y)
    else HighCardComparer.Compare(x, y)
  }

  /** The foreach of Compare(x, y) from position i of Order on: the first comparer that does not throw answers. */
  function CompareFrom(i: nat, x: HandView, y: HandView): Result<int, Error>
    requires i <= |Order|
    decreases |Order| - i
  {
    if i == |Order| then Err(NoComparerSucceeded)
    else
      match Comparer(Order[i], x, y)
      case Ok(order) => Ok(order)
      case Err(_) => CompareFrom(i + 1, x, y)
  }

  /** For two hands of one category and size, the foreach reaches that category's comparer and returns its answer. */
  lemma {:induction false} CompareFromReachesCategory(i: nat, x: HandView, y: HandView)
    requires i <= |Order|
    requires x.Count() == y.Count() && x.category == y.category && x.category <= 8 - i
    ensures CompareFrom(i, x, y) == Comparer(x.category, x, y)
    decreases |Order| - i
  {
    OrderIsBestFirst();
    if Order[i] != x.category {
      CompareFromReachesCategory(i + 1, x, y);
    }
  }

  /**
   * Compare(x, y): hands of different Count are refused; otherwise the
   * better category orders first, and a tie in category is decided by the
   * comparer of that category. The closing throw is never reached.
   */
  function Compare(x: HandView, y: HandView): (r: Result<int, Error>)
    ensures r.Err? <==> x.Count() != y.Count()
    ensures r.Err? ==> r.error == CountMismatch
    ensures x.Count() == y.Count() && x.category != y.category ==>
              r == Ok(CompareDescending(x.category, y.category))
    ensures x.Count() == y.Count() && x.category == y.category ==> r == Comparer(x.category, x, y)
  {
    if x.Count() != y.Count() then Err(CountMismatch)
    else if x.category < y.category then Ok(-1 * SortDirection)
    else if x.category > y.category then Ok(1 * SortDirection)
    else
      CompareFromReachesCategory(0, x, y);
      CompareFrom(0, x, y)
  }

  /** The comparer for category k on a pair of hands, run as its source is written. */
  method CompareWith(k: Category, x: HandView, y: HandView) returns (r: Result<int, Error>)
    ensures r == Comparer(k, x, y)
  {
    if k == StraightFlush {
      r := StraightFlushComparer.Compare(x, y);
    } else if k == FourOfAKind {
      r := FourOfAKindComparer.Compare(x, y);
    } else if k == FullHouse {
      r := FullHouseComparer.Compare(x, y);
    } else if k == Flush {
      r := FlushComparer.Compare(x, y);
    } else if k == Straight {
      r := StraightComparer.Compare(x, y);
    } else if k == ThreeOfAKind {
      r := ThreeOfAKindComparer.Compare(x, y);
    } else if k == TwoPair {
      r := TwoPairComparer.CompareHands(x, y);
    } else if k == OnePair {
      r := PairComparer.Compare(x, y);
    } else {
      r := HighCardComparer.CompareHands(x, y);
    }
  }

  /** Compare(x, y) as written: the category checks, then the try/catch foreach over the comparers. */
  method CompareHands(x: HandView, y: HandView) returns (r: Result<int, Error>)
    ensures r == Compare(x, y)
  {
    if x.Count() != y.Count() {
      return Err(CountMismatch);
    }
    if x.category < y.category {
      return Ok(-1 * SortDirection);
    }
    if x.category > y.category {
      return Ok(1 * SortDirection);
    }
    for i := 0 to |Order|
      invariant CompareFrom(i, x, y) == Compare(x, y)
    {
      var attempt := CompareWith(Order[i], x, y);
      if attempt.Ok? {
        return attempt;
      }
    }
    assert false;
    return Err(NoComparerSucceeded);
  }

  /** The levels a category compares after the category itself, padded to three. */
  function Levels(v: HandView): (levels: seq<int>)
    ensures |levels| == 3
  {
    var k := v.category;
    if k == TwoPair then [v.highCard, TwoPairComparer.SecondPair(v), TwoPairComparer.Single(v)]
    else if k == Flush || k == HighCard then [0, 0, 0]
    else [v.highCard, 0, 0]
  }

  /** The card-by-card ranks, for the categories whose tie goes on to the high-card comparer. */
  function KickerRanks(v: HandView): (kickers: seq<int>)
    ensures |kickers| == v.Count()
  {
    var k := v.category;
    if k == StraightFlush || k == Straight || k == TwoPair then seq(v.Count(), _ => 0)
    else Ranks(v.cards)
  }

  /** A hand's strength as a sequence compared position by position: category, category levels, kickers. */
  function Key(v: HandView): (key: seq<int>)
    ensures |key| == 4 + v.Count()
  {
    [v.category] + Levels(v) + KickerRanks(v)
  }

  lemma LexCompareSingleton(a: int, b: int)
    ensures LexCompare([a], [b]) == CompareDescending(a, b)
  {
    assert [a][1..] == [] && [b][1..] == [];
  }

  /** Lexicographic on [h, 0, 0] is decided by h alone. */
  lemma LexCompareHead(a: int, b: int)
    ensures LexCompare([a, 0, 0], [b, 0, 0]) == CompareDescending(a, b)
  {
    LexCompareSingleton(a, b);
    LexCompareAppend([a], [b], [0, 0], [0, 0]);
    assert [a, 0, 0] == [a] + [0, 0] && [b, 0, 0] == [b] + [0, 0];
  }

  /**
   * Between hands of the same size, Compare is the lexicographic order on
   * Key, the higher value ordering first.
   */
  lemma CompareIsLexicographicOnKey(x: HandView, y: HandView)
    requires x.Count() == y.Count()
    ensures Compare(x, y) == Ok(LexCompare(Key(x), Key(y)))
  {
    var hx, hy := [x.category] + Levels(x), [y.category] + Levels(y);
    assert Key(x) == hx + KickerRanks(x) && Key(y) == hy + KickerRanks(y);
    LexCompareAppend(hx, hy, KickerRanks(x), KickerRanks(y));
    LexCompareAppend([x.category], [y.category], Levels(x), Levels(y));
    LexCompareSingleton(x.category, y.category);
    if x.category == y.category {
      var k := x.category;
      if k == StraightFlush || k == Straight || k == FourOfAKind || k == FullHouse ||
         k == ThreeOfAKind || k == OnePair {
        LexCompareHead(x.highCard, y.highCard);
        LexCompareSingleton(x.highCard, y.highCard);
      }
    }
  }

  lemma CompareIsAntisymmetric(x: HandView, y: HandView)
    ensures Compare(x, y).Ok? <==> Compare(y, x).Ok?
    ensures Compare(x, y).Ok? ==> Compare(x, y).value == -Compare(y, x).value
  {
    if x.Count() == y.Count() {
      CompareIsLexicographicOnKey(x, y);
      CompareIsLexicographicOnKey(y, x);
      LexCompareIsAntisymmetric(Key(x), Key(y));
    }
  }

  lemma CompareIsReflexive(x: HandView)
    ensures Compare(x, x) == Ok(0)
  {
    CompareIsLexicographicOnKey(x, x);
  }

  /** Ordering x no later than y and y no later than z orders x no later than z. */
  lemma CompareIsTransitive(x: HandView, y: HandView, z: HandView)
    requires Compare(x, y).Ok? && Compare(x, y).value <= 0
    requires Compare(y, z).Ok? && Compare(y, z).value <= 0
    ensures Compare(x, z).Ok? && Compare(x, z).value <= 0
  {
    CompareIsLexicographicOnKey(x, y);
    CompareIsLexicographicOnKey(y, z);
    CompareIsLexicographicOnKey(x, z);
    LexCompareIsTransitive(Key(x), Key(y), Key(z));
  }

  /** Compare calls two hands equal exactly when their keys agree. */
  lemma CompareIsZeroExactlyOnEqualKeys(x: HandView, y: HandView)
    requires x.Count() == y.Count()
    ensures Compare(x, y) == Ok(0) <==> Key(x) == Key(y)
  {
    CompareIsLexicographicOnKey(x, y);
  }
}
