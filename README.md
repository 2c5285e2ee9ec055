# Poker hand engine

A Dafny model of the core of a five-card poker engine written in C#. The
model covers:

- cards, their equality and the rank-only card comparer;
- the deck with its Fisher-Yates shuffle, and the standard 52-card deck;
- the nine category comparers. Each one detects its category in a hand
  sorted from Ace down to Two, and breaks ties between two hands of that
  category;
- the hand comparer, which classifies a hand by asking the comparers from
  the best category down, and orders two hands;
- the `Hand` class, which keeps its cards sorted and its Type and HighCard
  up to date;
- `Player` and the player-hand comparer;
- `Game`: round-robin dealing, then sorting the players and picking the
  tied winners;
- `GameController`: the round life cycle.

The model keeps the source's own form:

- Classes whose fields change in place are Dafny classes with `modifies`
  clauses: `Deck`, `Hand`, `Player`, `Game` and `GameController`.
- The shuffle works in place on an `array`.
- Pure logic is written as functions: classification rules, tie-breaks,
  equality and the orders.
- Each loop in the source is a method proved equal to the function that
  specifies it:
  - the rank-count `Dictionary` loops (`Tally`, `FindWithCount`);
  - the scan loops of the straight and straight-flush detectors;
  - the high-card comparison loop;
  - the orchestrator's `foreach` loops (`HandComparer.Detect` and
    `HandComparer.CompareHands`);
  - the dealing loops and the winners loop of `Game`.

Modelling choices:

- Exceptions become `Err` values of `Result`:
  - `DeckExhausted`: drawing from an empty deck.
  - `CountMismatch`: comparing hands of different sizes.
  - `NotThisCategory`: a comparer given two hands of which neither has its
    category.
  - `NullArgument`: a missing player or hand.
  - `TooFewPlayers`: a game with fewer than two players.
  - `NoComparerSucceeded`: the orchestrator's closing throw, proved
    unreachable.
- `Constants.SortDirection` is -1, so every comparer returns -1 when its
  first argument is the better one.
- The rank-count `Dictionary` has two parts:
  - its keys, in the order their ranks first occur (`Keys`);
  - its counts, each the number of cards of that rank (`CountOf`).

  A `foreach` over the Dictionary visits the keys in that order. In a
  sorted hand this is from the highest rank down. Each detector's contract
  states which rank it reports whatever the order: one with the required
  count, and the highest such rank when the hand is sorted.
- `List.Sort` with the card comparer is modelled by an insertion sort.
  `ClassifyIgnoresOrderOfEqualRanks` proves that the order left among
  cards of equal rank cannot change a hand's classification. The hand keeps
  the insertion sort's order, which among equal ranks can differ from .NET's
  (see "Left out"). Sorting the players states only sortedness and
  permutation.
- End picks its winners by Type and HighCard alone, while the sort orders
  players by the full comparison. `Games.TieSetIgnoresKickers` exhibits two
  hands that tie by End's test although the comparer orders one first. The
  model keeps this behaviour as the source has it.
- `ThreeOfAKindComparer.cs` is not part of this model's sources. Its
  behaviour is taken from its tests and from the sibling comparers:
  - at least five cards;
  - at most three distinct ranks;
  - a rank occurring three times;
  - ties broken by that rank, then by the high-card comparer.

## Model

| member | source | states |
|---|---|---|
| Cards.NewCard | Poker.Core/Deck/Card.cs:42-46 | a card built by the public constructor has the given rank and suit and is never Blank |
| Cards.Equals | Poker.Core/Deck/Card.cs:57-62 | a card equals another exactly when the other is not null and agrees in blank flag, rank and suit |
| Cards.EqualsOperator | Poker.Core/Deck/Card.cs:99-102 | `==` holds exactly when both sides are null or both are equal cards |
| Cards.NotEqualsOperator | Poker.Core/Deck/Card.cs:104-107 | `!=` holds exactly when `==` does not |
| Cards.BlankEqualsNoRealCard | Poker.Core/Deck/Card.cs:34-37 | Blank equals no card from the public constructor, including Two of Clubs whose fields are the zero values |
| Cards.EqualsIsAnEquivalence | Poker.Core/Deck/Card.cs:59-61 | equality with null is false; equality is reflexive, symmetric and transitive |
| Cards.RealCardsEqualExactlyOnRankAndSuit | Poker.Core/Deck/Card.cs:61 | two constructed cards are equal exactly when rank and suit both match |
| Cards.OperatorsAgreeWithEquals | Poker.Core/Deck/Card.cs:99-107 | `==` agrees with Equals and `!=` is its negation |
| Cards.CompareDescending | Poker.Core/Constants.cs:9 | with SortDirection -1 the result is -1 exactly when the first value is higher, 1 exactly when it is lower, 0 exactly when equal |
| Cards.CompareCards | Poker.Core/Deck/CardComparer.cs:19-28 | the result is in {-1, 0, 1}; it is negative exactly when x ranks higher and positive exactly when x ranks lower |
| Cards.CompareCardsIgnoresSuit | Poker.Core/Deck/CardComparer.cs:19-28 | replacing the suits changes no comparison |
| Cards.CompareCardsIsAntisymmetric | Poker.Core/Deck/CardComparer.cs:19-28 | compare(x, y) = -compare(y, x) and compare(x, x) = 0 |
| Cards.CompareCardsIsTransitive | Poker.Core/Deck/CardComparer.cs:19-28 | the card order (both strict and non-strict) is transitive |
| Cards.SortedMeansComparerOrder | Poker.Core/Hands/Hand.cs:68 | non-increasing ranks is the same as every card comparing no later than every card after it |
| Cards.SortedRanksDescend | Poker.Core/Hands/Hand.cs:68 | a hand is sorted exactly when its rank sequence is non-increasing |
| Cards.Insert | Poker.Core/Hands/Hand.cs:68 | inserting into a sorted hand keeps it sorted and adds exactly that card to the multiset |
| Cards.SortByRank | Poker.Core/Hands/Hand.cs:68 | the result is sorted by the card comparer and is a permutation of the input |
| Cards.SameCardsSameRanks | Poker.Core/Hands/Hand.cs:68 | hands with the same cards have the same multiset of ranks |
| Cards.SortedPermutationsAreEqual | Poker.Core/Hands/Hand.cs:68 | two non-increasing rank sequences with the same elements are identical |
| Cards.SortedHandsHaveSameRanks | Poker.Core/Hands/Hand.cs:68 | any two sorted arrangements of the same cards have the same rank at every position |
| Cards.LexCompare | Poker.Core/Hands/Comparers/HighCardComparer.cs:62-72 | the result is in {-1, 0, 1} and is 0 exactly when the sequences are equal |
| Cards.LexCompareIsAntisymmetric | Poker.Core/Hands/Comparers/HighCardComparer.cs:62-72 | swapping the arguments negates the result |
| Cards.LexCompareIsTransitive | Poker.Core/Hands/Comparers/HighCardComparer.cs:62-72 | ordering no later is transitive |
| Decks.Swap | Poker.Core/Deck/Deck.cs:58-60 | positions k and n trade cards, every other position keeps its card, the multiset is unchanged |
| Decks.ShuffleFrom | Poker.Core/Deck/Deck.cs:53-61 | after any number of passes the cards are a permutation of the original, and positions not yet visited are untouched |
| Decks.ShuffleSettlesFromTheBack | Poker.Core/Deck/Deck.cs:56-60 | the card that ends at position n - 1 is the one the random index picked from the unsettled prefix |
| Decks.Deck.constructor | Poker.Core/Deck/Deck.cs:29-33 | the deck keeps the given list and its top starts at 0 |
| Decks.Deck.Draw | Poker.Core/Deck/Deck.cs:40-46 | below the end: the card at the top and the top moves on by one; at the end: DeckExhausted and nothing changes; 0 <= top <= Count is kept |
| Decks.Deck.Shuffle | Poker.Core/Deck/Deck.cs:51-64 | the loop leaves the array equal to ShuffleFrom of its old contents, a permutation, with top reset to 0; the random indices are Count values, the i-th in [0, Count - 1 - i] |
| Decks.Deck.SwapCards | Poker.Core/Deck/Deck.cs:58-60 | the three assignments through a temporary leave the array equal to Swap of its old contents |
| Decks.StandardDeckIsSuitMajor | Poker.Core/Deck/DeckFactory.cs:20-22 | the card of the s-th suit and rank r is at position 13 * s + r |
| Decks.StandardDeckIsComplete | Poker.Core/Deck/DeckFactory.cs:20-22 | every rank of every suit is present, no card occurs twice, Blank is absent |
| Decks.CreateStandardDeck | Poker.Core/Deck/DeckFactory.cs:17-25 | a new deck over the 52 standard cards in suit-major order, top 0 |
| Decks.DrawUntilExhausted | Poker.Core/Deck/Deck.cs:40-46 | drawing from top 0 yields the whole list in order and then DeckExhausted |
| HandViews.Keys | Poker.Core/Hands/Comparers/PairComparer.cs:46-53 | the Dictionary's keys: exactly the ranks of the hand, each once |
| HandViews.CountOf | Poker.Core/Hands/Comparers/PairComparer.cs:46-53 | a rank's count is positive exactly when the hand holds that rank, and is at most the hand size |
| HandViews.KeysOfSortedRanksDescend | Poker.Core/Hands/Comparers/PairComparer.cs:46-53 | in a sorted hand the keys come out strictly descending |
| HandViews.Tally | Poker.Core/Hands/Comparers/PairComparer.cs:46-53 | the counting loop builds exactly Keys with every count equal to CountOf |
| HandViews.FirstWithCount | Poker.Core/Hands/Comparers/PairComparer.cs:59-67 | the first key whose count is n, or the number of keys when there is none |
| HandViews.FindWithCount | Poker.Core/Hands/Comparers/PairComparer.cs:59-67 | the foreach over the Dictionary stops exactly at FirstWithCount |
| HandViews.FirstWithCountFindsAny | Poker.Core/Hands/Comparers/PairComparer.cs:59-67 | the foreach finds an entry exactly when some rank occurs n times |
| HandViews.FirstWithCountIsHighest | Poker.Core/Hands/Comparers/PairComparer.cs:59-67 | in a sorted hand the entry found carries the highest rank occurring n times |
| HandViews.FirstWithCountOfHand | Poker.Core/Hands/Comparers/PairComparer.cs:46-67 | on a hand's own Dictionary the foreach finds an entry exactly when some rank occurs n times; that rank occurs n times, and in a sorted hand no rank occurring n times is higher |
| HandViews.Gate | Poker.Core/Hands/Comparers/PairComparer.cs:79-94 | the checks every category comparer makes first: CountMismatch, NotThisCategory when neither hand has the category, -1 or 1 when only one has it, and each case in both directions |
| HighCardComparer.Classify | Poker.Core/Hands/Comparers/HighCardComparer.cs:39-46 | an empty hand is no match; any other hand is HighCard with its first card's rank, which in a sorted hand is its highest |
| HighCardComparer.Kickers | Poker.Core/Hands/Comparers/HighCardComparer.cs:62-72 | the card comparer's value at the first position where it is non-zero, which is the lexicographic order on the ranks |
| HighCardComparer.Compare | Poker.Core/Hands/Comparers/HighCardComparer.cs:55-73 | Err exactly on a Count mismatch; otherwise the lexicographic rank order, ignoring Type, which is 0 exactly when the ranks agree position by position |
| HighCardComparer.CompareHands | Poker.Core/Hands/Comparers/HighCardComparer.cs:55-73 | the loop with early return computes Compare |
| HighCardComparer.CompareIsAntisymmetric | Poker.Core/Hands/Comparers/HighCardComparer.cs:62-72 | swapping the hands negates the result; both or neither fail |
| HighCardComparer.CompareIsReflexive | Poker.Core/Hands/Comparers/HighCardComparer.cs:62-72 | a hand compares 0 with itself |
| HighCardComparer.CompareIgnoresSuitsAndCategories | Poker.Core/Hands/Comparers/HighCardComparer.cs:62-72 | hands with the same ranks position by position compare 0 whatever their suits and Types |
| PairComparer.Classify | Poker.Core/Hands/Comparers/PairComparer.cs:39-68 | a match exactly when there are at least five cards, at most four distinct ranks and a rank occurring exactly twice; the rank reported occurs twice and is the highest such in a sorted hand |
| PairComparer.Detect | Poker.Core/Hands/Comparers/PairComparer.cs:39-68 | the loops compute Classify |
| PairComparer.Compare | Poker.Core/Hands/Comparers/PairComparer.cs:77-103 | the shared checks; for two pairs the higher HighCard orders first, and equal HighCards return the high-card comparer's result unchanged |
| TwoPairComparer.HighestPair | Poker.Core/Hands/Comparers/TwoPairComparer.cs:45-53 | the foreach keeps the highest rank occurring exactly twice, or its starting value when there is none |
| TwoPairComparer.Classify | Poker.Core/Hands/Comparers/TwoPairComparer.cs:25-54 | a match exactly when there are at least five cards and at most three distinct ranks (so trips, quads and full houses match too); HighCard is the highest pair rank, or Two |
| TwoPairComparer.Detect | Poker.Core/Hands/Comparers/TwoPairComparer.cs:25-54 | the loops compute Classify |
| TwoPairComparer.LastOtherPair | Poker.Core/Hands/Comparers/TwoPairComparer.cs:110-120 | the foreach finds a pair other than HighCard whenever there is one, the lowest in a sorted hand |
| TwoPairComparer.LastSingle | Poker.Core/Hands/Comparers/TwoPairComparer.cs:122-132 | the foreach finds a rank occurring once whenever there is one, the lowest in a sorted hand |
| TwoPairComparer.SortedTieBreakRanks | Poker.Core/Hands/Comparers/TwoPairComparer.cs:104-132 | in a sorted hand the second pair is the lowest other pair and the single is the lowest rank occurring once |
| TwoPairComparer.Compare | Poker.Core/Hands/Comparers/TwoPairComparer.cs:63-146 | the shared checks; for two two-pair hands, lexicographic on HighCard, second pair and single card, 0 when all agree |
| TwoPairComparer.ThreeLevels | Poker.Core/Hands/Comparers/TwoPairComparer.cs:82-145 | three-level lexicographic order decides at the first level that differs |
| TwoPairComparer.PairAndSingle | Poker.Core/Hands/Comparers/TwoPairComparer.cs:104-132 | the foreach over one hand's Dictionary finds its second pair and its single |
| TwoPairComparer.CompareHands | Poker.Core/Hands/Comparers/TwoPairComparer.cs:63-146 | the method as written computes Compare |
| StraightComparer.ConsecutiveFromTop | Poker.Core/Hands/Comparers/StraightComparer.cs:29-37 | in a consecutive run position i holds the top rank minus i |
| StraightComparer.RunFromTop | Poker.Core/Hands/Comparers/StraightComparer.cs:29-37 | a consecutive run is determined by its top card |
| StraightComparer.Classify | Poker.Core/Hands/Comparers/StraightComparer.cs:23-38 | a match exactly when there are at least five cards each one rank below the card before it (suits ignored); HighCard is the first card's rank |
| StraightComparer.Detect | Poker.Core/Hands/Comparers/StraightComparer.cs:23-38 | the scan with early exit computes Classify |
| StraightComparer.Compare | Poker.Core/Hands/Comparers/StraightComparer.cs:47-72 | the shared checks; for two straights the HighCards alone decide, equal ones give 0 |
| StraightComparer.NoWheel | Poker.Core/Hands/Comparers/StraightComparer.cs:32 | Ace, Five, Four, Three, Two is no straight, whatever the suits |
| StraightComparer.LowestStraight | Poker.Core/Hands/Comparers/StraightComparer.cs:29-37 | a five-card straight is headed by Six or higher |
| FlushComparer.Classify | Poker.Core/Hands/Comparers/FlushComparer.cs:38-53 | a match exactly when there are at least five cards all of the first card's suit; HighCard is the first card's rank |
| FlushComparer.DetectionIgnoresRanks | Poker.Core/Hands/Comparers/FlushComparer.cs:44-49 | hands whose suits agree position by position are both flushes or neither |
| FlushComparer.SameSuitIsOneSuit | Poker.Core/Hands/Comparers/FlushComparer.cs:44-49 | comparing every suit with the first card's is the same as all cards sharing one suit |
| FlushComparer.DetectionIgnoresOrder | Poker.Core/Hands/Comparers/FlushComparer.cs:44-49 | a rearranged hand is a flush exactly when the original is |
| FlushComparer.Compare | Poker.Core/Hands/Comparers/FlushComparer.cs:62-83 | the shared checks; for two flushes the high-card comparer's result |
| FullHouseComparer.Classify | Poker.Core/Hands/Comparers/FullHouseComparer.cs:38-67 | a match exactly when there are at least five cards, exactly two distinct ranks and one of them three times; HighCard is that rank |
| FullHouseComparer.Detect | Poker.Core/Hands/Comparers/FullHouseComparer.cs:38-67 | the loops compute Classify |
| FullHouseComparer.Compare | Poker.Core/Hands/Comparers/FullHouseComparer.cs:76-103 | the shared checks; for two full houses the higher three orders first, otherwise the high-card comparer's result |
| FourOfAKindComparer.Classify | Poker.Core/Hands/Comparers/FourOfAKindComparer.cs:38-67 | a match exactly when there are at least five cards, at most two distinct ranks and one of them four times; HighCard is that rank |
| FourOfAKindComparer.Detect | Poker.Core/Hands/Comparers/FourOfAKindComparer.cs:38-67 | the loops compute Classify |
| FourOfAKindComparer.Compare | Poker.Core/Hands/Comparers/FourOfAKindComparer.cs:76-102 | the shared checks; for two quads the higher four orders first, otherwise the high-card comparer's result |
| StraightFlushComparer.Classify | Poker.Core/Hands/Comparers/StraightFlushComparer.cs:23-43 | a match exactly when there are at least five cards, all of the first card's suit, each one rank below the last; HighCard is the first card's rank, which the straight and flush comparers report too |
| StraightFlushComparer.Detect | Poker.Core/Hands/Comparers/StraightFlushComparer.cs:23-43 | the scan with early exit computes Classify |
| StraightFlushComparer.Compare | Poker.Core/Hands/Comparers/StraightFlushComparer.cs:52-77 | the shared checks; for two straight flushes the HighCards alone decide |
| ThreeOfAKindComparer.Classify | Poker.Core.Test/Hands/Comparers/ThreeOfAKindComparerTests.cs:48-105 | a match exactly when there are at least five cards, at most three distinct ranks and a rank occurring three times; HighCard is that rank |
| ThreeOfAKindComparer.Compare | Poker.Core.Test/Hands/Comparers/ThreeOfAKindComparerTests.cs:48-105 | the shared checks; for two three-of-a-kinds the higher three orders first, otherwise the high-card comparer's result |
| ThreeOfAKindComparer.ThreeSevensMatch | Poker.Core.Test/Hands/Comparers/ThreeOfAKindComparerTests.cs:48-105 | Eight, three Sevens and a Four classify as three Sevens |
| ThreeOfAKindComparer.PairOfEightsDoesNotMatch | Poker.Core.Test/Hands/Comparers/ThreeOfAKindComparerTests.cs:48-105 | a pair of Eights with three odd cards is no match |
| HandComparer.OrderIsBestFirst | Poker.Core/Hands/Comparers/HandComparer.cs:33-44 | the nine comparers are consulted from StraightFlush down to HighCard |
| HandComparer.Detector | Poker.Core/Hands/Comparers/HandComparer.cs:33-44 | each comparer answers its own category or no match |
| HandComparer.ClassifyFromFindsFirstMatch | Poker.Core/Hands/Comparers/HandComparer.cs:58-72 | the foreach from any position answers the first matching category there or below, and every better one from there reports no match |
| HandComparer.Classify | Poker.Core/Hands/Comparers/HandComparer.cs:58-72 | the answer is the answer of its own category's comparer, and every better category's comparer reports no match |
| HandComparer.DetectWith | Poker.Core/Hands/Comparers/HandComparer.cs:63 | each comparer's loop computes its detector |
| HandComparer.Detect | Poker.Core/Hands/Comparers/HandComparer.cs:58-72 | the foreach with early return computes Classify |
| HandComparer.EmptyHandIsNoMatch | Poker.Core/Hands/Comparers/HandComparer.cs:58-72 | an empty hand classifies as (0, 0) |
| HandComparer.StraightFlushOutranksFlushAndStraight | Poker.Core/Hands/Comparers/HandComparer.cs:33-44 | a suited run is matched by the flush and straight comparers too, yet classifies as a straight flush headed by its top card |
| HandComparer.FullHouseOutranksTwoPair | Poker.Core/Hands/Comparers/HandComparer.cs:33-44 | the two-pair comparer matches every full house, yet a full house classifies at FullHouse or above |
| HandComparer.DetectorsIgnoreOrderOfEqualRanks | Poker.Core/Hands/Hand.cs:68 | every comparer answers the same for two sorted arrangements of the same cards |
| HandComparer.ClassifyIgnoresOrderOfEqualRanks | Poker.Core/Hands/Hand.cs:68-73 | the classification of a sorted hand depends only on which cards it holds |
| HandComparer.Comparer | Poker.Core/Hands/Comparers/HandComparer.cs:95-105 | each comparer fails on a Count mismatch, fails when neither hand has its category, and answers when both do |
| HandComparer.CompareFromReachesCategory | Poker.Core/Hands/Comparers/HandComparer.cs:95-105 | for two hands of one category the try/catch foreach reaches that category's comparer and returns its answer |
| HandComparer.Compare | Poker.Core/Hands/Comparers/HandComparer.cs:81-109 | Err exactly on a Count mismatch; a different Type orders the higher first; an equal Type returns that Type's comparer's result |
| HandComparer.CompareWith | Poker.Core/Hands/Comparers/HandComparer.cs:99 | each pair comparer's method computes its comparer |
| HandComparer.CompareHands | Poker.Core/Hands/Comparers/HandComparer.cs:81-109 | the method as written, with its throw and catch, computes Compare and never reaches the closing throw |
| HandComparer.CompareIsLexicographicOnKey | Poker.Core/Hands/Comparers/HandComparer.cs:81-109 | between hands of one size, Compare is the lexicographic order on category, category levels and kicker ranks |
| HandComparer.CompareIsAntisymmetric | Poker.Core/Hands/Comparers/HandComparer.cs:81-109 | swapping the hands negates the result; both or neither fail |
| HandComparer.CompareIsReflexive | Poker.Core/Hands/Comparers/HandComparer.cs:81-109 | a hand compares 0 with itself |
| HandComparer.CompareIsTransitive | Poker.Core/Hands/Comparers/HandComparer.cs:81-109 | ordering no later is transitive, so sorting with it is well defined |
| HandComparer.CompareIsZeroExactlyOnEqualKeys | Poker.Core/Hands/Comparers/HandComparer.cs:81-109 | two hands compare 0 exactly when their keys agree |
| Hands.RemoveFirst | Poker.Core/Hands/Hand.cs:103 | List.Remove takes exactly one copy of a present card out of the multiset and leaves a hand without it unchanged |
| Hands.Hand.constructor | Poker.Core/Hands/Hand.cs:57-74 | the cards are the sorted permutation of the given list, and Type and HighCard are the classification of the sorted cards |
| Hands.Hand.SortAndClassify | Poker.Core/Hands/Hand.cs:88-91 | re-sort and reclassify, leaving the hand valid |
| Hands.Hand.Add | Poker.Core/Hands/Hand.cs:81-92 | one more card in the multiset, Count up by one, sorted and reclassified |
| Hands.Hand.Discard | Poker.Core/Hands/Hand.cs:99-114 | true exactly when the card is held; then one copy is removed and the hand re-sorted and reclassified; otherwise nothing changes |
| Hands.Hand.Clear | Poker.Core/Hands/Hand.cs:168-174 | no cards, Type and HighCard 0, which is the classification of an empty hand |
| Hands.Hand.Remove | Poker.Core/Hands/Hand.cs:204-207 | the same result and new state as Discard |
| Hands.Hand.CompareTo | Poker.Core/Hands/Hand.cs:140-143 | the hand comparer's order of this hand against the other |
| Hands.AddThenDiscard | Poker.Core/Hands/Hand.cs:81-114 | adding a card and discarding it again restores the card multiset, the ranks, Type and HighCard |
| Players.Player.constructor | Poker.Core/Player.cs:23-45 | a new player has its name and no hand |
| Players.Compare | Poker.Core/PlayerHandComparer.cs:22-30 | NullArgument exactly when a player or a hand is missing; otherwise the hand comparer's answer: CountMismatch on different sizes, the higher Type first, and the category comparer on equal Types |
| Players.CompareIsAntisymmetric | Poker.Core/PlayerHandComparer.cs:22-30 | swapping the players negates the result, and a dealt player compares 0 with itself |
| Players.CompareIsTransitive | Poker.Core/PlayerHandComparer.cs:22-30 | the player order is transitive |
| Games.DealtTo | Poker.Core/Game.cs:68-80 | player j of n receives draws j, j + n, j + 2n, ... |
| Games.DealtToStep | Poker.Core/Game.cs:72-78 | each round adds to player t's cards the draw t places after the round's first |
| Games.NoLaterIsTransitive | Poker.Core/Game.cs:99 | the order the sort uses is transitive |
| Games.NoLaterIsTotal | Poker.Core/Game.cs:99 | of two hands of one size one is ordered no later than the other |
| Games.PrependKeepsSorted | Poker.Core/Game.cs:99 | a player ordered no later than everyone in a sorted list can go in front of it |
| Games.SortedTail | Poker.Core/Game.cs:99 | the head of a sorted list is ordered no later than the rest, which is sorted |
| Games.InsertByHand | Poker.Core/Game.cs:99 | inserting into a list sorted by hand keeps it sorted and adds exactly that player |
| Games.SortByHand | Poker.Core/Game.cs:99 | the result is a permutation of the players sorted by the player-hand comparer |
| Games.SortedByCompare | Poker.Core/Game.cs:99 | players sorted by a snapshot of their hands are in the player-hand comparer's order, every pair comparing without error and no later |
| Games.SortDealt | Poker.Core/Game.cs:99 | when every player holds a hand of one size, the sort returns a permutation in the player-hand comparer's order |
| Games.CheckHands | Poker.Core/Game.cs:99 | the errors the comparer raises during the sort: NullArgument exactly when a player has no hand, CountMismatch exactly when all have hands and two differ in size, otherwise the common size |
| Games.TieSetIgnoresKickers | Poker.Core/Game.cs:105-114 | two hands with the same Type and HighCard tie by End's test although the hand comparer orders the one with the Ace kicker first |
| Games.Snapshot | Poker.Core/Game.cs:99 | every player's current hand, looked up by player |
| Games.Winners | Poker.Core/Game.cs:102-114 | the first player and every following one with the first's Type and HighCard, up to the first that differs: the maximal such prefix |
| Games.Game.constructor | Poker.Core/Game.cs:42-58 | the game keeps the deck and its own copy of the players |
| Games.Game.Deal | Poker.Core/Game.cs:67-80 | five rounds of one draw per player: exactly 5n draws, player t receiving DealtTo; a deck too short is refused with the top at its end |
| Games.Game.ShuffleAndDeal | Poker.Core/Game.cs:65-80 | the deck is left in its shuffled order, and the deal either hands player t the cards DealtTo gives it from that order or reports DeckExhausted exactly when 5n cards are not available |
| Games.Game.GiveHand | Poker.Core/Game.cs:86 | the player gets a new, valid hand of the given cards, sorted |
| Games.Game.GiveHands | Poker.Core/Game.cs:83-88 | each player gets a new valid hand of its own dealt cards, the last assignment winning for a player listed twice |
| Games.Game.Start | Poker.Core/Game.cs:63-89 | shuffle once, deal 5n cards round-robin, then give each player the sorted, classified hand of its draws; DeckExhausted, with no hand given out, when the deck is too short |
| Games.Game.SortPlayers | Poker.Core/Game.cs:99 | NullArgument when a hand is missing, CountMismatch when sizes differ, each leaving the list as it was; otherwise the list becomes a permutation sorted by the player-hand comparer |
| Games.Game.End | Poker.Core/Game.cs:96-117 | the errors of the sort; otherwise the players sorted best first, and the winners are the maximal prefix whose Type and HighCard equal the first player's |
| Games.NewGame | Poker.Core/Game.cs:51-52 | fewer than two players is refused with TooFewPlayers; otherwise a new game over the deck and players |
| GameControllers.Except | Poker.Application/Model/GameController.cs:130 | the players of the first list that are not in the second, each at most once |
| GameControllers.GameController.constructor | Poker.Application/Model/GameController.cs:87-92 | no game, IsGameStarted and IsPlaying false |
| GameControllers.GameController.StartNewGame | Poker.Application/Model/GameController.cs:98-105 | the game becomes current and IsGameStarted is set; IsPlaying implies IsGameStarted is kept |
| GameControllers.GameController.StartRound | Poker.Application/Model/GameController.cs:110-117 | with no game nothing changes; otherwise the deck is left in ShuffleFrom order, and either every listed player holds a valid hand of the cards DealtTo gives its last place, with the top at 5n and IsPlaying set, or DeckExhausted with no hand changed and IsPlaying as it was |
| GameControllers.GameController.EndRound | Poker.Application/Model/GameController.cs:124-136 | when playing, IsPlaying is cleared and, as End promises, the game's players become a permutation in the player-hand comparer's order, the winners are the maximal prefix sharing the first player's Type and HighCard, and the losers are the table's players except the winners; End's errors otherwise; when not playing, empty lists and no change |

## Left out

- The user interface is not modelled: WPF views, view-models, converters, template selectors, reflection helpers, dependency-injection bootstrappers and Catel property bags.
- `System.Random` is a parameter. `Deck.Shuffle` takes the sequence of indices `Random.Next` would return, constrained by `RandomDraws`. The `Random` that `DeckFactory` passes to the deck is not modelled.
- Argument null checks (`Argument.IsNotNull`) on the hand comparer, the deck, the game and the controller are expressed through non-null types. The exception is `PlayerHandComparer`, where a missing player or hand is the `NullArgument` error.
- The orchestrator's exception-driven dispatch becomes a loop over `Result` values. `HandComparer.CompareFromReachesCategory` proves that it lands on the shared Type's comparer.
- `Hands.Hand.constructor`, `Hands.Hand.Add`, `Hands.Hand.Discard` and `Hands.Hand.Remove` pin the cards to `SortByRank`, a stable insertion sort. .NET's `List.Sort` is an unstable introspective sort, so cards of equal rank can come out in another order: a hand of King of Spades and King of Hearts given `Add(Ace of Clubs)` holds Ace, King of Hearts, King of Spades in .NET but Ace, King of Spades, King of Hearts here. Ranks position by position, Type and HighCard agree in both: `Cards.SortedHandsHaveSameRanks`, `HandComparer.DetectorsIgnoreOrderOfEqualRanks` and `HandComparer.ClassifyIgnoresOrderOfEqualRanks`.
- `Games.SortByHand` states only sortedness and permutation: among players with equal hands the order after sorting is left open.
- `Games.Game.SortPlayers`: when the comparer throws during `List.Sort`, .NET may leave the list partly reordered. The model leaves the list as it was.
- `Games.Game.SortPlayers` and `Games.Game.End`: .NET's `List.Sort` wraps an exception thrown by the comparer in an `InvalidOperationException`. The model reports the inner cause, `NullArgument` or `CountMismatch`, directly.
- When a hand is missing and hand sizes also differ, the source throws whichever the sort meets first. The model reports `NullArgument`.
- `GameControllers.Except` compares players by reference. The source's Catel `ModelBase` compares by property values. The order of the losers is not stated, only membership and that each appears once.
- `Hands.Hand.constructor` copies the caller's list. In the source `Hand` sorts the caller's list in place and keeps it, so the caller sees the sort.
- `ICollection.Contains`, `CopyTo`, `IsReadOnly`, the enumerator and the indexer of `Hand` are not modelled. They are one-line delegations to the list with no logic of their own.
- `Card.GetHashCode` is not modelled. It depends on the Catel base hash.
- `ThreeOfAKindComparer.cs` is not part of this model. Its behaviour is taken from its tests and from the sibling comparers.
- `IRoundResult` is a plain datatype of winners and losers. The factory delegate the controller calls is not modelled.
- The controller's `Players` collection is a plain field: its `ObservableCollection` change notifications are not modelled.
- `GameControllers.GameController.StartRound` raises IsPlaying before calling Start and puts it back when Start fails. The source raises it after Start returns. Start reads nothing of the controller, so both orders end in the same state.
