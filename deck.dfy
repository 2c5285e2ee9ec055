/**
 * Deck (Deck/Deck.cs) and DeckFactory (Deck/DeckFactory.cs): a list of cards
 * with an index for the top, drawn from front to back and shuffled in place
 * with the Fisher-Yates loop. The random source is a parameter: the indices
 * Random.Next returns are passed in.
 */
module Decks {
  import opened Wrappers
  import opened Errors
  import opened Cards

  /** One step of Shuffle's loop: the cards at positions k and n trade places. */
  function Swap(cards: seq<Card>, k: nat, n: nat): (r: seq<Card>)
    requires k < |cards| && n < |cards|
    ensures |r| == |cards| && multiset(r) == multiset(cards)
    ensures r[k] == cards[n] && r[n] == cards[k]
    ensures forall i :: 0 <= i < |cards| && i != k && i != n ==> r[i] == cards[i]
  {
    cards[k := cards[n]][n := cards[k]]
  }

  /**
   * What Random.Next(n + 1) may answer during one Shuffle of count cards:
   * the i-th call, made with n = count - 1 - i, returns a value in [0, n].
   */
  predicate RandomDraws(random: seq<int>, count: nat)
  {
    |random| == count && forall i :: 0 <= i < count ==> 0 <= random[i] <= count - 1 - i
  }

  /** The cards after the last n passes of Shuffle's loop, starting from cards. */
  function ShuffleFrom(cards: seq<Card>, random: seq<int>, n: nat): (r: seq<Card>)
    requires RandomDraws(random, |cards|) && n <= |cards|
    ensures |r| == |cards|
    ensures multiset(r) == multiset(cards)
    ensures forall i :: n <= i < |cards| ==> r[i] == cards[i]
    decreases n
  {
    if n == 0 then cards
    else ShuffleFrom(Swap(cards, random[|cards| - n], n - 1), random, n - 1)
  }

  /** The pass for position n - 1 settles the card that ends there: it is the one random picked from the unsettled prefix. */
  lemma {:induction false} ShuffleSettlesFromTheBack(cards: seq<Card>, random: seq<int>, n: nat)
    requires RandomDraws(random, |cards|) && 0 < n <= |cards|
    ensures ShuffleFrom(cards, random, n)[n - 1] == cards[random[|cards| - n]]
  {
    var next := Swap(cards, random[|cards| - n], n - 1);
    assert ShuffleFrom(cards, random, n) == ShuffleFrom(next, random, n - 1);
    assert next[n - 1] == cards[random[|cards| - n]];
  }

  class Deck {
    /** _cards. The list is passed in and shared with the caller. */
    const cards: array<Card>
    /** _top: the index of the next card to draw. */
    var top: int

    ghost predicate Valid()
      reads this
    {
      0 <= top <= cards.Length
    }

    /** Deck(cards, random): the top starts at the front. */
    constructor(cards: array<Card>)
      ensures this.cards == cards && top == 0
      ensures Valid()
    {
      this.cards := cards;
      top := 0;
    }

    /** Draw(): the card at the top, moving the top on by one; an exhausted deck is refused and left as it is. */
    method Draw() returns (r: Result<Card, Error>)
      requires Valid()
      modifies this
      ensures Valid()
      ensures old(top) < cards.Length ==> r == Ok(cards[old(top)]) && top == old(top) + 1
      ensures old(top) >= cards.Length ==> r == Err(DeckExhausted) && top == old(top)
    {
      if top >= cards.Length {
        return Err(DeckExhausted);
      }
      r := Ok(cards[top]);
      top := top + 1;
    }

    /**
     * Shuffle(): for n from Count - 1 down to 0, swap position n with a
     * position drawn from [0, n]; then the top goes back to the front.
     */
    method Shuffle(random: seq<int>)
      requires Valid() && RandomDraws(random, cards.Length)
      modifies this, cards
      ensures cards[..] == ShuffleFrom(old(cards[..]), random, cards.Length)
      ensures multiset(cards[..]) == multiset(old(cards[..]))
      ensures top == 0 && Valid()
    {
      var n := cards.Length;
      while n >= 1
        invariant 0 <= n <= cards.Length
        invariant ShuffleFrom(cards[..], random, n) == ShuffleFrom(old(cards[..]), random, cards.Length)
      {
        n := n - 1;
        var k := random[cards.Length - 1 - n];
        ghost var before := cards[..];
        assert ShuffleFrom(before, random, n + 1) == ShuffleFrom(Swap(before, k, n), random, n);
        SwapCards(k, n);
      }
      top := 0;
    }

    /** The body of Shuffle's loop: the cards at positions k and n trade places through a temporary. */
    method SwapCards(k: nat, n: nat)
      requires k < cards.Length && n < cards.Length
      modifies cards
      ensures cards[..] == Swap(old(cards[..]), k, n)
    {
      var value := cards[k];
      cards[k] := cards[n];
      cards[n] := value;
      assert cards[..] == old(cards[..])[k := old(cards[n])][n := old(cards[k])];
    }
  }

  /** The 52 cards of CreateStandardDeck in order: suit by suit in declaration order, Two to Ace within each suit. */
  function StandardDeckCards(): (cards: seq<Card>)
    ensures |cards| == 52
  {
    seq(52, i requires 0 <= i < 52 => NewCard(i % 13, Suits[i / 13]))
  }

  /** The card of suit Suits[s] and rank r sits at position 13 * s + r. */
  lemma StandardDeckIsSuitMajor(s: nat, r: Rank)
    requires s < 4
    ensures StandardDeckCards()[13 * s + r] == NewCard(r, Suits[s])
  {
  }

  /** Every rank of every suit is in the standard deck, and no card is there twice or is Blank. */
  lemma StandardDeckIsComplete()
    ensures forall r: Rank, s: Suit :: NewCard(r, s) in StandardDeckCards()
    ensures forall i, j :: 0 <= i < j < 52 ==> StandardDeckCards()[i] != StandardDeckCards()[j]
    ensures Blank !in StandardDeckCards()
  {
    var cards := StandardDeckCards();
    forall r: Rank, s: Suit
      ensures NewCard(r, s) in cards
    {
      var index := if s == Clubs then 0 else if s == Diamonds then 1 else if s == Hearts then 2 else 3;
      StandardDeckIsSuitMajor(index, r);
    }
    forall i, j | 0 <= i < j < 52
      ensures cards[i] != cards[j]
    {
      if i / 13 == j / 13 {
        assert i % 13 != j % 13;
      } else {
        assert Suits[i / 13] != Suits[j / 13];
      }
    }
  }

  /** CreateStandardDeck(): a new deck over a new list of the 52 standard cards. */
  method CreateStandardDeck() returns (deck: Deck)
    ensures fresh(deck) && fresh(deck.cards)
    ensures deck.cards[..] == StandardDeckCards()
    ensures deck.top == 0 && deck.Valid()
  {
    var cards := new Card[52](i requires 0 <= i < 52 => NewCard(i % 13, Suits[i / 13]));
    deck := new Deck(cards);
  }

  /** Drawing from a deck at its top until it refuses yields its cards in list order, Count of them, and then the error. */
  method DrawUntilExhausted(deck: Deck) returns (drawn: seq<Card>, refused: Result<Card, Error>)
    requires deck.Valid() && deck.top == 0
    modifies deck
    ensures drawn == deck.cards[..]
    ensures refused == Err(DeckExhausted)
    ensures deck.top == deck.cards.Length
  {
    drawn := [];
    refused := deck.Draw();
    while refused.Ok?
      invariant deck.Valid()
      invariant refused.Ok? ==> deck.top == |drawn| + 1 && refused.value == deck.cards[|drawn|]
      invariant refused.Err? ==> deck.top == |drawn| == deck.cards.Length && refused == Err(DeckExhausted)
      invariant drawn == deck.cards[..|drawn|]
      decreases deck.cards.Length - |drawn|
    {
      drawn := drawn + [refused.value];
      refused := deck.Draw();
    }
    assert drawn == deck.cards[..];
  }
}
