/**
 * Game (Game.cs): at least two players and a deck. Start shuffles the deck
 * and deals five cards to each player in turn; End sorts the players with
 * the player-hand comparer and returns the first player together with
 * everyone after it whose Type and HighCard match its own.
 */
module Games {
  import opened Wrappers
  import opened Errors
  import opened Cards
  import opened HandViews
  import HandComparer
  import HighCardComparer
  import opened Hands
  import opened Decks
  import Players

  type Player = Players.Player

  /** The cards player j of n receives when the shuffled deck is dealt round-robin: draws j, j + n, j + 2n, ... */
  function DealtTo(cards: seq<Card>, n: nat, j: nat, count: nat): (hand: seq<Card>)
    requires j < n && count * n <= |cards|
    ensures |hand| == count
    ensures forall m :: 0 <= m < count ==> m * n + j < |cards| && hand[m] == cards[m * n + j]
  {
    if count == 0 then []
    else
      assert (count - 1) * n + j < count * n;
      DealtTo(cards, n, j, count - 1) + [cards[(count - 1) * n + j]]
  }

  /** Round i of the deal ends within the five rounds: rounds before it and the round itself take (i + 1) * n cards. */
  lemma RoundFits(i: nat, n: nat)
    requires i < 5
    ensures i * n + n == (i + 1) * n <= 5 * n
  {
  }

  /** Round i adds to player t's cards the one drawn t places after the round's first draw. */
  lemma DealtToStep(cards: seq<Card>, n: nat, t: nat, i: nat, base: nat)
    requires t < n && base == i * n && base + n <= |cards|
    ensures (i + 1) * n <= |cards|
    ensures DealtTo(cards, n, t, i + 1) == DealtTo(cards, n, t, i) + [cards[base + t]]
  {
    assert (i + 1) * n == base + n;
  }

  /** Position t is the last place the player at t occupies among the first k. */
  ghost predicate LastAmongFirst(players: seq<Player>, t: nat, k: nat)
    requires t < k <= |players|
  {
    forall u :: t < u < k ==> players[u] != players[t]
  }

  /** A player that is the last of its kind among the first k + 1 is also among the first k, and is not the k-th. */
  lemma LastAmongFewer(players: seq<Player>, t: nat, k: nat)
    requires t < k < |players| && LastAmongFirst(players, t, k + 1)
    ensures LastAmongFirst(players, t, k) && players[k] != players[t]
  {
  }

  /** The player holds a valid hand made from the given cards. */
  ghost predicate HoldsHandOf(player: Player, cards: seq<Card>)
    reads player, player.hand
  {
    player.hand != null && player.hand.Valid() && player.hand.cards == SortByRank(cards)
  }

  /**
   * Every listed player holds a valid hand of the five cards DealtTo gives
   * its place in the list; a player listed twice holds the hand of its last
   * place.
   */
  ghost predicate HandsDealt(players: seq<Player>, cards: seq<Card>)
    requires 5 * |players| <= |cards|
    reads set p | p in players, set p | p in players && p.hand != null :: p.hand
  {
    forall j :: 0 <= j < |players| && LastAmongFirst(players, j, |players|) ==>
      HoldsHandOf(players[j], DealtTo(cards, |players|, j, 5))
  }

  /** Whether the hand comparer orders hand a no later than hand b. */
  predicate NoLater(a: HandView, b: HandView)
  {
    HandComparer.Compare(a, b).Ok? && HandComparer.Compare(a, b).value <= 0
  }

  /** Every player has a hand in views, and all of them have count cards. */
  ghost predicate OfCount(players: seq<Player>, views: map<Player, HandView>, count: nat)
  {
    forall p :: p in players ==> p in views && views[p].Count() == count
  }

  /** Every player's hand is ordered no later than the hand of every player after it. */
  ghost predicate SortedByHand(players: seq<Player>, views: map<Player, HandView>)
    requires forall p :: p in players ==> p in views
  {
    forall i, j :: 0 <= i < j < |players| ==> NoLater(views[players[i]], views[players[j]])
  }

  /** Players sorted by a snapshot of their hands are in PlayerHandComparer's order. */
  lemma SortedByCompare(players: seq<Player>, views: map<Player, HandView>)
    requires forall p :: p in players ==> p.hand != null && p in views && views[p] == p.hand.View()
    requires SortedByHand(players, views)
    ensures forall i, j :: 0 <= i < j < |players| ==>
              Players.Compare(players[i], players[j]).Ok? && Players.Compare(players[i], players[j]).value <= 0
  {
    forall i, j | 0 <= i < j < |players|
      ensures Players.Compare(players[i], players[j]).Ok? && Players.Compare(players[i], players[j]).value <= 0
    {
      assert players[i] in players && players[j] in players;
      assert NoLater(views[players[i]], views[players[j]]);
    }
  }

  /** The hand comparer's order is transitive. */
  lemma NoLaterIsTransitive(a: HandView, b: HandView, c: HandView)
    requires NoLater(a, b) && NoLater(b, c)
    ensures NoLater(a, c)
  {
    HandComparer.CompareIsTransitive(a, b, c);
  }

  /** Of two hands of one size, one is ordered no later than the other. */
  lemma NoLaterIsTotal(a: HandView, b: HandView)
    requires a.Count() == b.Count() && !NoLater(a, b)
    ensures NoLater(b, a)
  {
    HandComparer.CompareIsAntisymmetric(a, b);
  }

  /** A player ordered no later than everyone in a sorted list can go in front of it. */
  lemma PrependKeepsSorted(player: Player, sorted: seq<Player>, views: map<Player, HandView>)
    requires player in views && forall q :: q in sorted ==> q in views
    requires SortedByHand(sorted, views)
    requires forall q :: q in sorted ==> NoLater(views[player], views[q])
    ensures SortedByHand([player] + sorted, views)
  {
    var r := [player] + sorted;
    forall i, j | 0 <= i < j < |r|
      ensures NoLater(views[r[i]], views[r[j]])
    {
      assert r[j] == sorted[j - 1];
      if i == 0 {
        assert sorted[j - 1] in sorted;
      } else {
        assert r[i] == sorted[i - 1];
      }
    }
  }

  /** The head of a sorted list is ordered no later than the rest, which is sorted too. */
  lemma SortedTail(sorted: seq<Player>, views: map<Player, HandView>)
    requires sorted != [] && forall q :: q in sorted ==> q in views
    requires SortedByHand(sorted, views)
    ensures forall q :: q in sorted[1..] ==> NoLater(views[sorted[0]], views[q])
    ensures SortedByHand(sorted[1..], views)
  {
    forall q | q in sorted[1..]
      ensures NoLater(views[sorted[0]], views[q])
    {
      var j :| 0 <= j < |sorted[1..]| && sorted[1..][j] == q;
      assert sorted[j + 1] == q;
    }
    var tail := sorted[1..];
    forall i, j | 0 <= i < j < |tail|
      ensures NoLater(views[tail[i]], views[tail[j]])
    {
      assert tail[i] == sorted[i + 1] && tail[j] == sorted[j + 1];
    }
  }

  /** Places a player in front of the first player whose hand its own is ordered no later than. */
  function InsertByHand(player: Player, sorted: seq<Player>, views: map<Player, HandView>, count: nat): (r: seq<Player>)
    requires OfCount([player] + sorted, views, count) && SortedByHand(sorted, views)
    ensures multiset(r) == multiset(sorted) + multiset{player}
    ensures OfCount(r, views, count) && SortedByHand(r, views)
    decreases |sorted|
  {
    if sorted == [] then [player]
    else
      var first := sorted[0];
      if NoLater(views[player], views[first]) then
        GoesInFront(player, sorted, views, count);
        [player] + sorted
      else
        assert first in [player] + sorted && player in [player] + sorted;
        NoLaterIsTotal(views[player], views[first]);
        OfCountTail(player, sorted, views, count);
        var rest := InsertByHand(player, sorted[1..], views, count);
        GoesBehind(player, sorted, rest, views, count);
        [first] + rest
  }

  /** The first case of InsertByHand: the player is ordered no later than the head, so no later than anyone. */
  lemma GoesInFront(player: Player, sorted: seq<Player>, views: map<Player, HandView>, count: nat)
    requires sorted != [] && OfCount([player] + sorted, views, count) && SortedByHand(sorted, views)
    requires NoLater(views[player], views[sorted[0]])
    ensures OfCount([player] + sorted, views, count) && SortedByHand([player] + sorted, views)
  {
    var first := sorted[0];
    assert first in [player] + sorted && player in [player] + sorted;
    SortedTail(sorted, views);
    forall q | q in sorted
      ensures NoLater(views[player], views[q])
    {
      if q != first {
        assert q in sorted[1..] by {
          assert sorted == [first] + sorted[1..];
        }
        NoLaterIsTransitive(views[player], views[first], views[q]);
      }
    }
    PrependKeepsSorted(player, sorted, views);
  }

  /** Dropping the head of the sorted players keeps the sizes of the rest. */
  lemma OfCountTail(player: Player, sorted: seq<Player>, views: map<Player, HandView>, count: nat)
    requires sorted != [] && OfCount([player] + sorted, views, count) && SortedByHand(sorted, views)
    ensures OfCount([player] + sorted[1..], views, count) && SortedByHand(sorted[1..], views)
  {
    forall p | p in [player] + sorted[1..]
      ensures p in views && views[p].Count() == count
    {
      assert p == player || p in sorted;
    }
    assert sorted[0] in [player] + sorted;
    SortedTail(sorted, views);
  }

  /** The second case of InsertByHand: the head goes in front of the rest with the player inserted. */
  lemma GoesBehind(player: Player, sorted: seq<Player>, rest: seq<Player>, views: map<Player, HandView>, count: nat)
    requires sorted != [] && OfCount([player] + sorted, views, count) && SortedByHand(sorted, views)
    requires NoLater(views[sorted[0]], views[player])
    requires multiset(rest) == multiset(sorted[1..]) + multiset{player}
    requires OfCount(rest, views, count) && SortedByHand(rest, views)
    ensures multiset([sorted[0]] + rest) == multiset(sorted) + multiset{player}
    ensures OfCount([sorted[0]] + rest, views, count) && SortedByHand([sorted[0]] + rest, views)
  {
    var first := sorted[0];
    assert sorted == [first] + sorted[1..];
    assert first in [player] + sorted;
    HeadBeforeRest(player, sorted, rest, views, count);
    PrependKeepsSorted(first, rest, views);
  }

  /** In the second case of InsertByHand, the head is ordered no later than the player and than the rest of the list. */
  lemma HeadBeforeRest(player: Player, sorted: seq<Player>, rest: seq<Player>, views: map<Player, HandView>, count: nat)
    requires sorted != [] && OfCount([player] + sorted, views, count) && SortedByHand(sorted, views)
    requires NoLater(views[sorted[0]], views[player])
    requires multiset(rest) == multiset(sorted[1..]) + multiset{player} && OfCount(rest, views, count)
    ensures forall q :: q in rest ==> NoLater(views[sorted[0]], views[q])
  {
    var first := sorted[0];
    SortedTail(sorted, views);
    forall q | q in rest
      ensures NoLater(views[first], views[q])
    {
      assert q in multiset(rest);
      assert q == player || q in sorted[1..];
    }
  }

  /** List.Sort(PlayerHandComparer) on players whose hands all have one size, as an insertion sort. */
  function SortByHand(players: seq<Player>, views: map<Player, HandView>, count: nat): (r: seq<Player>)
    requires OfCount(players, views, count)
    ensures multiset(r) == multiset(players)
    ensures OfCount(r, views, count) && SortedByHand(r, views)
    decreases |players|
  {
    if players == [] then []
    else
      assert players == [players[0]] + players[1..];
      InsertByHand(players[0], SortByHand(players[1..], views, count), views, count)
  }

  /** Whether two dealt players tie by End's test: the same Type and the same HighCard. */
  predicate SameTypeAndHighCard(p: Player, q: Player)
    reads p, q, p.hand, q.hand
  {
    p.hand != null && q.hand != null &&
    p.hand.category == q.hand.category && p.hand.highCard == q.hand.highCard
  }

  /**
   * End's tie test looks at Type and HighCard only: a pair of Kings with an
   * Ace beside it and a pair of Kings with a Queen beside it tie for the
   * win, although the hand comparer orders the first ahead of the second.
   */
  lemma TieSetIgnoresKickers()
    ensures var a := HandView([NewCard(Ace, Spades), NewCard(King, Spades), NewCard(King, Hearts),
                               NewCard(Five, Spades), NewCard(Three, Spades)], OnePair, King);
            var b := HandView([NewCard(King, Clubs), NewCard(King, Diamonds), NewCard(Queen, Clubs),
                               NewCard(Five, Clubs), NewCard(Three, Clubs)], OnePair, King);
            a.category == b.category && a.highCard == b.highCard && HandComparer.Compare(a, b) == Ok(-1)
  {
    var a := HandView([NewCard(Ace, Spades), NewCard(King, Spades), NewCard(King, Hearts),
                       NewCard(Five, Spades), NewCard(Three, Spades)], OnePair, King);
    var b := HandView([NewCard(King, Clubs), NewCard(King, Diamonds), NewCard(Queen, Clubs),
                       NewCard(Five, Clubs), NewCard(Three, Clubs)], OnePair, King);
    assert HandComparer.Compare(a, b) == HandComparer.Comparer(OnePair, a, b);
    assert HighCardComparer.Kickers(a.cards, b.cards) == -1;
  }

  /**
   * The sort itself, on players that all hold hands of one size: the hands
   * are read once, and the players come out in PlayerHandComparer's order.
   */
  method SortDealt(players: seq<Player>, count: nat) returns (sorted: seq<Player>)
    requires forall p :: p in players ==> p.hand != null && |p.hand.cards| == count
    ensures multiset(sorted) == multiset(players)
    ensures forall i, j :: 0 <= i < j < |sorted| ==>
              Players.Compare(sorted[i], sorted[j]).Ok? && Players.Compare(sorted[i], sorted[j]).value <= 0
  {
    var views := Snapshot(players);
    sorted := SortByHand(players, views, count);
    forall p | p in sorted
      ensures p in players && p.hand != null && views[p] == p.hand.View()
    {
      assert p in multiset(players);
    }
    SortedByCompare(sorted, views);
  }

  /**
   * The two ways PlayerHandComparer throws while the players are sorted: a
   * player without a hand, or hands of different sizes. Otherwise the size
   * every hand has.
   */
  method CheckHands(players: seq<Player>) returns (r: Result<nat, Error>)
    requires |players| >= 1
    ensures r == Err(NullArgument) <==> exists p :: p in players && p.hand == null
    ensures r == Err(CountMismatch) <==>
              (forall p :: p in players ==> p.hand != null) &&
              exists p :: p in players && |p.hand.cards| != |players[0].hand.cards|
    ensures r.Err? ==> r.error == NullArgument || r.error == CountMismatch
    ensures r.Ok? ==> forall p :: p in players ==> p.hand != null && |p.hand.cards| == r.value
  {
    if exists p :: p in players && p.hand == null {
      return Err(NullArgument);
    }
    var count := |players[0].hand.cards|;
    if exists p :: p in players && |p.hand.cards| != count {
      return Err(CountMismatch);
    }
    return Ok(count);
  }

  /** Each player's hand as it stands, looked up by player. */
  method Snapshot(players: seq<Player>) returns (views: map<Player, HandView>)
    requires forall p :: p in players ==> p.hand != null
    ensures forall p :: p in players ==> p in views && views[p] == p.hand.View()
  {
    views := map[];
    for i := 0 to |players|
      invariant forall t :: 0 <= t < i ==> players[t] in views && views[players[t]] == players[t].hand.View()
    {
      views := views[players[i] := players[i].hand.View()];
    }
  }

  /**
   * End's loop over the sorted players: the first player, then each next
   * player whose Type and HighCard equal the first's, up to the first that
   * differs.
   */
  method Winners(players: seq<Player>) returns (winners: seq<Player>)
    requires |players| >= 1 && forall p :: p in players ==> p.hand != null
    ensures 1 <= |winners| <= |players| && winners == players[..|winners|]
    ensures forall t :: 0 <= t < |winners| ==> SameTypeAndHighCard(players[t], players[0])
    ensures |winners| < |players| ==> !SameTypeAndHighCard(players[|winners|], players[0])
  {
    winners := [players[0]];
    var i := 1;
    while i < |players|
      invariant 1 <= i <= |players|
      invariant winners == players[..i]
      invariant forall t :: 0 <= t < i ==> SameTypeAndHighCard(players[t], players[0])
    {
      if players[i].hand.highCard == players[0].hand.highCard &&
         players[i].hand.category == players[0].hand.category {
        winners := winners + [players[i]];
      } else {
        break;
      }
      i := i + 1;
    }
  }

  class Game {
    /** _deck */
    const deck: Deck
    /** _players: the game's own list of the players it was given. */
    var players: seq<Player>

    ghost predicate Valid()
      reads this, deck
    {
      deck.Valid() && |players| >= 2
    }

    constructor(deck: Deck, players: seq<Player>)
      requires deck.Valid() && |players| >= 2
      ensures this.deck == deck && this.players == players
      ensures Valid()
    {
      this.deck := deck;
      this.players := players;
    }

    /**
     * Start's dealing loops: five rounds, each drawing one card for every
     * player in list order. A deck that runs out part-way stops the deal.
     */
    method Deal() returns (r: Result<seq<seq<Card>>, Error>)
      requires Valid() && deck.top == 0
      modifies deck
      ensures Valid()
      ensures r.Ok? <==> 5 * |players| <= deck.cards.Length
      ensures r.Err? ==> r.error == DeckExhausted && deck.top == deck.cards.Length
      ensures r.Ok? ==> deck.top == 5 * |players| && |r.value| == |players|
      ensures r.Ok? ==> forall t :: 0 <= t < |players| ==> r.value[t] == DealtTo(deck.cards[..], |players|, t, 5)
    {
      var n := |players|;
      ghost var cards := deck.cards[..];
      var hands: seq<seq<Card>> := seq(n, _ => []);
      for i := 0 to 5
        invariant deck.Valid() && deck.cards[..] == cards
        invariant i * n <= |cards| && deck.top == i * n
        invariant |hands| == n
        invariant forall t :: 0 <= t < n ==> hands[t] == DealtTo(cards, n, t, i)
      {
        ghost var base := deck.top;
        RoundFits(i, n);
        for j := 0 to n
          invariant deck.Valid() && deck.cards[..] == cards
          invariant deck.top == base + j && |hands| == n
          invariant forall t :: 0 <= t < j ==> base + t < |cards| && hands[t] == DealtTo(cards, n, t, i) + [cards[base + t]]
          invariant forall t :: j <= t < n ==> hands[t] == DealtTo(cards, n, t, i)
        {
          var drawn := deck.Draw();
          if drawn.Err? {
            return Err(DeckExhausted);
          }
          assert drawn.value == cards[base + j];
          ghost var prev := hands;
          hands := hands[j := hands[j] + [drawn.value]];
          assert hands[j] == DealtTo(cards, n, j, i) + [cards[base + j]];
          assert forall t :: 0 <= t < n && t != j ==> hands[t] == prev[t];
        }
        forall t | 0 <= t < n
          ensures hands[t] == DealtTo(cards, n, t, i + 1)
        {
          DealtToStep(cards, n, t, i, base);
        }
      }
      return Ok(hands);
    }

    /** player.Hand = new Hand(cards). */
    static method GiveHand(player: Player, cards: seq<Card>)
      modifies player
      ensures HoldsHandOf(player, cards) && fresh(player.hand)
    {
      player.hand := new Hand(cards);
    }

    /** Start's last loop: the k-th player in the list gets a new hand of the k-th dealt cards. */
    method GiveHands(hands: seq<seq<Card>>)
      requires |hands| == |players|
      modifies players
      ensures forall t :: 0 <= t < |players| && LastAmongFirst(players, t, |players|) ==>
                HoldsHandOf(players[t], hands[t]) && fresh(players[t].hand)
    {
      for k := 0 to |players|
        invariant forall t :: 0 <= t < k && LastAmongFirst(players, t, k) ==>
                    HoldsHandOf(players[t], hands[t]) && fresh(players[t].hand)
      {
        GiveHand(players[k], hands[k]);
        forall t | 0 <= t < k + 1 && LastAmongFirst(players, t, k + 1)
          ensures HoldsHandOf(players[t], hands[t]) && fresh(players[t].hand)
        {
          if t < k {
            LastAmongFewer(players, t, k);
          }
        }
      }
    }

    /**
     * Start(): shuffle the deck, deal five rounds of one card to each player
     * in list order, then give each player a new hand of its cards. A deck
     * that runs out part-way is refused with no hand given out.
     */
    method Start(random: seq<int>) returns (r: Result<(), Error>)
      requires Valid() && RandomDraws(random, deck.cards.Length)
      modifies deck, deck.cards, set p | p in players
      ensures Valid()
      ensures deck.cards[..] == ShuffleFrom(old(deck.cards[..]), random, deck.cards.Length)
      ensures r.Ok? <==> 5 * |players| <= deck.cards.Length
      ensures r.Err? ==> r.error == DeckExhausted && deck.top == deck.cards.Length
      ensures r.Err? ==> forall p :: p in players ==> p.hand == old(p.hand)
      ensures r.Ok? ==> deck.top == 5 * |players|
      ensures r.Ok? ==> forall j :: 0 <= j < |players| && LastAmongFirst(players, j, |players|) ==>
                fresh(players[j].hand)
      ensures r.Ok? ==> HandsDealt(players, deck.cards[..])
    {
      var hands := ShuffleAndDeal(random);
      if hands.Err? {
        return Err(hands.error);
      }
      ghost var shuffled := deck.cards[..];
      var dealt := hands.value;
      assert forall t :: 0 <= t < |players| ==> dealt[t] == DealtTo(shuffled, |players|, t, 5);
      GiveHands(dealt);
      assert deck.cards[..] == shuffled;
      return Ok(());
    }

    /** The first two steps of Start: shuffle the deck, then deal five rounds. */
    method ShuffleAndDeal(random: seq<int>) returns (r: Result<seq<seq<Card>>, Error>)
      requires Valid() && RandomDraws(random, deck.cards.Length)
      modifies deck, deck.cards
      ensures Valid()
      ensures deck.cards[..] == ShuffleFrom(old(deck.cards[..]), random, deck.cards.Length)
      ensures r.Ok? <==> 5 * |players| <= deck.cards.Length
      ensures r.Err? ==> r.error == DeckExhausted && deck.top == deck.cards.Length
      ensures r.Ok? ==> deck.top == 5 * |players| && |r.value| == |players|
      ensures r.Ok? ==> forall t :: 0 <= t < |players| ==> r.value[t] == DealtTo(deck.cards[..], |players|, t, 5)
    {
      deck.Shuffle(random);
      r := Deal();
    }

    /**
     * _players.Sort(PlayerHandComparer), best hand first. The comparer throws
     * on a player without a hand and on hands of different sizes; the list
     * is then left as it was.
     */
    method SortPlayers() returns (r: Result<(), Error>)
      requires Valid()
      modifies this
      ensures Valid()
      ensures r == Err(NullArgument) <==> exists p :: p in old(players) && p.hand == null
      ensures r == Err(CountMismatch) <==>
                (forall p :: p in old(players) ==> p.hand != null) &&
                exists p :: p in old(players) && |p.hand.cards| != |old(players)[0].hand.cards|
      ensures r.Err? ==> (r.error == NullArgument || r.error == CountMismatch) && players == old(players)
      ensures r.Ok? ==> multiset(players) == multiset(old(players))
      ensures r.Ok? ==> forall p :: p in players ==> p.hand != null
      ensures r.Ok? ==> forall i, j :: 0 <= i < j < |players| ==>
                Players.Compare(players[i], players[j]).Ok? && Players.Compare(players[i], players[j]).value <= 0
    {
      var checked := CheckHands(players);
      if checked.Err? {
        return Err(checked.error);
      }
      players := SortDealt(players, checked.value);
      return Ok(());
    }

    /**
     * End(): sort the players by hand, best first, and return the first
     * player with every following player whose Type and HighCard equal its
     * own, stopping at the first that differs.
     */
    method End() returns (r: Result<seq<Player>, Error>)
      requires Valid()
      modifies this
      ensures Valid()
      ensures r == Err(NullArgument) <==> exists p :: p in old(players) && p.hand == null
      ensures r == Err(CountMismatch) <==>
                (forall p :: p in old(players) ==> p.hand != null) &&
                exists p :: p in old(players) && |p.hand.cards| != |old(players)[0].hand.cards|
      ensures r.Err? ==> (r.error == NullArgument || r.error == CountMismatch) && players == old(players)
      ensures r.Ok? ==> multiset(players) == multiset(old(players))
      ensures r.Ok? ==> forall i, j :: 0 <= i < j < |players| ==>
                Players.Compare(players[i], players[j]).Ok? && Players.Compare(players[i], players[j]).value <= 0
      ensures r.Ok? ==> var n := |r.value|;
                1 <= n <= |players| && r.value == players[..n] &&
                (forall t :: 0 <= t < n ==> SameTypeAndHighCard(players[t], players[0])) &&
                (n < |players| ==> !SameTypeAndHighCard(players[n], players[0]))
    {
      var sorted := SortPlayers();
      if sorted.Err? {
        return Err(sorted.error);
      }
      var winners := Winners(players);
      return Ok(winners);
    }
  }

  /** Game(...): fewer than two players is refused. */
  method NewGame(deck: Deck, players: seq<Player>) returns (r: Result<Game, Error>)
    requires deck.Valid()
    ensures r.Err? <==> |players| < 2
    ensures r.Err? ==> r.error == TooFewPlayers
    ensures r.Ok? ==> fresh(r.value) && r.value.deck == deck && r.value.players == players && r.value.Valid()
  {
    if |players| < 2 {
      return Err(TooFewPlayers);
    }
    var game := new Game(deck, players);
    return Ok(game);
  }
}
