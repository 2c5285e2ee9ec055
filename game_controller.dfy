/**
 * GameController (Poker.Application/Model/GameController.cs): the round
 * life-cycle the user interface drives. A game is chosen, rounds are started
 * and ended, and ending a round splits the table's players into the winners
 * the game names and everyone else.
 */
module GameControllers {
  import opened Wrappers
  import opened Errors
  import Players
  import Games
  import Decks

  type Player = Players.Player

  /** IRoundResult: the winners of a round and the players who lost it. */
  datatype RoundResult = RoundResult(winners: seq<Player>, losers: seq<Player>)

  /**
   * Enumerable.Except(first, second): the players of first that are not in
   * second, each once, in the order they first appear.
   */
  function Except(first: seq<Player>, second: seq<Player>): (r: seq<Player>)
    ensures forall i :: 0 <= i < |r| ==> r[i] in first && r[i] !in second
    ensures forall i :: 0 <= i < |first| && first[i] !in second ==> first[i] in r
    ensures forall i, j :: 0 <= i < j < |r| ==> r[i] != r[j]
    decreases |first|
  {
    if first == [] then []
    else if first[0] in second then Except(first[1..], second)
    else [first[0]] + Except(first[1..], second + [first[0]])
  }

  class GameController {
    /** _currentGame */
    var currentGame: Games.Game?
    /** IsGameStarted */
    var isGameStarted: bool
    /** IsPlaying */
    var isPlaying: bool
    /** Players: the table's players, as the user interface lists them. */
    var players: seq<Player>

    /** A round is only played in a started game, and a game is started exactly when there is one. */
    ghost predicate Valid()
      reads this, currentGame, if currentGame != null then {currentGame.deck} else {}
    {
      (isPlaying ==> isGameStarted) &&
      (isGameStarted <==> currentGame != null) &&
      (currentGame != null ==> currentGame.Valid())
    }

    /** GameController(roundResultFactory): no game, no round, no players. */
    constructor()
      ensures currentGame == null && !isGameStarted && !isPlaying && players == []
      ensures Valid()
    {
      currentGame := null;
      isGameStarted := false;
      isPlaying := false;
      players := [];
    }

    /** StartNewGame(game): the game becomes the current one and IsGameStarted is set; IsPlaying is left alone. */
    method StartNewGame(game: Games.Game)
      requires Valid() && game.Valid()
      modifies this
      ensures currentGame == game && isGameStarted
      ensures isPlaying == old(isPlaying) && players == old(players)
      ensures Valid()
    {
      currentGame := game;
      isGameStarted := true;
    }

    /**
     * StartRound(): with no game, nothing happens. Otherwise the game is
     * started, and IsPlaying is set once Start has returned; a Start that
     * fails leaves IsPlaying as it was. Start reads nothing of the
     * controller, so the flag is raised before the call and put back when
     * Start fails, which ends in the same state.
     */
    method StartRound(random: seq<int>) returns (r: Result<(), Error>)
      requires Valid()
      requires currentGame != null ==> Decks.RandomDraws(random, currentGame.deck.cards.Length)
      modifies this, if currentGame != null then {currentGame.deck, currentGame.deck.cards} else {}
      modifies if currentGame != null then set p | p in currentGame.players else {}
      ensures Valid()
      ensures currentGame == old(currentGame) && isGameStarted == old(isGameStarted) && players == old(players)
      ensures old(currentGame) == null ==> r == Ok(()) && !isPlaying && unchanged(this)
      ensures old(currentGame) != null ==> (r.Ok? <==> 5 * |currentGame.players| <= currentGame.deck.cards.Length)
      ensures old(currentGame) != null && r.Ok? ==> isPlaying && currentGame.deck.top == 5 * |currentGame.players|
      ensures r.Err? ==> r.error == DeckExhausted && isPlaying == old(isPlaying)
      ensures old(currentGame) != null ==>
                currentGame.deck.cards[..] ==
                Decks.ShuffleFrom(old(currentGame.deck.cards[..]), random, currentGame.deck.cards.Length)
      ensures old(currentGame) != null && r.Err? ==> forall p :: p in old(currentGame.players) ==> p.hand == old(p.hand)
      ensures old(currentGame) != null && r.Ok? ==> Games.HandsDealt(currentGame.players, currentGame.deck.cards[..])
    {
      if currentGame == null {
        return Ok(());
      }
      var wasPlaying := isPlaying;
      isPlaying := true;
      r := currentGame.Start(random);
      if r.Err? {
        isPlaying := wasPlaying;
      }
    }

    /**
     * EndRound(): when a round is playing, IsPlaying is cleared first, then
     * the game names the winners and everyone else at the table loses. With
     * no round playing, both lists are empty and nothing changes.
     */
    method EndRound() returns (r: Result<RoundResult, Error>)
      requires Valid()
      modifies this, currentGame
      ensures Valid()
      ensures currentGame == old(currentGame) && isGameStarted == old(isGameStarted) && players == old(players)
      ensures !isPlaying
      ensures !old(isPlaying) ==>
                r == Ok(RoundResult([], [])) && unchanged(this) && (currentGame != null ==> unchanged(currentGame))
      ensures old(isPlaying) && r.Err? ==>
                (r.error == NullArgument || r.error == CountMismatch) && currentGame.players == old(currentGame.players)
      ensures old(isPlaying) && r.Ok? ==>
                var winners := r.value.winners;
                1 <= |winners| <= |currentGame.players| &&
                winners == currentGame.players[..|winners|] &&
                multiset(currentGame.players) == multiset(old(currentGame.players)) &&
                r.value.losers == Except(players, winners)
      ensures old(isPlaying) && r.Ok? ==>
                var sorted := currentGame.players;
                forall i, j :: 0 <= i < j < |sorted| ==>
                  Players.Compare(sorted[i], sorted[j]).Ok? && Players.Compare(sorted[i], sorted[j]).value <= 0
      ensures old(isPlaying) && r.Ok? ==>
                var sorted, n := currentGame.players, |r.value.winners|;
                (forall t :: 0 <= t < n ==> Games.SameTypeAndHighCard(sorted[t], sorted[0])) &&
                (n < |sorted| ==> !Games.SameTypeAndHighCard(sorted[n], sorted[0]))
    {
      if isPlaying {
        isPlaying := false;
        var winners := currentGame.End();
        if winners.Err? {
          return Err(winners.error);
        }
        var losers := Except(players, winners.value);
        return Ok(RoundResult(winners.value, losers));
      }
      return Ok(RoundResult([], []));
    }
  }
}
