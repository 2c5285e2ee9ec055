/** The exceptions the engine raises, as values. */
module Errors {

  datatype Error =
    | CountMismatch         // InvalidOperationException: hands with a different number of cards
    | NotThisCategory       // InvalidOperationException: neither hand has the comparer's category
    | NoComparerSucceeded   // InvalidOperationException: the orchestrator's final fall-through
    | DeckExhausted         // InvalidOperationException: drawing past the last card
    | NullArgument          // ArgumentNullException from the argument checks
    | TooFewPlayers         // ArgumentException: a game needs two players
}
