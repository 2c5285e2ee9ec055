/**
 * Player (Player.cs) and PlayerHandComparer (PlayerHandComparer.cs): a named
 * player holding a hand, or no hand yet, and the comparer that orders two
 * players by their hands.
 */
module Players {
  import opened Wrappers
  import opened Errors
  import opened Cards
  import opened HandViews
  import HandComparer
  import opened Hands

  class Player {
    /** Name */
    var name: string
    /** Hand: null until a game deals one. */
    var hand: Hand?

    constructor(name: string)
      ensures this.name == name && hand == null
    {
      this.name := name;
      hand := null;
    }
  }

  /**
   * Compare(x, y): a missing player or a missing hand is refused before
   * anything is compared; otherwise x.Hand.CompareTo(y.Hand).
   */
  function Compare(x: Player?, y: Player?): (r: Result<int, Error>)
    reads x, y
    reads if x != null && x.hand != null then {x.hand} else {}
    reads if y != null && y.hand != null then {y.hand} else {}
    ensures r == Err(NullArgument) <==> x == null || x.hand == null || y == null || y.hand == null
    ensures r.Err? && r != Err(NullArgument) ==> r == Err(CountMismatch)
    ensures r == Err(CountMismatch) <==>
              x != null && x.hand != null && y != null && y.hand != null && |x.hand.cards| != |y.hand.cards|
    ensures r.Ok? ==>
              var a, b := x.hand, y.hand;
              (a.category > b.category ==> r.value == -1) &&
              (a.category < b.category ==> r.value == 1) &&
              (a.category == b.category ==> r == HandComparer.Comparer(a.category, a.View(), b.View()))
  {
    if x == null || x.hand == null || y == null || y.hand == null then Err(NullArgument)
    else HandComparer.Compare(x.hand.View(), y.hand.View())
  }

  /** Two players compare in opposite ways from either side, and a dealt player compares equal with itself. */
  lemma CompareIsAntisymmetric(x: Player?, y: Player?)
    ensures Compare(x, y).Ok? <==> Compare(y, x).Ok?
    ensures Compare(x, y).Ok? ==> Compare(x, y).value == -Compare(y, x).value
    ensures x != null && x.hand != null ==> Compare(x, x) == Ok(0)
  {
    if x != null && x.hand != null {
      HandComparer.CompareIsReflexive(x.hand.View());
      if y != null && y.hand != null {
        HandComparer.CompareIsAntisymmetric(x.hand.View(), y.hand.View());
      }
    }
  }

  /** The order between dealt players is transitive, so sorting with it is well defined. */
  lemma CompareIsTransitive(x: Player?, y: Player?, z: Player?)
    requires Compare(x, y).Ok? && Compare(x, y).value <= 0
    requires Compare(y, z).Ok? && Compare(y, z).value <= 0
    ensures Compare(x, z).Ok? && Compare(x, z).value <= 0
  {
    HandComparer.CompareIsTransitive(x.hand.View(), y.hand.View(), z.hand.View());
  }
}
