/**
 The solver's shared helpers: the placeholder move list `available_moves` and
 the move-ordering heuristic `action_value`, which ranks moves to the
 foundations highest and moves that turn up a hidden tableau card above their
 plain counterparts.
 */
module SolverCommon {
  import opened Wrappers
  import opened Actions
  import opened Board

  const MoveListSize := 3000

  /** `available_moves`: a 3000-slot list holding only `TurnStock`, at slot 0,
      whatever the board. */
  function AvailableMoves(s: State): (r: seq<Option<Action>>)
    ensures |r| == MoveListSize
    ensures r[0] == Some(TurnStock)
    ensures forall i | 1 <= i < |r| :: r[i] == None
  {
    seq(MoveListSize, i => if i == 0 then Some(TurnStock) else None)
  }

  /** The list does not depend on the board. */
  lemma AvailableMovesIgnoresBoard(s: State, t: State)
    ensures AvailableMoves(s) == AvailableMoves(t)
  {
  }

  /** Every listed action changes a valid board when applied: the list is
      sound, though far from complete. */
  lemma AvailableMovesSound(s: State, i: nat)
    requires Valid(s) && i < MoveListSize && AvailableMoves(s)[i].Some?
    ensures ApplyDefined(s, AvailableMoves(s)[i].value)
    ensures Apply(s, AvailableMoves(s)[i].value) != s
  {
  }

  /** Whether moving from `from` turns up a hidden card: it is the first
      face-up slot of a tableau pile. */
  predicate Reveals(s: State, from: Coord)
    requires Shaped(s)
  {
    from.location.Tableau? && from.location.pile < TableauPiles
    && s.tableau[from.location.pile].boundary == from.idx
  }

  /** Exactly the actions `action_value` ranks without a panic: no move to the
      talon (the `unreachable!` arm), and every pile number it uses to index
      the tableau names one of the seven piles. */
  predicate ValueDefined(a: Action)
  {
    match a
    case Move(from, to) =>
      && !to.location.Talon?
      && (to.location.Foundation? && from.location.Foundation? ==> from.location.pile < TableauPiles)
      && (to.location.Tableau? && from.location.Tableau? ==> from.location.pile < TableauPiles)
    case _ => true
  }

  /** With in-bounds coordinates, `action_value` panics only on a move to the
      talon. */
  lemma ValueDefinedInBounds(from: Coord, to: Coord)
    requires InBounds(from) && InBounds(to)
    ensures ValueDefined(Move(from, to)) <==> !to.location.Talon?
  {
  }

  /** `action_value`, as written. A move to a foundation scores 5 when its
      source is foundation i and slot `from.idx` is tableau pile i's boundary,
      otherwise 4; a tableau-to-tableau move scores 3 if it reveals a card and
      0 if not; talon to tableau 2; foundation to tableau 1; draws 0. */
  function ActionValue(s: State, a: Action): (r: int)
    requires Shaped(s) && ValueDefined(a)
    ensures 0 <= r <= 5
    ensures !a.Move? ==> r == 0
    ensures a.Move? && a.to.location.Foundation? ==> r == 4 || r == 5
    ensures a.Move? && a.to.location.Tableau? ==>
      && (r == 3 <==> Reveals(s, a.from))
      && (a.from.location.Tableau? && !Reveals(s, a.from) ==> r == 0)
      && (a.from.location.Talon? ==> r == 2)
      && (a.from.location.Foundation? ==> r == 1)
  {
    match a
    case TurnStock => 0
    case ClearTalon => 0
    case Move(from, to) =>
      if to.location.Foundation? then
        if from.location.Foundation? && s.tableau[from.location.pile].boundary == from.idx then 5
        else 4
      else if from.location.Tableau? && to.location.Tableau? then
        if s.tableau[from.location.pile].boundary == from.idx then 3 else 0
      else if from.location.Talon? && to.location.Tableau? then 2
      else 1
  }

  /** The code's 5-point test looks at a foundation source, not the tableau
      source its comment describes. On a board whose tableau pile 3 has one
      face-down card (boundary 1), moving that pile's first face-up card to a
      foundation turns the hidden card up but scores 4, while a
      foundation-to-foundation move from slot 1 of foundation 3 reveals
      nothing and scores 5. The intended ranking swaps the two. */
  lemma ActionValueRewardsFoundationSource(s: State)
    requires Shaped(s) && s.tableau[3].boundary == 1
    ensures Reveals(s, Coord(Tableau(3), 1))
    ensures ActionValue(s, Move(Coord(Tableau(3), 1), Coord(Foundation(0), 0))) == 4
    ensures IntendedActionValue(s, Move(Coord(Tableau(3), 1), Coord(Foundation(0), 0))) == 5
    ensures !Reveals(s, Coord(Foundation(3), 1))
    ensures ActionValue(s, Move(Coord(Foundation(3), 1), Coord(Foundation(0), 0))) == 5
    ensures IntendedActionValue(s, Move(Coord(Foundation(3), 1), Coord(Foundation(0), 0))) == 4
  {
  }

  /** The ranking the heuristic is meant to implement: moves to a foundation
      first (5 when they reveal a hidden tableau card, else 4), then revealing
      tableau-to-tableau moves (3), talon to tableau (2), foundation to
      tableau (1), and everything else 0. */
  predicate IntendedValueDefined(a: Action)
  {
    match a
    case Move(from, to) =>
      && !to.location.Talon?
      && (from.location.Tableau? ==> from.location.pile < TableauPiles)
    case _ => true
  }

  function IntendedActionValue(s: State, a: Action): (r: int)
    requires Shaped(s) && IntendedValueDefined(a)
    ensures 0 <= r <= 5
    ensures !a.Move? ==> r == 0
    ensures a.Move? ==> (r >= 4 <==> a.to.location.Foundation?)
    ensures a.Move? ==> (r == 5 || r == 3 <==> Reveals(s, a.from))
  {
    match a
    case TurnStock => 0
    case ClearTalon => 0
    case Move(from, to) =>
      if to.location.Foundation? then
        if Reveals(s, from) then 5 else 4
      else if from.location.Tableau? && to.location.Tableau? then
        if Reveals(s, from) then 3 else 0
      else if from.location.Talon? && to.location.Tableau? then 2
      else 1
  }

  /** Both rankings agree on every action except moves to a foundation, where
      they differ exactly in which source earns the 5. */
  lemma ActionValueAgreesOffFoundation(s: State, a: Action)
    requires Shaped(s) && ValueDefined(a) && IntendedValueDefined(a)
    ensures !(a.Move? && a.to.location.Foundation?) ==> ActionValue(s, a) == IntendedActionValue(s, a)
    ensures a.Move? && a.to.location.Foundation? ==>
      (ActionValue(s, a) == 5 <==>
        a.from.location.Foundation? && s.tableau[a.from.location.pile].boundary == a.from.idx)
      && (IntendedActionValue(s, a) == 5 <==> Reveals(s, a.from))
  {
  }
}
