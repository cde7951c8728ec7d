/**
 The addressing types of `solitaire-game`: a `Location` names a pile, a
 `Coord` a slot within it, and an `Action` is what a player or solver asks
 the board to do.
 */
module Actions {

  /** Rust's `u8`. */
  type U8 = x: int | 0 <= x < 256

  /** Which pile a coordinate is in. Foundation and tableau piles carry their
      pile number; there is one talon. */
  datatype Location = Foundation(pile: U8) | Tableau(pile: U8) | Talon

  /** A slot `idx` of the pile at `location`. */
  datatype Coord = Coord(location: Location, idx: U8)

  /** Draw from the stock, put the talon back, or move a card. */
  datatype Action = TurnStock | ClearTalon | Move(from: Coord, to: Coord)

  /** `Coord::new`. */
  function NewCoord(location: Location, idx: U8): (c: Coord)
    ensures c.location == location && c.idx == idx
  {
    Coord(location, idx)
  }

  /** The derived `PartialEq` on `Location`: the same variant and, for a
      foundation or tableau pile, the same pile number. */
  lemma LocationEquality(l: Location, m: Location)
    ensures l == m <==>
      || (l.Talon? && m.Talon?)
      || (l.Foundation? && m.Foundation? && l.pile == m.pile)
      || (l.Tableau? && m.Tableau? && l.pile == m.pile)
  {
  }

  /** The derived `PartialEq` on `Coord` is field-wise. */
  lemma CoordEquality(a: Coord, b: Coord)
    ensures a == b <==> a.location == b.location && a.idx == b.idx
  {
  }

  /** An action has exactly one of the three shapes. */
  lemma ActionShapes(a: Action)
    ensures a.TurnStock? || a.ClearTalon? || a.Move?
    ensures !(a.TurnStock? && a.ClearTalon?) && !(a.TurnStock? && a.Move?) && !(a.ClearTalon? && a.Move?)
  {
  }
}
