# K+ solitaire game logic, modelled in Dafny

This project models the game-logic crate `solitaire-game` of the
solitaire-solver repository, and the move-ranking helpers of its solver crate.

- **Cards** (`deck.dfy`, module `Deck`). A card has one of four suits and a
  rank from Ace = 1 to King = 13. The module holds the colour test
  `has_same_colour` and the canonical 52-card `ORDERED` deck. The Rust
  `Deck` is any array of 52 cards behind a public field, so nothing stops
  repeats. Only `new_ordered` and `new_shuffled` build an ordering of the 52
  distinct cards, and only such decks are called decks here (`IsDeck`). The
  deal itself needs nothing more than 52 cards.
- **Addressing** (`action.dfy`, module `Actions`). A `Location` is a
  foundation pile, a tableau pile or the talon. A `Coord` is a slot in a
  location. An `Action` is `TurnStock`, `ClearTalon` or `Move(from, to)`.
  The `u8` fields are integers in 0..255.
- **Board** (`state.dfy`, module `Board`). A `State` has:
  - seven tableau piles of 19 slots;
  - four foundation piles of 13 slots;
  - a 24-slot talon and the talon cursor (−1 means no talon card is exposed).

  Each tableau pile is a slot sequence plus a face-up boundary, which is how
  the solver and the interface read a pile. `state.rs` itself never reads or
  writes the boundary. The module models:
  - the deal, driven by a given deck;
  - the slot accessors `get` and `set`;
  - the transition `apply`;
  - the prefix scans `find_last_idx` and `find_last`.
- **Solver helpers** (`common.dfy`, module `SolverCommon`). `available_moves`
  and the heuristic `action_value`.

Behaviour follows the code:
- `TurnStock` adds one to the cursor and never wraps back to −1. After 24
  draws from −1 the cursor is 23, and the 25th draw takes it to 24, outside
  the board invariant −1..23 (`DrawCycle`).
- The `Move` arm of `apply` is a stub. It runs its guards (same coordinate,
  talon to talon, empty source, occupied destination) and then returns the
  board unchanged on every path. No solitaire rule beyond these four guards
  (ordering checks, run transfer, turning up a card) is in `apply`, so none
  is modelled. The only guard on the talon rejects talon-to-talon
  moves, not every move to the talon.
- The deal sets no face-up boundary, so the deal takes the seven boundaries
  as a parameter and leaves them as given.

Preconditions are the conditions under which the Rust code does not panic.
- Board shape: `Shaped` says the arrays have their sizes and the cursor fits
  an `i8`. `Valid` adds the invariant −1 ≤ cursor ≤ 23.
- Slot access: `Addressable` is exactly when `get` and `set` index in bounds.
  It includes the `idx as i8` cast of a talon index. Because of that cast,
  talon slot 255 matches cursor −1, and `get` on it indexes slot 255 and
  panics (`TalonSlot255Aliases`). Every coordinate within the array bounds
  is addressable on a valid board.
- `TurnStock` requires cursor < 127. A debug build panics on `i8` overflow.
- `action_value` is undefined on a move to the talon (its `unreachable!`
  arm). It is also undefined when a pile number it uses to index the tableau
  is 7 or more.

## Model

| member | source | states |
|---|---|---|
| `Deck.Rank` | crates/solitaire-game/src/deck.rs:65-81 | every rank's discriminant lies in 1..13 |
| `Deck.ValueOf` | crates/solitaire-game/src/deck.rs:65-81 | every integer 1..13 is the discriminant of some rank |
| `Deck.RanksAreContiguous` | crates/solitaire-game/src/deck.rs:67-81 | discriminants and ranks are in bijection: Ace = 1 through King = 13, no two ranks share one |
| `Deck.DefaultCard` | crates/solitaire-game/src/deck.rs:34-41 | `Card::default()` is the Ace of Hearts |
| `Deck.HasSameColour` | crates/solitaire-game/src/deck.rs:48-53 | `has_same_colour(a, b)` holds iff both suits are red (Hearts, Diamonds) or both are black (Clubs, Spades) under the separate colouring `ColourOf` |
| `Deck.SameColourIsEquivalence` | crates/solitaire-game/src/deck.rs:48-53 | `has_same_colour` is reflexive, symmetric and transitive |
| `Deck.SameColourHasTwoClasses` | crates/solitaire-game/src/deck.rs:48-53 | every card shares a colour with exactly one of the Ace of Hearts and the Ace of Spades |
| `Deck.Ordered` | crates/solitaire-game/src/deck.rs:85-138 | `ORDERED` has 52 cards; its order is stated by `Deck.OrderedLayout`, its contents by `Deck.OrderedDistinct`, `Deck.OrderedComplete` and `Deck.OrderedHoldsEachCardOnce` |
| `Deck.OrderedLayout` | crates/solitaire-game/src/deck.rs:85-138 | `ORDERED` has 52 entries; entry i is rank i % 13 + 1 of the (i / 13)-th suit of Hearts, Diamonds, Spades, Clubs |
| `Deck.OrderedDistinct` | crates/solitaire-game/src/deck.rs:85-138 | the 52 entries of `ORDERED` are pairwise distinct |
| `Deck.OrderedComplete` | crates/solitaire-game/src/deck.rs:85-138 | every suit-rank pair occurs in `ORDERED` |
| `Deck.OrderedHoldsEachCardOnce` | crates/solitaire-game/src/deck.rs:85-138 | every card occurs in `ORDERED` exactly once |
| `Deck.DeckHoldsEachCardOnce` | crates/solitaire-game/src/deck.rs:6 | a reordering of `ORDERED`, as `new_ordered` and `new_shuffled` build, has 52 cards and holds each card exactly once; the `Deck` type itself does not enforce this |
| `Deck.NewOrdered` | crates/solitaire-game/src/deck.rs:17-19 | `new_ordered()` has 52 cards, holds each card exactly once, and lists Ace to King of Hearts, Diamonds, Spades, then Clubs |
| `Actions.NewCoord` | crates/solitaire-game/src/action.rs:20-24 | `Coord::new(l, i)` has location `l` and index `i` |
| `Actions.LocationEquality` | crates/solitaire-game/src/action.rs:26-33 | locations are equal iff same variant and, for foundation or tableau, same pile; the talon equals only the talon |
| `Actions.CoordEquality` | crates/solitaire-game/src/action.rs:14-18 | coordinates are equal iff location and index are both equal, the equality `apply`'s `from == to` guard uses |
| `Actions.ActionShapes` | crates/solitaire-game/src/action.rs:4-12 | an action is exactly one of `TurnStock`, `ClearTalon`, `Move` |
| `Board.I8` | crates/solitaire-game/src/state.rs:88 | the cast `idx as i8` lands in −128..127 and is the index or the index minus 256 |
| `Board.InBoundsAddressable` | crates/solitaire-game/src/state.rs:80-108 | on a valid board, `get` and `set` are panic-free on every coordinate inside the array bounds |
| `Board.TalonSlot255Aliases` | crates/solitaire-game/src/state.rs:88-91 | with cursor −1, talon slot 255 passes the cursor test and is indexed out of bounds; every other talon index is safe |
| `Board.Get` | crates/solitaire-game/src/state.rs:80-94 | foundation and tableau reads return the stored slot; a talon read returns its slot when the index equals the cursor and `None` otherwise |
| `Board.Set` | crates/solitaire-game/src/state.rs:96-108 | the addressed slot takes the value; every other slot, the cursor and the boundaries are unchanged; a talon index other than the cursor leaves the board unchanged |
| `Board.GetAfterSet` | crates/solitaire-game/src/state.rs:80-108 | `get` after `set` at the same coordinate returns the value written, or `None` for a hidden talon slot |
| `Board.GetOtherAfterSet` | crates/solitaire-game/src/state.rs:80-108 | `set` at one coordinate does not change what `get` returns at any other |
| `Board.SetWhatGetRead` | crates/solitaire-game/src/state.rs:80-108 | writing back what `get` read leaves the board unchanged |
| `Board.IterToArrConserves` | crates/solitaire-game/src/state.rs:111-119 | the contract of `IterToArr` (`iter_to_arr`): the slots `iter_to_arr` fills plus the iterator it leaves hold exactly the iterator's cards |
| `Board.Combine` | crates/solitaire-game/src/state.rs:121-132 | the `L = N + M` slots hold `n` in slots 0..N-1 and `m` in slots N..L-1 |
| `Board.Deal` | crates/solitaire-game/src/state.rs:21-50 | the deal of `Default for State` gives 7 tableau piles, 4 foundations, 24 talon slots and cursor −1; the slot contents are stated by `Board.DealTableau` and `Board.DealTalon`, and conservation by `Board.DealConservesCards` |
| `Board.DealShape` | crates/solitaire-game/src/state.rs:21-50 | the dealt board is valid, all foundation slots are empty, the cursor is −1 and the piles keep the given boundaries |
| `Board.DealTableau` | crates/solitaire-game/src/state.rs:26-34 | tableau pile p holds deck cards PileStart(p)..PileStart(p)+p in order at slots 0..p, and every slot above p is empty |
| `Board.DealTalon` | crates/solitaire-game/src/state.rs:38-43 | talon slots 0..23 hold deck cards 28..51 in order |
| `Board.DealPileCards` | crates/solitaire-game/src/state.rs:26-34 | pile p holds exactly the deck cards between positions PileStart(p) and PileStart(p + 1) |
| `Board.DealConservesCards` | crates/solitaire-game/src/state.rs:21-50 | the dealt board holds exactly the multiset of the deck's cards |
| `Board.DealPlacesEachCardOnce` | crates/solitaire-game/src/state.rs:21-50 | dealing a deck puts each of the 52 cards in exactly one slot |
| `Board.Apply` | crates/solitaire-game/src/state.rs:54-78 | `TurnStock` adds one to the cursor, `ClearTalon` sets it to 0, neither touches a pile; `Move` returns the input board on every path |
| `Board.MoveDefinedInBounds` | crates/solitaire-game/src/state.rs:59-74 | on a valid board the guards of `Move` are panic-free for in-bounds coordinates |
| `Board.MoveIsStub` | crates/solitaire-game/src/state.rs:59-77 | a move that passes every guard still changes nothing and keeps every card where it was |
| `Board.TurnStockValidity` | crates/solitaire-game/src/state.rs:57 | `TurnStock` keeps the cursor within −1..23 iff it was below 23 |
| `Board.ClearTalonValidity` | crates/solitaire-game/src/state.rs:58 | `ClearTalon` keeps the board valid |
| `Board.TurnStockTimesCursor` | crates/solitaire-game/src/state.rs:57 | n draws move the cursor by exactly n and leave every pile unchanged |
| `Board.DrawCycle` | crates/solitaire-game/src/state.rs:57 | from −1, draw n leaves the cursor at n − 1; the board stays valid for 24 draws and the 25th leaves it at 24, not −1 |
| `Board.PrefixLength` | crates/solitaire-game/src/state.rs:134-150 | the longest prefix satisfying the predicate: all its elements satisfy it and the next element, if any, fails |
| `Board.PrefixLengthUnique` | crates/solitaire-game/src/state.rs:134-150 | any n whose first n elements satisfy the predicate, followed by the end or a failing element, is that longest prefix |
| `Board.FindLastIdx` | crates/solitaire-game/src/state.rs:134-150 | returns `Some(k)` iff elements 0..k satisfy the predicate and element k+1 is absent or fails; `None` iff the sequence is empty or its first element fails |
| `Board.FindLast` | crates/solitaire-game/src/state.rs:152-165 | returns the element at the index `find_last_idx` finds, and `None` exactly when that finds none |
| `SolverCommon.AvailableMoves` | crates/solitaire-solver/src/common.rs:11-17 | a 3000-slot list with `TurnStock` at slot 0 and `None` everywhere else |
| `SolverCommon.AvailableMovesIgnoresBoard` | crates/solitaire-solver/src/common.rs:11 | the list is the same for every board |
| `SolverCommon.AvailableMovesSound` | crates/solitaire-solver/src/common.rs:11-17 | every listed action changes a valid board when applied |
| `SolverCommon.ValueDefinedInBounds` | crates/solitaire-solver/src/common.rs:118-151 | for in-bounds coordinates, `action_value` is panic-free exactly when a move's destination is not the talon |
| `SolverCommon.ActionValue` | crates/solitaire-solver/src/common.rs:118-151 | scores lie in 0..5; draws score 0; moves to a foundation score 4 or 5; a tableau-to-tableau move scores 3 iff it reveals a card and 0 otherwise; talon to tableau 2; foundation to tableau 1 |
| `SolverCommon.ActionValueRewardsFoundationSource` | crates/solitaire-solver/src/common.rs:124-131 | with tableau pile 3 hiding one card, moving its first face-up card to a foundation turns that card up but scores 4, while a foundation-to-foundation move that reveals nothing scores 5; the corrected ranking gives 5 and 4 |
| `SolverCommon.IntendedActionValue` | crates/solitaire-solver/src/common.rs:124-131 | with a tableau source in the 5-point test, a move scores 4 or more iff it goes to a foundation, and 5 or 3 iff it reveals a hidden tableau card |
| `SolverCommon.ActionValueAgreesOffFoundation` | crates/solitaire-solver/src/common.rs:118-151 | the as-written and corrected scores agree off the foundations; onto a foundation the code gives 5 iff the source is foundation i with `from.idx` equal to tableau pile i's boundary, and the correction gives 5 iff the move reveals a card |

## Findings

| source | as written | input that shows it | evidently intended | confidence | as-written member | corrected member |
|---|---|---|---|---|---|---|
| crates/solitaire-solver/src/common.rs:124-131 | the 5-point test for a move to a foundation matches a foundation source `Foundation(i)` and compares `from.idx` with tableau pile i's boundary | tableau pile 3 has boundary 1, so one card is face down. `Move(Tableau(3)/1 → Foundation(0)/0)` turns that card up but scores 4. `Move(Foundation(3)/1 → Foundation(0)/0)` reveals nothing and scores 5 | a tableau source that reveals a hidden card scores 5, as the comment on line 125 and the action ordering cited at lines 115-117 say | high; not executed | `SolverCommon.ActionValueRewardsFoundationSource` | `SolverCommon.IntendedActionValue` |

## Left out

- `MoveIterator` in `crates/solitaire-solver/src/common.rs` is not modelled. It is unfinished: its inner loop iterates over `None`, so it yields nothing. It calls an `is_valid_move` that no shown file defines. `start_pile - 1` underflows for pile 0.
- `Deck::new_shuffled` and `Default for Deck` are not modelled, because randomness is outside the model. The deal takes any deck as a parameter instead.
- `Solitaire::with_deck` and `do_move` in `crates/solitaire-game/src/lib.rs` are not modelled. `with_deck` calls a `State::new` that is not part of this model.
- The interface code in `src/main.rs`, `src/tableau.rs`, `src/top_ui.rs` and `src/image.rs` is not modelled. It is rendering, drag-and-drop and asset paths.
- `Board.Apply`: the release-build wrap of the `i8` cursor past 127 is not modelled. The precondition cursor < 127 follows the debug build, which panics there.
- `Board.FindLastIdx`: the predicate is a pure function. A stateful `FnMut` closure and lazy iterators are not modelled; the iterator is a finite sequence.
- `Board.Deal`: the boundary values are not set. The source stores none, so the deal keeps the given ones.
- Face-up boundaries are unbounded naturals, not `u8`s, because nothing here does arithmetic on them.
- `Card::new` and the derived `Debug`, `Clone` and `Copy` impls are not modelled beyond the datatype constructors. Dafny values are immutable, so copies are implicit.
