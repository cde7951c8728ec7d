/**
 The board of `solitaire-game`: seven tableau piles of 19 slots, four
 foundation piles of 13, a 24-slot talon and the talon cursor; the deal, the
 slot accessors `get` and `set`, the `apply` transition and the prefix-scan
 helpers. `State` is a value: every operation returns a new one.
 */
module Board {
  import opened Wrappers
  import opened Deck
  import opened Actions

  const TableauPiles := 7
  const TableauSlots := 19
  const FoundationPiles := 4
  const FoundationSlots := 13
  const TalonSlots := 24

  /** A tableau pile: its slots and the face-up boundary (the first slot whose
      card is face up). */
  datatype Pile = Pile(slots: seq<Option<Card>>, boundary: nat)

  /** The talon's cursor is the one exposed talon slot; -1 means none. */
  datatype State = State(
    tableau: seq<Pile>,
    foundation: seq<seq<Option<Card>>>,
    talon: seq<Option<Card>>,
    cursor: int)

  /** The fixed array sizes, and a cursor that fits Rust's `i8`. */
  ghost predicate Shaped(s: State)
  {
    && |s.tableau| == TableauPiles
    && (forall p | 0 <= p < TableauPiles :: |s.tableau[p].slots| == TableauSlots)
    && |s.foundation| == FoundationPiles
    && (forall p | 0 <= p < FoundationPiles :: |s.foundation[p]| == FoundationSlots)
    && |s.talon| == TalonSlots
    && -128 <= s.cursor <= 127
  }

  /** The board invariant: the cursor is -1 or names a talon slot. */
  ghost predicate Valid(s: State)
  {
    Shaped(s) && -1 <= s.cursor < TalonSlots
  }

  /** The cast `idx as i8`, which wraps 128..255 to -128..-1. */
  function I8(x: U8): (r: int)
    ensures -128 <= r <= 127
    ensures r == x || r == x - 256
  {
    if x < 128 then x else x - 256
  }

  /** A coordinate whose pile and slot lie inside the board's arrays. */
  predicate InBounds(c: Coord)
  {
    match c.location
    case Foundation(i) => i < FoundationPiles && c.idx < FoundationSlots
    case Tableau(i) => i < TableauPiles && c.idx < TableauSlots
    case Talon => c.idx < TalonSlots
  }

  /** Exactly the coordinates `get` and `set` accept without an out-of-bounds
      panic: a talon slot is only indexed when `idx as i8` equals the cursor. */
  predicate Addressable(s: State, c: Coord)
  {
    match c.location
    case Foundation(i) => i < FoundationPiles && c.idx < FoundationSlots
    case Tableau(i) => i < TableauPiles && c.idx < TableauSlots
    case Talon => I8(c.idx) == s.cursor ==> c.idx < TalonSlots
  }

  /** The stored slot at an in-bounds coordinate, ignoring the cursor. */
  function Raw(s: State, c: Coord): Option<Card>
    requires Shaped(s) && InBounds(c)
  {
    match c.location
    case Foundation(i) => s.foundation[i][c.idx]
    case Tableau(i) => s.tableau[i].slots[c.idx]
    case Talon => s.talon[c.idx]
  }

  /** Whether `set` at `c` takes effect: every pile slot does, and the talon
      slot under the cursor. */
  predicate Visible(s: State, c: Coord)
  {
    !c.location.Talon? || c.idx == s.cursor
  }

  /** Every in-bounds coordinate of a valid board is addressable. */
  lemma InBoundsAddressable(s: State, c: Coord)
    requires Valid(s) && InBounds(c)
    ensures Addressable(s, c)
  {
  }

  /** Because of the `i8` cast, talon slot 255 aliases cursor -1: with no talon
      card exposed, `get` on it indexes slot 255 and panics. */
  lemma TalonSlot255Aliases(s: State)
    requires Valid(s) && s.cursor == -1
    ensures !Addressable(s, Coord(Talon, 255))
    ensures forall i: U8 | i != 255 :: Addressable(s, Coord(Talon, i))
  {
  }

  /** `State::get`. A foundation or tableau coordinate reads its slot,
      face-down or not; a talon coordinate reads its slot only when it is the
      cursor, and is otherwise empty. */
  function Get(s: State, c: Coord): (r: Option<Card>)
    requires Shaped(s) && Addressable(s, c)
    ensures Visible(s, c) ==> InBounds(c) && r == Raw(s, c)
    ensures !Visible(s, c) ==> r == None
  {
    match c.location
    case Foundation(i) => s.foundation[i][c.idx]
    case Tableau(i) => s.tableau[i].slots[c.idx]
    case Talon =>
      if I8(c.idx) != s.cursor then None
      else s.talon[c.idx]
  }

  /** `State::set`. Only the addressed slot changes; a talon coordinate other
      than the cursor leaves the board as it was. */
  function Set(s: State, c: Coord, v: Option<Card>): (r: State)
    requires Shaped(s) && Addressable(s, c)
    ensures Shaped(r)
    ensures r.cursor == s.cursor
    ensures forall p | 0 <= p < TableauPiles :: r.tableau[p].boundary == s.tableau[p].boundary
    ensures !Visible(s, c) ==> r == s
    ensures Visible(s, c) ==> InBounds(c) && Raw(r, c) == v
    ensures forall d | InBounds(d) && d != c :: Raw(r, d) == Raw(s, d)
  {
    match c.location
    case Foundation(i) =>
      s.(foundation := s.foundation[i := s.foundation[i][c.idx := v]])
    case Tableau(i) =>
      s.(tableau := s.tableau[i := s.tableau[i].(slots := s.tableau[i].slots[c.idx := v])])
    case Talon =>
      if I8(c.idx) != s.cursor then s
      else s.(talon := s.talon[c.idx := v])
  }

  /** Reading back a slot just written yields what was written. */
  lemma GetAfterSet(s: State, c: Coord, v: Option<Card>)
    requires Shaped(s) && Addressable(s, c)
    ensures Addressable(Set(s, c, v), c)
    ensures Get(Set(s, c, v), c) == if Visible(s, c) then v else None
  {
  }

  /** Writing a slot leaves every other slot's reading as it was. */
  lemma GetOtherAfterSet(s: State, c: Coord, v: Option<Card>, d: Coord)
    requires Shaped(s) && Addressable(s, c) && InBounds(d) && d != c
    ensures Addressable(Set(s, c, v), d) == Addressable(s, d)
    ensures Addressable(s, d) ==> Get(Set(s, c, v), d) == Get(s, d)
  {
  }

  /** Writing back what `get` read leaves the board unchanged. */
  lemma SetWhatGetRead(s: State, c: Coord)
    requires Shaped(s) && Addressable(s, c)
    ensures Set(s, c, Get(s, c)) == s
  {
    match c.location
    case Foundation(i) =>
      assert s.foundation[i][c.idx := s.foundation[i][c.idx]] == s.foundation[i];
      assert s.foundation[i := s.foundation[i]] == s.foundation;
    case Tableau(i) =>
      assert s.tableau[i].slots[c.idx := s.tableau[i].slots[c.idx]] == s.tableau[i].slots;
      assert s.tableau[i := s.tableau[i]] == s.tableau;
    case Talon =>
      if I8(c.idx) == s.cursor {
        assert s.talon[c.idx := s.talon[c.idx]] == s.talon;
      }
  }

  // ---------------------------------------------------------------------
  // The deal
  // ---------------------------------------------------------------------

  function Min(a: nat, b: nat): nat
  {
    if a <= b then a else b
  }

  /** `iter_to_arr::<n>`: fill `n` slots from the front of `iter`, one card per
      slot while cards remain, and hand back the unconsumed rest. */
  function IterToArr<T>(iter: seq<T>, n: nat): (res: (seq<Option<T>>, seq<T>))
    ensures |res.0| == n
    ensures forall j | 0 <= j < n :: res.0[j] == if j < |iter| then Some(iter[j]) else None
    ensures res.1 == iter[Min(n, |iter|)..]
  {
    (seq(n, j requires 0 <= j < n => if j < |iter| then Some(iter[j]) else None), iter[Min(n, |iter|)..])
  }

  /** `combine`: the `L = N + M` slots holding `n` then `m`. */
  function Combine<T>(n: seq<T>, m: seq<T>, len: nat): (l: seq<T>)
    requires |n| + |m| == len
    ensures |l| == len
    ensures forall j | 0 <= j < |n| :: l[j] == n[j]
    ensures forall j | 0 <= j < |m| :: l[|n| + j] == m[j]
  {
    n + m
  }

  /** `n` empty slots. */
  function Empty<T>(n: nat): (r: seq<Option<T>>)
    ensures |r| == n && forall j | 0 <= j < n :: r[j] == None
  {
    seq(n, _ => None)
  }

  /** Tableau pile p of the deal: the p + 1 cards `dealt`, padded to 19 slots. */
  function DealtPile(dealt: seq<Option<Card>>, boundary: nat): Pile
    requires |dealt| <= TableauSlots
  {
    Pile(Combine(dealt, Empty(TableauSlots - |dealt|), TableauSlots), boundary)
  }

  /** How many cards piles 0..p-1 take, so where the deck iterator stands
      when pile p is dealt: 0, 1, 3, 6, 10, 15, 21, and 28 after the last. */
  function PileStart(p: nat): nat
    requires p <= TableauPiles
  {
    if p == 0 then 0 else if p == 1 then 1 else if p == 2 then 3 else if p == 3 then 6
    else if p == 4 then 10 else if p == 5 then 15 else if p == 6 then 21 else 28
  }

  /** Pile p takes p + 1 cards, and the tableau takes the first 28. */
  lemma PileStartStep(p: nat)
    requires p < TableauPiles
    ensures PileStart(p + 1) == PileStart(p) + p + 1 <= PileStart(TableauPiles) == 28
  {
  }

  /** The deal of `State::default`, from the given deck instead of a shuffled
      one. Pile p takes the next p + 1 cards, the talon the remaining 24; no
      foundation card, no talon card exposed. The source stores no boundary,
      so the piles keep the `boundaries` given. */
  function Deal(deck: seq<Card>, boundaries: seq<nat>): (s: State)
    requires |deck| == 52 && |boundaries| == TableauPiles
    ensures |s.tableau| == TableauPiles && |s.foundation| == FoundationPiles
    ensures |s.talon| == TalonSlots && s.cursor == -1
  {
    var tableau := seq(TableauPiles, p requires 0 <= p < TableauPiles =>
      DealtPile(IterToArr(deck[PileStart(p)..], p + 1).0, boundaries[p]));
    var foundation := seq(FoundationPiles, _ => Empty(FoundationSlots));
    var talon := IterToArr(deck[PileStart(TableauPiles)..], TalonSlots).0;
    State(tableau, foundation, talon, -1)
  }

  /** The dealt board is valid: 7 piles of 19 slots keeping the given
      boundaries, 4 empty foundations of 13 slots, 24 talon slots, and cursor -1. */
  lemma DealShape(deck: seq<Card>, boundaries: seq<nat>)
    requires |deck| == 52 && |boundaries| == TableauPiles
    ensures Valid(Deal(deck, boundaries))
    ensures Deal(deck, boundaries).cursor == -1
    ensures forall p | 0 <= p < TableauPiles :: Deal(deck, boundaries).tableau[p].boundary == boundaries[p]
    ensures forall p, j | 0 <= p < FoundationPiles && 0 <= j < FoundationSlots ::
      Deal(deck, boundaries).foundation[p][j] == None
  {
    var s := Deal(deck, boundaries);
    forall p | 0 <= p < TableauPiles
      ensures |s.tableau[p].slots| == TableauSlots && s.tableau[p].boundary == boundaries[p]
    {
    }
  }

  /** Pile p holds the p + 1 cards of the deck from position PileStart(p) on,
      in deck order, at slots 0..p, and nothing above. */
  lemma DealTableau(deck: seq<Card>, boundaries: seq<nat>, p: nat, j: nat)
    requires |deck| == 52 && |boundaries| == TableauPiles
    requires p < TableauPiles && j < TableauSlots
    ensures PileStart(p) + p < PileStart(TableauPiles)
    ensures Deal(deck, boundaries).tableau[p].slots[j] ==
      if j <= p then Some(deck[PileStart(p) + j]) else None
  {
    var iter := deck[PileStart(p)..];
    var dealt := IterToArr(iter, p + 1).0;
    var slots := Deal(deck, boundaries).tableau[p].slots;
    assert slots == Combine(dealt, Empty(TableauSlots - (p + 1)), TableauSlots);
    if j <= p {
      assert slots[j] == dealt[j];
      assert dealt[j] == Some(iter[j]);
    } else {
      assert slots[j] == Empty(TableauSlots - (p + 1))[j - (p + 1)];
    }
  }

  /** The talon holds the last 24 deck cards in deck order. */
  lemma DealTalon(deck: seq<Card>, boundaries: seq<nat>, j: nat)
    requires |deck| == 52 && |boundaries| == TableauPiles
    requires j < TalonSlots
    ensures Deal(deck, boundaries).talon[j] == Some(deck[PileStart(TableauPiles) + j])
  {
  }

  // ---------------------------------------------------------------------
  // Conservation of cards
  // ---------------------------------------------------------------------

  /** The cards held in a run of slots. */
  function Cards<T>(slots: seq<Option<T>>): multiset<T>
    decreases |slots|
  {
    if |slots| == 0 then multiset{}
    else (if slots[0].Some? then multiset{slots[0].value} else multiset{}) + Cards(slots[1..])
  }

  /** The cards held in a list of piles. */
  function CardsIn<T>(piles: seq<seq<Option<T>>>): multiset<T>
    decreases |piles|
  {
    if |piles| == 0 then multiset{} else Cards(piles[0]) + CardsIn(piles[1..])
  }

  function PileSlots(tableau: seq<Pile>): seq<seq<Option<Card>>>
  {
    seq(|tableau|, p requires 0 <= p < |tableau| => tableau[p].slots)
  }

  /** Every card on the board: tableau, foundations and talon. */
  function BoardCards(s: State): multiset<Card>
  {
    CardsIn(PileSlots(s.tableau)) + CardsIn(s.foundation) + Cards(s.talon)
  }

  lemma {:induction false} CardsConcat<T>(a: seq<Option<T>>, b: seq<Option<T>>)
    ensures Cards(a + b) == Cards(a) + Cards(b)
    decreases |a|
  {
    if |a| == 0 {
      assert a + b == b;
    } else {
      assert (a + b)[1..] == a[1..] + b;
      CardsConcat(a[1..], b);
    }
  }

  lemma {:induction false} CardsOfEmpty<T>(slots: seq<Option<T>>)
    requires forall j | 0 <= j < |slots| :: slots[j] == None
    ensures Cards(slots) == multiset{}
    decreases |slots|
  {
    if |slots| > 0 {
      CardsOfEmpty(slots[1..]);
    }
  }

  /** Slots filled with the cards of `cs`, in order, hold exactly `cs`. */
  lemma {:induction false} CardsOfFilled<T>(slots: seq<Option<T>>, cs: seq<T>)
    requires |slots| == |cs| && forall j | 0 <= j < |cs| :: slots[j] == Some(cs[j])
    ensures Cards(slots) == multiset(cs)
    decreases |cs|
  {
    if |cs| > 0 {
      CardsOfFilled(slots[1..], cs[1..]);
      assert cs == [cs[0]] + cs[1..];
    }
  }

  lemma {:induction false} CardsInOfEmpty<T>(piles: seq<seq<Option<T>>>)
    requires forall p, j | 0 <= p < |piles| && 0 <= j < |piles[p]| :: piles[p][j] == None
    ensures CardsIn(piles) == multiset{}
    decreases |piles|
  {
    if |piles| > 0 {
      CardsOfEmpty(piles[0]);
      CardsInOfEmpty(piles[1..]);
    }
  }

  /** `iter_to_arr` loses no card: the slots it fills and the rest it leaves
      together hold exactly the cards of the iterator. */
  lemma IterToArrConserves<T>(iter: seq<T>, n: nat)
    ensures Cards(IterToArr(iter, n).0) + multiset(IterToArr(iter, n).1) == multiset(iter)
  {
    var m := Min(n, |iter|);
    var slots := IterToArr(iter, n).0;
    assert slots == slots[..m] + slots[m..];
    CardsConcat(slots[..m], slots[m..]);
    CardsOfFilled(slots[..m], iter[..m]);
    CardsOfEmpty(slots[m..]);
    assert iter == iter[..m] + iter[m..];
  }

  /** Tableau pile p holds the deck cards between PileStart(p) and PileStart(p + 1). */
  lemma DealPileCards(deck: seq<Card>, boundaries: seq<nat>, p: nat)
    requires |deck| == 52 && |boundaries| == TableauPiles && p < TableauPiles
    ensures PileStart(p) <= PileStart(p + 1) <= 52
    ensures Cards(Deal(deck, boundaries).tableau[p].slots) == multiset(deck[PileStart(p)..PileStart(p + 1)])
  {
    PileStartStep(p);
    var iter := deck[PileStart(p)..];
    var arr := IterToArr(iter, p + 1);
    var slots := Deal(deck, boundaries).tableau[p].slots;
    assert slots == arr.0 + Empty(TableauSlots - (p + 1));
    CardsConcat(arr.0, Empty(TableauSlots - (p + 1)));
    CardsOfEmpty(Empty<Card>(TableauSlots - (p + 1)));
    CardsOfFilled(arr.0, iter[..p + 1]);
    assert iter[..p + 1] == deck[PileStart(p)..PileStart(p + 1)];
  }

  /** Piles p..6 of a tableau whose pile q holds the deck cards between
      PileStart(q) and PileStart(q + 1) hold the deck cards from PileStart(p)
      up to 28. */
  lemma {:induction false} PilesCardsFrom(tableau: seq<Pile>, deck: seq<Card>, p: nat)
    requires |deck| == 52 && |tableau| == TableauPiles && p <= TableauPiles
    requires forall q | p <= q < TableauPiles ::
      Cards(tableau[q].slots) == multiset(deck[PileStart(q)..PileStart(q + 1)])
    ensures PileStart(p) <= PileStart(TableauPiles)
    ensures CardsIn(PileSlots(tableau)[p..]) == multiset(deck[PileStart(p)..PileStart(TableauPiles)])
    decreases TableauPiles - p
  {
    var piles := PileSlots(tableau);
    if p < TableauPiles {
      PileStartStep(p);
      var a, b := PileStart(p), PileStart(p + 1);
      PilesCardsFrom(tableau, deck, p + 1);
      CardsInUnfold(piles, p);
      SliceMultiset(deck, a, b, 28);
    }
  }

  lemma CardsInUnfold<T>(piles: seq<seq<Option<T>>>, p: nat)
    requires p < |piles|
    ensures CardsIn(piles[p..]) == Cards(piles[p]) + CardsIn(piles[p + 1..])
  {
    assert piles[p..][1..] == piles[p + 1..];
  }

  lemma SliceMultiset<T>(s: seq<T>, a: nat, b: nat, c: nat)
    requires a <= b <= c <= |s|
    ensures multiset(s[a..c]) == multiset(s[a..b]) + multiset(s[b..c])
  {
    assert s[a..c] == s[a..b] + s[b..c];
  }

  /** The deal conserves cards: the board holds exactly the deck's cards. */
  lemma DealConservesCards(deck: seq<Card>, boundaries: seq<nat>)
    requires |deck| == 52 && |boundaries| == TableauPiles
    ensures BoardCards(Deal(deck, boundaries)) == multiset(deck)
  {
    var s := Deal(deck, boundaries);
    forall q | 0 <= q < TableauPiles
      ensures Cards(s.tableau[q].slots) == multiset(deck[PileStart(q)..PileStart(q + 1)])
    {
      DealPileCards(deck, boundaries, q);
    }
    PilesCardsFrom(s.tableau, deck, 0);
    assert PileSlots(s.tableau)[0..] == PileSlots(s.tableau);
    CardsInOfEmpty(s.foundation);
    var iter := deck[PileStart(TableauPiles)..];
    CardsOfFilled(s.talon, iter);
    assert deck == deck[..PileStart(TableauPiles)] + iter;
  }

  /** Dealing a deck puts each of the 52 cards in exactly one slot. */
  lemma DealPlacesEachCardOnce(deck: seq<Card>, boundaries: seq<nat>, c: Card)
    requires IsDeck(deck) && |boundaries| == TableauPiles
    ensures |deck| == 52
    ensures BoardCards(Deal(deck, boundaries))[c] == 1
  {
    DeckHoldsEachCardOnce(deck, c);
    DealConservesCards(deck, boundaries);
  }

  // ---------------------------------------------------------------------
  // The transition
  // ---------------------------------------------------------------------

  /** The piles, as opposed to the cursor, are the same in both boards. */
  predicate SamePiles(r: State, s: State)
  {
    r.tableau == s.tableau && r.foundation == s.foundation && r.talon == s.talon
  }

  /** Exactly the actions `apply` performs without a panic: `TurnStock` must
      not overflow the `i8` cursor, and each `get` that the `Move` guards reach
      must be addressable. */
  predicate ApplyDefined(s: State, a: Action)
    requires Shaped(s)
  {
    match a
    case TurnStock => s.cursor < 127
    case ClearTalon => true
    case Move(from, to) =>
      || from == to
      || (from.location == Talon && to.location == Talon)
      || (Addressable(s, from) && (Get(s, from).Some? ==> Addressable(s, to)))
  }

  /** `State::apply`. `TurnStock` advances the cursor by one, without wrapping
      around; `ClearTalon` resets it to 0; `Move` runs its guards and then
      returns the board unchanged on every path, so no card ever moves. */
  function Apply(s: State, a: Action): (r: State)
    requires Shaped(s) && ApplyDefined(s, a)
    ensures a.TurnStock? ==> r.cursor == s.cursor + 1 && SamePiles(r, s)
    ensures a.ClearTalon? ==> r.cursor == 0 && SamePiles(r, s)
    ensures a.Move? ==> r == s
    ensures Shaped(r)
  {
    match a
    case TurnStock => s.(cursor := s.cursor + 1)
    case ClearTalon => s.(cursor := 0)
    case Move(from, to) =>
      if from == to then s
      else if from.location == Talon && to.location == Talon then s
      else if Get(s, from).None? then s
      else if Get(s, to).Some? then s
      else s
  }

  /** On a valid board every in-bounds move is defined. */
  lemma MoveDefinedInBounds(s: State, from: Coord, to: Coord)
    requires Valid(s) && InBounds(from) && InBounds(to)
    ensures ApplyDefined(s, Move(from, to))
  {
  }

  /** Even a move that passes every guard (a card at the source, an empty
      destination) leaves the board unchanged. */
  lemma MoveIsStub(s: State, from: Coord, to: Coord)
    requires Valid(s) && InBounds(from) && InBounds(to)
    requires from != to && Get(s, from).Some? && Get(s, to).None?
    ensures Apply(s, Move(from, to)) == s
    ensures BoardCards(Apply(s, Move(from, to))) == BoardCards(s)
  {
  }

  /** `TurnStock` keeps the board valid exactly when the cursor is below 23:
      from 23 it reaches 24, past the last talon slot. */
  lemma TurnStockValidity(s: State)
    requires Valid(s)
    ensures ApplyDefined(s, TurnStock)
    ensures Valid(Apply(s, TurnStock)) <==> s.cursor < TalonSlots - 1
  {
  }

  /** `ClearTalon` always keeps the board valid. */
  lemma ClearTalonValidity(s: State)
    requires Valid(s)
    ensures Valid(Apply(s, ClearTalon))
  {
  }

  /** `n` successive `TurnStock` actions. */
  function TurnStockTimes(s: State, n: nat): State
    requires Shaped(s) && s.cursor + n <= 127
    decreases n
  {
    if n == 0 then s else TurnStockTimes(Apply(s, TurnStock), n - 1)
  }

  /** `n` draws move the cursor by exactly `n` and no pile. */
  lemma {:induction false} TurnStockTimesCursor(s: State, n: nat)
    requires Shaped(s) && s.cursor + n <= 127
    ensures TurnStockTimes(s, n).cursor == s.cursor + n
    ensures SamePiles(TurnStockTimes(s, n), s)
    decreases n
  {
    if n > 0 {
      TurnStockTimesCursor(Apply(s, TurnStock), n - 1);
    }
  }

  /** From cursor -1, 24 draws expose talon slots 0..23 in turn; the 25th
      draw leaves the cursor at 24, off the talon, rather than wrapping to -1. */
  lemma DrawCycle(s: State, n: nat)
    requires Valid(s) && s.cursor == -1 && n <= TalonSlots + 1
    ensures TurnStockTimes(s, n).cursor == n - 1
    ensures Valid(TurnStockTimes(s, n)) <==> n <= TalonSlots
  {
    TurnStockTimesCursor(s, n);
  }

  // ---------------------------------------------------------------------
  // Prefix scans
  // ---------------------------------------------------------------------

  /** The length of the longest prefix of `s` whose elements satisfy `pred`. */
  function PrefixLength<T>(s: seq<T>, pred: T -> bool): (n: nat)
    ensures n <= |s|
    ensures forall j | 0 <= j < n :: pred(s[j])
    ensures n < |s| ==> !pred(s[n])
    decreases |s|
  {
    if |s| == 0 || !pred(s[0]) then 0 else 1 + PrefixLength(s[1..], pred)
  }

  /** The longest satisfying prefix is the only prefix that satisfies `pred`
      and is followed by the end of `s` or by a failing element. */
  lemma PrefixLengthUnique<T>(s: seq<T>, pred: T -> bool, n: nat)
    requires n <= |s| && (forall j | 0 <= j < n :: pred(s[j])) && (n == |s| || !pred(s[n]))
    ensures n == PrefixLength(s, pred)
  {
  }

  /** `find_last_idx`: the index of the last element of the longest prefix that
      satisfies `pred`, found by a scan that stops at the first failure. */
  method FindLastIdx<T>(s: seq<T>, pred: T -> bool) returns (r: Option<nat>)
    ensures r.Some? ==> r.value + 1 == PrefixLength(s, pred)
    ensures r.Some? ==>
      && r.value < |s|
      && (forall j | 0 <= j <= r.value :: pred(s[j]))
      && (r.value + 1 == |s| || !pred(s[r.value + 1]))
    ensures r.None? <==> |s| == 0 || !pred(s[0])
  {
    r := None;
    var i := 0;
    while i < |s|
      invariant 0 <= i <= |s|
      invariant forall j | 0 <= j < i :: pred(s[j])
      invariant r == if i == 0 then None else Some(i - 1)
    {
      if pred(s[i]) {
        r := Some(i);
      } else {
        break;
      }
      i := i + 1;
    }
  }

  /** `find_last`: the element `find_last_idx` points at. */
  method FindLast<T>(s: seq<T>, pred: T -> bool) returns (r: Option<T>)
    ensures r.None? <==> PrefixLength(s, pred) == 0
    ensures r.Some? ==> r.value == s[PrefixLength(s, pred) - 1]
  {
    r := None;
    var i := 0;
    while i < |s|
      invariant 0 <= i <= |s|
      invariant forall j | 0 <= j < i :: pred(s[j])
      invariant r == if i == 0 then None else Some(s[i - 1])
    {
      if pred(s[i]) {
        r := Some(s[i]);
      } else {
        break;
      }
      i := i + 1;
    }
  }
}
