/**
 The card model of `solitaire-game`: four suits, thirteen ranks from Ace = 1
 to King = 13, the colour-equivalence test and the canonical ordered deck.
 */
module Deck {

  datatype Suit = Hearts | Spades | Clubs | Diamonds

  datatype Value =
    | Ace | Two | Three | Four | Five | Six | Seven
    | Eight | Nine | Ten | Jack | Queen | King

  datatype Card = Card(suit: Suit, value: Value)

  /** The `#[repr(u8)]` discriminant of a rank. */
  function Rank(v: Value): (r: int)
    ensures 1 <= r <= 13
  {
    match v
    case Ace => 1
    case Two => 2
    case Three => 3
    case Four => 4
    case Five => 5
    case Six => 6
    case Seven => 7
    case Eight => 8
    case Nine => 9
    case Ten => 10
    case Jack => 11
    case Queen => 12
    case King => 13
  }

  /** The rank with discriminant `n`; every integer in 1..13 names one. */
  function ValueOf(n: int): (v: Value)
    requires 1 <= n <= 13
    ensures Rank(v) == n
  {
    if n == 1 then Ace
    else if n == 2 then Two
    else if n == 3 then Three
    else if n == 4 then Four
    else if n == 5 then Five
    else if n == 6 then Six
    else if n == 7 then Seven
    else if n == 8 then Eight
    else if n == 9 then Nine
    else if n == 10 then Ten
    else if n == 11 then Jack
    else if n == 12 then Queen
    else King
  }

  /** The discriminants are a bijection between the ranks and 1..13. */
  lemma RanksAreContiguous(v: Value, w: Value)
    ensures ValueOf(Rank(v)) == v
    ensures Rank(v) == Rank(w) ==> v == w
  {
  }

  /** `Card::default()`: the Ace of Hearts. */
  function DefaultCard(): (c: Card)
    ensures c.suit == Hearts && Rank(c.value) == 1
  {
    Card(Hearts, Ace)
  }

  datatype Colour = Red | Black

  /** Reference colouring of the suits: Hearts and Diamonds are red. */
  function ColourOf(s: Suit): Colour
  {
    if s == Hearts || s == Diamonds then Red else Black
  }

  /** `Card::has_same_colour`, written as the source tests the suits: two
      cards share a colour exactly when their suits are coloured alike. */
  function HasSameColour(a: Card, b: Card): (r: bool)
    ensures r <==> ColourOf(a.suit) == ColourOf(b.suit)
  {
    || ((a.suit == Hearts || a.suit == Diamonds) && (b.suit == Hearts || b.suit == Diamonds))
    || ((a.suit == Clubs || a.suit == Spades) && (b.suit == Clubs || b.suit == Spades))
  }

  /** `HasSameColour` is an equivalence relation. */
  lemma SameColourIsEquivalence()
    ensures forall a :: HasSameColour(a, a)
    ensures forall a, b :: HasSameColour(a, b) <==> HasSameColour(b, a)
    ensures forall a, b, c :: HasSameColour(a, b) && HasSameColour(b, c) ==> HasSameColour(a, c)
  {
  }

  /** It has exactly two classes: every card is red like the Ace of Hearts or
      black like the Ace of Spades, and never both. */
  lemma SameColourHasTwoClasses(c: Card)
    ensures HasSameColour(c, Card(Hearts, Ace)) != HasSameColour(c, Card(Spades, Ace))
  {
  }

  /** No value occurs twice in `s`. */
  ghost predicate Distinct<T>(s: seq<T>)
  {
    forall i, j | 0 <= i < j < |s| :: s[i] != s[j]
  }

  /** The suits in the order the canonical deck lists them. */
  const SuitOrder: seq<Suit> := [Hearts, Diamonds, Spades, Clubs]

  /** Ace through King of one suit. */
  function SuitRun(s: Suit): (r: seq<Card>)
    ensures |r| == 13
    ensures forall j | 0 <= j < 13 :: r[j].suit == s && Rank(r[j].value) == j + 1
  {
    seq(13, j requires 0 <= j < 13 => Card(s, ValueOf(j + 1)))
  }

  /** The `ORDERED` constant: 52 cards, its layout in `OrderedLayout`. */
  function Ordered(): (r: seq<Card>)
    ensures |r| == 52
  {
    SuitRun(Hearts) + SuitRun(Diamonds) + SuitRun(Spades) + SuitRun(Clubs)
  }

  /** Entry `i` of `ORDERED` is the rank `i % 13 + 1` of the `i / 13`-th suit of
      Hearts, Diamonds, Spades, Clubs. */
  lemma OrderedLayout()
    ensures |Ordered()| == 52
    ensures forall i | 0 <= i < 52 ::
      Ordered()[i].suit == SuitOrder[i / 13] && Rank(Ordered()[i].value) == i % 13 + 1
  {
    var h, d, s, c := SuitRun(Hearts), SuitRun(Diamonds), SuitRun(Spades), SuitRun(Clubs);
    assert Ordered() == h + d + s + c;
    forall i | 0 <= i < 52
      ensures Ordered()[i].suit == SuitOrder[i / 13] && Rank(Ordered()[i].value) == i % 13 + 1
    {
      if i < 13 {
        assert Ordered()[i] == h[i];
      } else if i < 26 {
        assert Ordered()[i] == d[i - 13];
      } else if i < 39 {
        assert Ordered()[i] == s[i - 26];
      } else {
        assert Ordered()[i] == c[i - 39];
      }
    }
  }

  /** `ORDERED` holds 52 pairwise distinct cards. */
  lemma OrderedDistinct()
    ensures |Ordered()| == 52
    ensures Distinct(Ordered())
  {
    OrderedLayout();
  }

  /** Every one of the 4 x 13 cards occurs in `ORDERED`, at position
      13 * (its suit's place) + rank - 1. */
  lemma OrderedComplete(c: Card)
    ensures c in Ordered()
  {
    OrderedLayout();
    var k := if c.suit == Hearts then 0 else if c.suit == Diamonds then 1
             else if c.suit == Spades then 2 else 3;
    var i := 13 * k + Rank(c.value) - 1;
    assert i / 13 == k && i % 13 == Rank(c.value) - 1;
    RanksAreContiguous(c.value, Ordered()[i].value);
    assert Ordered()[i] == c;
  }

  /** A sequence without repetitions holds each of its elements exactly once. */
  lemma {:induction false} DistinctCounts<T>(s: seq<T>, x: T)
    requires Distinct(s)
    ensures multiset(s)[x] == if x in s then 1 else 0
  {
    if |s| > 0 {
      assert s == [s[0]] + s[1..];
      assert Distinct(s[1..]) by {
        forall i, j | 0 <= i < j < |s[1..]| ensures s[1..][i] != s[1..][j] {
          assert s[1..][i] == s[i + 1] && s[1..][j] == s[j + 1];
        }
      }
      DistinctCounts(s[1..], x);
      if x == s[0] {
        assert x !in s[1..] by {
          forall j | 0 <= j < |s[1..]| ensures s[1..][j] != x {
            assert s[1..][j] == s[j + 1];
          }
        }
      }
    }
  }

  /** A deck: any ordering of the 52 cards, one of each. */
  ghost predicate IsDeck(d: seq<Card>)
  {
    multiset(d) == multiset(Ordered())
  }

  /** Every card occurs exactly once in `ORDERED`, hence in every deck, and a
      deck has 52 cards. */
  lemma DeckHoldsEachCardOnce(d: seq<Card>, c: Card)
    requires IsDeck(d)
    ensures |d| == 52
    ensures multiset(d)[c] == 1
  {
    OrderedDistinct();
    OrderedComplete(c);
    DistinctCounts(Ordered(), c);
    assert |multiset(d)| == |multiset(Ordered())|;
  }

  /** Every card occurs exactly once in `ORDERED`. */
  lemma OrderedHoldsEachCardOnce()
    ensures forall c: Card :: multiset(Ordered())[c] == 1
  {
    OrderedDistinct();
    forall c: Card ensures multiset(Ordered())[c] == 1 {
      OrderedComplete(c);
      DistinctCounts(Ordered(), c);
    }
  }

  /** `Deck::new_ordered()`: a deck of 52 cards holding each card once, Ace
      through King of Hearts, Diamonds, Spades, then Clubs. */
  function NewOrdered(): (d: seq<Card>)
    ensures |d| == 52
    ensures forall c: Card :: multiset(d)[c] == 1
    ensures forall i | 0 <= i < 52 :: d[i].suit == SuitOrder[i / 13] && Rank(d[i].value) == i % 13 + 1
    ensures IsDeck(d)
  {
    OrderedHoldsEachCardOnce();
    OrderedLayout();
    Ordered()
  }
}
