/** Ranks, suits, colour classes and the canonical enumeration of the 52 cards. */
module Cards {

  const ACE: int := 1
  const TWO: int := 2
  const THREE: int := 3
  const FOUR: int := 4
  const FIVE: int := 5
  const SIX: int := 6
  const SEVEN: int := 7
  const EIGHT: int := 8
  const NINE: int := 9
  const TEN: int := 10
  const JACK: int := 11
  const QUEEN: int := 12
  const KING: int := 13

  /** A rank is one of ACE..KING. */
  type Rank = r: int | 1 <= r <= 13 witness 1

  /** The ranks in ascending order. */
  const CARDS: seq<Rank> := [ACE, TWO, THREE, FOUR, FIVE, SIX, SEVEN, EIGHT, NINE, TEN, JACK, QUEEN, KING]

  /** The four suits; the source names them by the letters C, D, H and S. */
  datatype Suit = Clubs | Diamonds | Hearts | Spades

  function Letter(s: Suit): char
  {
    match s
    case Clubs => 'C'
    case Diamonds => 'D'
    case Hearts => 'H'
    case Spades => 'S'
  }

  /** The suit order, which fixes the order of the state fingerprint. */
  const COLORS: seq<Suit> := [Clubs, Diamonds, Hearts, Spades]
  const REDS: seq<Suit> := [Diamonds, Hearts]
  const BLACKS: seq<Suit> := [Clubs, Spades]

  /** A card: the source calls the suit `color`. */
  datatype Card = Card(color: Suit, rank: Rank)

  function SuitIndex(s: Suit): (i: nat)
    ensures i < 4 && COLORS[i] == s
  {
    match s
    case Clubs => 0
    case Diamonds => 1
    case Hearts => 2
    case Spades => 3
  }

  /** Position of a card in the suit-major, rank-minor enumeration. */
  function CardIndex(c: Card): (k: nat)
    ensures k < 52
  {
    13 * SuitIndex(c.color) + c.rank - 1
  }

  /** The 52 cards, suit-major and rank-minor, as the fingerprint enumerates them. */
  function Enumeration(): (s: seq<Card>)
    ensures |s| == 52
  {
    seq(52, k requires 0 <= k < 52 => CardAt(k))
  }

  /** Card number k of the enumeration: suit k / 13, rank k % 13 + 1, read off by comparisons. */
  function CardAt(k: int): Card
    requires 0 <= k < 52
  {
    var suit := if k < 13 then 0 else if k < 26 then 1 else if k < 39 then 2 else 3;
    Card(COLORS[suit], k - 13 * suit + 1)
  }

  /** One full deck: every card exactly once. */
  function FullDeck(): multiset<Card>
  {
    multiset(Enumeration())
  }

  lemma RanksAscending()
    ensures |CARDS| == 13 && CARDS[0] == ACE && CARDS[12] == KING
    ensures forall i :: 0 <= i < 13 ==> CARDS[i] == i + 1
    ensures forall i, j :: 0 <= i < j < 13 ==> CARDS[i] < CARDS[j]
  {
  }

  lemma SuitOrder()
    ensures |COLORS| == 4
    ensures seq(4, i requires 0 <= i < 4 => Letter(COLORS[i])) == ['C', 'D', 'H', 'S']
    ensures forall s: Suit :: s in COLORS
  {
    forall s: Suit
      ensures s in COLORS
    {
      assert COLORS[SuitIndex(s)] == s;
    }
  }

  /** Every suit is in exactly one colour class, and the classes together are the four suits. */
  lemma ColourClassesPartition()
    ensures forall s: Suit :: (s in REDS) != (s in BLACKS)
    ensures forall s: Suit :: s in COLORS <==> s in REDS || s in BLACKS
    ensures multiset(REDS) + multiset(BLACKS) == multiset(COLORS)
  {
    forall s: Suit
      ensures (s in REDS) != (s in BLACKS)
    {
      match s
      case Clubs => assert BLACKS[0] == s;
      case Diamonds => assert REDS[0] == s;
      case Hearts => assert REDS[1] == s;
      case Spades => assert BLACKS[1] == s;
    }
    assert COLORS == [BLACKS[0], REDS[0], REDS[1], BLACKS[1]];
    calc {
      multiset(COLORS);
      multiset([BLACKS[0]]) + multiset([REDS[0], REDS[1]]) + multiset([BLACKS[1]]);
      { assert REDS == [REDS[0], REDS[1]]; }
      multiset(REDS) + multiset([BLACKS[0]]) + multiset([BLACKS[1]]);
      { assert BLACKS == [BLACKS[0]] + [BLACKS[1]]; }
      multiset(REDS) + multiset(BLACKS);
    }
  }

  /** The enumeration and CardIndex are inverse to each other. */
  lemma EnumerationIndex()
    ensures forall k :: 0 <= k < 52 ==> CardIndex(Enumeration()[k]) == k
    ensures forall c: Card :: Enumeration()[CardIndex(c)] == c
  {
    forall k | 0 <= k < 52
      ensures CardIndex(Enumeration()[k]) == k
    {
      assert Enumeration()[k] == CardAt(k);
    }
    forall c: Card
      ensures Enumeration()[CardIndex(c)] == c
    {
      assert Enumeration()[CardIndex(c)] == CardAt(CardIndex(c));
    }
  }

  /** Two cards are the same card exactly when they have the same suit and rank. */
  lemma CardIndexInjective(c1: Card, c2: Card)
    ensures CardIndex(c1) == CardIndex(c2) <==> c1 == c2
  {
    EnumerationIndex();
  }

  /** A full deck holds every card exactly once. */
  lemma FullDeckCounts()
    ensures forall c: Card :: FullDeck()[c] == 1
    ensures |FullDeck()| == 52
  {
    var s := Enumeration();
    EnumerationIndex();
    forall c: Card
      ensures FullDeck()[c] == 1
    {
      CountOnce(s, c, CardIndex(c));
    }
  }

  /** An element that occurs at exactly one position has multiplicity one. */
  lemma {:induction false} CountOnce(s: seq<Card>, c: Card, k: nat)
    requires k < |s| && s[k] == c
    requires forall j :: 0 <= j < |s| && j != k ==> s[j] != c
    ensures multiset(s)[c] == 1
    decreases |s|
  {
    var last := |s| - 1;
    assert s == s[..last] + [s[last]];
    if k == last {
      assert c !in s[..last];
    } else {
      CountOnce(s[..last], c, k);
    }
  }

  predicate IsRed(s: Suit)
  {
    s in REDS
  }
}
