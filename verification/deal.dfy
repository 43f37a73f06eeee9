/** The opening deal of the engine's constructor: 24 cards to the sub-deck, one face-up card on
    each of the seven columns, the other 21 left in the main deck to be revealed later. */
module Deal {
  import opened Cards
  import opened Seqs
  import opened Columns
  import Heaps
  import opened Actions
  import opened Klondike
  import Legal
  import Play
  import Invariants
  import Locations

  /** A shuffled deck is an ordering of the full deck. */
  predicate Shuffled(deck: seq<Card>)
  {
    multiset(deck) == FullDeck()
  }

  /** A shuffled deck holds 52 different cards. */
  lemma ShuffledDistinct(deck: seq<Card>)
    requires Shuffled(deck)
    ensures |deck| == 52 && NoDup(deck)
  {
    FullDeckCounts();
    NoDupIffCounts(deck);
  }

  /** Where the deal puts the card at position `k` of the shuffled deck (the deck pops from its
      end): positions 51 down to 28 fill the sub-deck, 27 down to 21 go one per column and 20
      down to 0 stay in the main deck. */
  function DealtTo(k: int): Location
    requires 0 <= k < 52
  {
    if k >= 28 then InDeck(51 - k) else if k >= 21 then InCol(27 - k) else Undrawn
  }

  /** The first `n` columns: column `i` turned up the card at position 27 - i. */
  function DealtColumns(deck: seq<Card>, n: nat): (r: seq<Column>)
    requires n <= 28 <= |deck|
    ensures |r| == n && forall i :: 0 <= i < n ==> r[i] == Column(i, [deck[27 - i]])
  {
    if n == 0 then [] else DealtColumns(deck, n - 1) + [RevealCard(NewColumn(n - 1), deck[28 - n])]
  }

  /** 0 + 1 + ... + (n - 1). */
  function Triangle(n: nat): nat
  {
    if n == 0 then 0 else Triangle(n - 1) + n - 1
  }

  /** The seven columns hold the seven cards popped after the sub-deck's 24. */
  lemma ColumnsCensus(deck: seq<Card>)
    requires |deck| == 52
    ensures BagOf(Invariants.ColumnPiles(DealtColumns(deck, NB_COLUMNS))) == multiset(Popped(deck[..28], NB_COLUMNS))
  {
    var piles := Invariants.ColumnPiles(DealtColumns(deck, NB_COLUMNS));
    forall i | 0 <= i < |piles| ensures piles[i] == [deck[..28][28 - 1 - i]] {
      assert deck[..28][28 - 1 - i] == deck[27 - i];
    }
    BagOfSingletons(piles, deck[..28]);
  }

  /** The dealt columns wait for 0 + 1 + ... + (n - 1) face-down cards. */
  lemma {:induction false} ColumnsHidden(deck: seq<Card>, n: nat)
    requires n <= 28 <= |deck|
    ensures Invariants.Hidden(DealtColumns(deck, n)) == Triangle(n)
  {
    if n > 0 {
      ColumnsHidden(deck, n - 1);
      Invariants.ColumnSnoc(DealtColumns(deck, n - 1), RevealCard(NewColumn(n - 1), deck[28 - n]));
    }
  }

  /** The opening board before any move. */
  function OpeningBoard(deck: seq<Card>): (b: Board)
    requires |deck| == 52
    ensures BoardWF(b)
  {
    Board(Popped(deck, NB_CARDS_SUBDECK), [], seq(NB_HEAPS, _ => Heaps.EMPTY_HEAP), DealtColumns(deck, NB_COLUMNS))
  }

  /** The opening position satisfies the game invariant: every card of the shuffled deck is in
      exactly one place, the 21 cards left in the main deck match the 0 + 1 + ... + 6
      face-down column cards, the heaps are empty and the dealt cards carry the codes of
      their places. */
  lemma OpeningInv(e: Engine, deck: seq<Card>)
    requires Shuffled(deck)
    requires |deck| == 52 && e.board == OpeningBoard(deck) && e.mainDeck == multiset(deck[..21])
    requires forall k :: 0 <= k < 52 ==> (deck[k] in e.codes <==> !DealtTo(k).Undrawn?)
    requires forall k :: 21 <= k < 52 ==> deck[k] in e.codes && e.codes[deck[k]] == CodeOf(DealtTo(k))
    ensures Invariants.Inv(e)
  {
    OpeningCensus(e, deck);
    OpeningHidden(deck);
    OpeningCodes(e, deck);
    assert |e.mainDeck| == 21;
  }

  /** The opening stack holds only the opening fingerprint, which codes no main-deck card. */
  lemma OpeningUndrawn(e: Engine)
    requires Locations.CodesMatch(e) && e.stack == [Fingerprint(e.codes)]
    ensures Invariants.StackUndrawn(e)
  {
    Invariants.PushUndrawn([], e.mainDeck, e.mainDeck, e.codes);
    assert [] + [Fingerprint(e.codes)] == e.stack;
  }

  /** The codes the deal writes say where each dealt card went, and the cards left in the main
      deck have none. */
  lemma OpeningCodes(e: Engine, deck: seq<Card>)
    requires Shuffled(deck)
    requires |deck| == 52 && e.board == OpeningBoard(deck) && e.mainDeck == multiset(deck[..21])
    requires forall k :: 0 <= k < 52 ==> (deck[k] in e.codes <==> !DealtTo(k).Undrawn?)
    requires forall k :: 21 <= k < 52 ==> deck[k] in e.codes && e.codes[deck[k]] == CodeOf(DealtTo(k))
    ensures Locations.CodesMatch(e)
  {
    var b := e.board;
    ShuffledDistinct(deck);
    FullDeckCounts();
    forall c: Card
      ensures c in e.codes <==> c !in e.mainDeck
    {
      assert c in multiset(deck);
      var k :| 0 <= k < 52 && deck[k] == c;
      if k < 21 {
        assert deck[..21][k] == c;
      } else {
        assert c !in deck[..21] by {
          forall j | 0 <= j < 21
            ensures deck[..21][j] != c
          {
          }
        }
      }
    }
    forall k | 0 <= k < |b.subDeck|
      ensures b.subDeck[k] in e.codes && e.codes[b.subDeck[k]] == DeckCode(k)
    {
      assert b.subDeck[k] == deck[51 - k] && DealtTo(51 - k) == InDeck(k);
    }
    forall i | 0 <= i < NB_COLUMNS
      ensures Locations.PileCoded(e.codes, b.columns[i].cards, i)
    {
      assert b.columns[i].cards == [deck[27 - i]] && DealtTo(27 - i) == InCol(i);
    }
    assert Locations.PilesCoded(e.codes, b.heaps, b.columns);
  }

  /** The opening position holds exactly the cards of the shuffled deck. */
  lemma OpeningCensus(e: Engine, deck: seq<Card>)
    requires |deck| == 52 && e.board == OpeningBoard(deck) && e.mainDeck == multiset(deck[..21])
    ensures Invariants.AllCards(e) == multiset(deck)
  {
    var b := e.board;
    var sub, heaps, cols := multiset(b.subDeck), BagOf(Invariants.HeapPiles(b.heaps)), BagOf(Invariants.ColumnPiles(b.columns));
    assert sub + cols + e.mainDeck == multiset(deck) by {
      SplitCensus(deck);
      ColumnsCensus(deck);
    }
    assert heaps == multiset{} by {
      Invariants.EmptyHeapsHoldNothing(b.heaps);
    }
    Assemble(sub, heaps, cols, e.mainDeck, multiset(deck));
    assert Invariants.AllCards(e) == sub + heaps + cols + e.mainDeck;
  }

  /** The deal's three pops (24, then 7, leaving 21) split the deck without loss. */
  lemma SplitCensus<T>(s: seq<T>)
    requires |s| == 52
    ensures multiset(Popped(s, NB_CARDS_SUBDECK)) + multiset(Popped(s[..28], NB_COLUMNS)) + multiset(s[..21]) == multiset(s)
  {
    var t := s[..28];
    PoppedCensus(s, NB_CARDS_SUBDECK);
    PoppedCensus(t, NB_COLUMNS);
    assert t[..21] == s[..21];
  }

  /** The opening columns wait for 21 face-down cards in all and none waits for a negative number. */
  lemma OpeningHidden(deck: seq<Card>)
    requires |deck| == 52
    ensures Invariants.Hidden(DealtColumns(deck, NB_COLUMNS)) == 21
    ensures Invariants.NoDebt(DealtColumns(deck, NB_COLUMNS))
  {
    ColumnsHidden(deck, NB_COLUMNS);
    assert Triangle(NB_COLUMNS) == 21;
  }

  /** Adding the empty heaps' share leaves the census unchanged. */
  lemma Assemble(sub: multiset<Card>, heaps: multiset<Card>, cols: multiset<Card>, main: multiset<Card>, all: multiset<Card>)
    requires sub + cols + main == all && heaps == multiset{}
    ensures sub + heaps + cols + main == all
  {
  }

  /** The constructor's first loop: 24 pops from the end of the deck build the sub-deck, each
      card coded with its sub-deck offset. */
  method DealSubDeck(deck: seq<Card>) returns (sub: seq<Card>, codes: map<Card, int>)
    requires |deck| == 52 && NoDup(deck)
    ensures sub == Popped(deck, NB_CARDS_SUBDECK)
    ensures forall k :: 0 <= k < 52 ==> (deck[k] in codes <==> k >= 28)
    ensures forall k :: 28 <= k < 52 ==> deck[k] in codes && codes[deck[k]] == CodeOf(DealtTo(k))
  {
    var rest := deck;
    sub := [];
    codes := map[];
    var i := 0;
    while i < NB_CARDS_SUBDECK
      invariant 0 <= i <= NB_CARDS_SUBDECK
      invariant rest == deck[..52 - i] && sub == Popped(deck, i)
      invariant forall k :: 0 <= k < 52 ==> (deck[k] in codes <==> k >= 52 - i)
      invariant forall k :: 52 - i <= k < 52 ==> codes[deck[k]] == CodeOf(DealtTo(k))
    {
      var card := rest[|rest| - 1];
      rest := rest[..|rest| - 1];
      codes := codes[card := DeckCode(i)];
      sub := sub + [card];
      i := i + 1;
    }
  }

  /** The constructor's second loop: column `i` is created waiting for `i + 1` cards and turns up
      the next popped card, which is coded with the column number. */
  method DealColumns(deck: seq<Card>, codes0: map<Card, int>) returns (columns: seq<Column>, codes: map<Card, int>)
    requires |deck| == 52 && NoDup(deck)
    requires forall k :: 0 <= k < 52 ==> (deck[k] in codes0 <==> k >= 28)
    requires forall k :: 28 <= k < 52 ==> deck[k] in codes0 && codes0[deck[k]] == CodeOf(DealtTo(k))
    ensures columns == DealtColumns(deck, NB_COLUMNS)
    ensures forall k :: 0 <= k < 52 ==> (deck[k] in codes <==> !DealtTo(k).Undrawn?)
    ensures forall k :: 21 <= k < 52 ==> deck[k] in codes && codes[deck[k]] == CodeOf(DealtTo(k))
  {
    var rest := deck[..28];
    columns := [];
    codes := codes0;
    var i := 0;
    while i < NB_COLUMNS
      invariant 0 <= i <= NB_COLUMNS
      invariant rest == deck[..28 - i] && columns == DealtColumns(deck, i)
      invariant forall k :: 0 <= k < 52 ==> (deck[k] in codes <==> k >= 28 - i)
      invariant forall k :: 28 - i <= k < 52 ==> codes[deck[k]] == CodeOf(DealtTo(k))
    {
      var card := rest[|rest| - 1];
      rest := rest[..|rest| - 1];
      codes := codes[card := i];
      columns := columns + [RevealCard(NewColumn(i), card)];
      i := i + 1;
    }
  }

  /** The constructor's deal. `deck` is the shuffled deck the constructor pops from and `pick`
      decides the random reveals the action table's cycle filter plays out. */
  method NewGame(deck: seq<Card>, pick: Legal.Picker) returns (e: Engine)
    requires Shuffled(deck)
    ensures e.board == OpeningBoard(deck) && e.mainDeck == multiset(deck[..21])
    ensures forall k :: 0 <= k < 52 ==> (deck[k] in e.codes <==> !DealtTo(k).Undrawn?)
    ensures forall k :: 21 <= k < 52 ==> deck[k] in e.codes && e.codes[deck[k]] == CodeOf(DealtTo(k))
    ensures e.reward == 0 && e.score == 0 && e.time == 0
    ensures e.stack == [Fingerprint(e.codes)]
    ensures Play.TableBuilt(e, pick, e.stack)
    ensures Invariants.Inv(e) && |e.mainDeck| == 21
    ensures Invariants.StackUndrawn(e)
  {
    ShuffledDistinct(deck);
    var sub, codes0 := DealSubDeck(deck);
    var columns, codes := DealColumns(deck, codes0);
    var board := Board(sub, [], seq(NB_HEAPS, _ => Heaps.EMPTY_HEAP), columns);
    var start := Engine(board, multiset(deck[..21]), codes, 0, 0, 0, [Fingerprint(codes)], EMPTY_TABLE);
    e := start.(table := Legal.LegalTable(start, pick));
    Play.LegalTableFrame(start, e, pick);
    OpeningInv(e, deck);
    OpeningUndrawn(e);
  }
}
