/** What every move keeps: the 52 cards are all somewhere, exactly once, the main deck holds
    exactly as many cards as the columns still have face down, every heap is a foundation and
    the location codes say where each card is. */
module Invariants {
  import opened Cards
  import opened Seqs
  import opened Columns
  import Heaps
  import opened Actions
  import opened Klondike
  import Legal
  import Play
  import opened Locations

  // ----- Counting the cards -----

  function HeapPiles(hs: seq<Heaps.Heap>): (r: seq<seq<Card>>)
    ensures |r| == |hs| && forall i :: 0 <= i < |hs| ==> r[i] == hs[i].cards
  {
    seq(|hs|, i requires 0 <= i < |hs| => hs[i].cards)
  }

  function ColumnPiles(cs: seq<Column>): (r: seq<seq<Card>>)
    ensures |r| == |cs| && forall i :: 0 <= i < |cs| ==> r[i] == cs[i].cards
  {
    seq(|cs|, i requires 0 <= i < |cs| => cs[i].cards)
  }

  /** The face-down cards of the columns. */
  function Hidden(cs: seq<Column>): int
    decreases |cs|
  {
    if |cs| == 0 then 0 else Hidden(cs[..|cs| - 1]) + cs[|cs| - 1].nbToDraw
  }

  /** The cards of a sub-deck, heaps, columns and main deck taken together. */
  function Census(sub: seq<Card>, hs: seq<Heaps.Heap>, cs: seq<Column>, main: multiset<Card>): multiset<Card>
  {
    multiset(sub) + BagOf(HeapPiles(hs)) + BagOf(ColumnPiles(cs)) + main
  }

  /** No column owes a negative number of face-down cards. */
  predicate NoDebt(cs: seq<Column>)
  {
    forall i :: 0 <= i < |cs| ==> cs[i].nbToDraw >= 0
  }

  /** Every card on the table or in the main deck. */
  function AllCards(e: Engine): multiset<Card>
  {
    Census(e.board.subDeck, e.board.heaps, e.board.columns, e.mainDeck)
  }

  /** Every heap is a foundation: Ace upwards in one suit. */
  predicate AllFoundations(hs: seq<Heaps.Heap>)
  {
    forall h :: 0 <= h < |hs| ==> Heaps.IsFoundation(hs[h].cards)
  }

  /** The game invariant: a full deck in play, no column owing a negative number of cards, one
      main-deck card for every face-down column card, foundations on the heaps, and location
      codes that agree with the board. */
  ghost predicate Inv(e: Engine)
  {
    BoardWF(e.board)
    && AllCards(e) == FullDeck()
    && NoDebt(e.board.columns)
    && |e.mainDeck| == Hidden(e.board.columns)
    && AllFoundations(e.board.heaps)
    && CodesMatch(e)
  }

  lemma HeapPilesSet(hs: seq<Heaps.Heap>, i: int, h: Heaps.Heap)
    requires 0 <= i < |hs|
    ensures HeapPiles(hs[i := h]) == HeapPiles(hs)[i := h.cards]
  {
  }

  lemma ColumnPilesSet(cs: seq<Column>, i: int, c: Column)
    requires 0 <= i < |cs|
    ensures ColumnPiles(cs[i := c]) == ColumnPiles(cs)[i := c.cards]
  {
  }

  /** A bag split four ways (sub-deck, heaps, columns, main deck) keeps its total when `x` moves
      from one part to another. */
  lemma Rebalance<T>(s0: multiset<T>, h0: multiset<T>, c0: multiset<T>, m0: multiset<T>,
                     s1: multiset<T>, h1: multiset<T>, c1: multiset<T>, m1: multiset<T>, x: multiset<T>)
    requires (s0 == s1 + x && h1 == h0 + x && c1 == c0 && m1 == m0)
          || (s0 == s1 + x && h1 == h0 && c1 == c0 + x && m1 == m0)
          || (s1 == s0 && h0 == h1 + x && c1 == c0 + x && m1 == m0)
          || (s1 == s0 && h1 == h0 + x && c0 == c1 + x && m1 == m0)
          || (s1 == s0 && h1 == h0 && c1 == c0 + x && m0 == m1 + x)
    ensures s1 + h1 + c1 + m1 == s0 + h0 + c0 + m0
  {
  }

  /** A column appended to the others adds its cards and its face-down count. */
  lemma ColumnSnoc(cs: seq<Column>, c: Column)
    ensures BagOf(ColumnPiles(cs + [c])) == BagOf(ColumnPiles(cs)) + multiset(c.cards)
    ensures Hidden(cs + [c]) == Hidden(cs) + c.nbToDraw
  {
    assert ColumnPiles(cs + [c])[..|cs|] == ColumnPiles(cs);
    assert (cs + [c])[..|cs|] == cs;
  }

  /** Empty heaps hold no card. */
  lemma {:induction false} EmptyHeapsHoldNothing(hs: seq<Heaps.Heap>)
    requires forall i :: 0 <= i < |hs| ==> hs[i] == Heaps.EMPTY_HEAP
    ensures BagOf(HeapPiles(hs)) == multiset{}
    decreases |hs|
  {
    if |hs| > 0 {
      var last := |hs| - 1;
      assert HeapPiles(hs)[..last] == HeapPiles(hs[..last]);
      EmptyHeapsHoldNothing(hs[..last]);
    }
  }

  /** Replacing one column changes the face-down count by that column's difference. */
  lemma {:induction false} HiddenSet(cs: seq<Column>, i: int, c: Column)
    requires 0 <= i < |cs|
    ensures Hidden(cs[i := c]) == Hidden(cs) - cs[i].nbToDraw + c.nbToDraw
    decreases |cs|
  {
    var last := |cs| - 1;
    if i < last {
      assert cs[i := c][..last] == cs[..last][i := c];
      HiddenSet(cs[..last], i, c);
    } else {
      assert cs[i := c][..last] == cs[..last];
    }
  }

  /** Without debts, every column's face-down cards are part of the total. */
  lemma {:induction false} HiddenAtLeast(cs: seq<Column>, i: int)
    requires NoDebt(cs) && 0 <= i < |cs|
    ensures Hidden(cs) >= cs[i].nbToDraw
    decreases |cs|
  {
    var last := |cs| - 1;
    NoDebtPrefix(cs);
    if i < last {
      HiddenAtLeast(cs[..last], i);
      assert cs[..last][i] == cs[i];
    } else {
      HiddenNonNegative(cs[..last]);
    }
  }

  /** Replacing a column by one without debt keeps the columns free of debt. */
  lemma NoDebtSet(cs: seq<Column>, i: int, c: Column)
    requires NoDebt(cs) && 0 <= i < |cs| && c.nbToDraw >= 0
    ensures NoDebt(cs[i := c])
  {
  }

  lemma NoDebtPrefix(cs: seq<Column>)
    requires NoDebt(cs) && |cs| > 0
    ensures NoDebt(cs[..|cs| - 1])
  {
    var prefix := cs[..|cs| - 1];
    forall j | 0 <= j < |prefix| ensures prefix[j].nbToDraw >= 0 {
      assert prefix[j] == cs[j];
    }
  }

  lemma {:induction false} HiddenNonNegative(cs: seq<Column>)
    requires NoDebt(cs)
    ensures Hidden(cs) >= 0
    decreases |cs|
  {
    if |cs| > 0 {
      NoDebtPrefix(cs);
      HiddenNonNegative(cs[..|cs| - 1]);
    }
  }

  // ----- Each card movement keeps the census -----

  lemma DeckToHeapCensus(sub: seq<Card>, k: nat, hs: seq<Heaps.Heap>, heap: int, cs: seq<Column>, m: multiset<Card>)
    requires k < |sub| && 0 <= heap < |hs|
    ensures Census(RemoveAt(sub, k), hs[heap := Heaps.AddCard(hs[heap], sub[k])], cs, m) == Census(sub, hs, cs, m)
  {
    var h := Heaps.AddCard(hs[heap], sub[k]);
    HeapPilesSet(hs, heap, h);
    PileGrow(HeapPiles(hs), heap, h.cards, [sub[k]]);
    Rebalance(multiset(sub), BagOf(HeapPiles(hs)), BagOf(ColumnPiles(cs)), m,
      multiset(RemoveAt(sub, k)), BagOf(HeapPiles(hs[heap := h])), BagOf(ColumnPiles(cs)), m, multiset{sub[k]});
  }

  lemma DeckToColumnCensus(sub: seq<Card>, k: nat, hs: seq<Heaps.Heap>, cs: seq<Column>, col: int, m: multiset<Card>)
    requires k < |sub| && 0 <= col < |cs|
    ensures Census(RemoveAt(sub, k), hs, cs[col := AddCards(cs[col], [sub[k]])], m) == Census(sub, hs, cs, m)
    ensures Hidden(cs[col := AddCards(cs[col], [sub[k]])]) == Hidden(cs)
    ensures NoDebt(cs) ==> NoDebt(cs[col := AddCards(cs[col], [sub[k]])])
  {
    var c := AddCards(cs[col], [sub[k]]);
    ColumnPilesSet(cs, col, c);
    PileGrow(ColumnPiles(cs), col, c.cards, [sub[k]]);
    HiddenSet(cs, col, c);
    Rebalance(multiset(sub), BagOf(HeapPiles(hs)), BagOf(ColumnPiles(cs)), m,
      multiset(RemoveAt(sub, k)), BagOf(HeapPiles(hs)), BagOf(ColumnPiles(cs[col := c])), m, multiset{sub[k]});
  }

  /** A column that needs a reveal takes `revealed` out of the main deck. */
  lemma RevealCensus(sub: seq<Card>, hs: seq<Heaps.Heap>, cs: seq<Column>, col: int, m: multiset<Card>, revealed: Card)
    requires 0 <= col < |cs| && revealed in m
    ensures Census(sub, hs, cs[col := RevealCard(cs[col], revealed)], m - multiset{revealed}) == Census(sub, hs, cs, m)
    ensures Hidden(cs[col := RevealCard(cs[col], revealed)]) == Hidden(cs) - 1
    ensures NoDebt(cs) && NeedReveal(cs[col]) ==> NoDebt(cs[col := RevealCard(cs[col], revealed)])
  {
    var c := RevealCard(cs[col], revealed);
    ColumnPilesSet(cs, col, c);
    PileGrow(ColumnPiles(cs), col, c.cards, [revealed]);
    HiddenSet(cs, col, c);
    assert m == (m - multiset{revealed}) + multiset{revealed};
    Rebalance(multiset(sub), BagOf(HeapPiles(hs)), BagOf(ColumnPiles(cs)), m,
      multiset(sub), BagOf(HeapPiles(hs)), BagOf(ColumnPiles(cs[col := c])), m - multiset{revealed}, multiset{revealed});
  }

  lemma ColumnToHeapCensus(sub: seq<Card>, hs: seq<Heaps.Heap>, heap: int, cs: seq<Column>, col: int, m: multiset<Card>)
    requires 0 <= heap < |hs| && 0 <= col < |cs| && |cs[col].cards| > 0
    ensures var source := cs[col];
      var left := source.(cards := source.cards[..|source.cards| - 1]);
      Census(sub, hs[heap := Heaps.AddCard(hs[heap], source.cards[|source.cards| - 1])], cs[col := left], m) == Census(sub, hs, cs, m)
      && Hidden(cs[col := left]) == Hidden(cs)
      && (NoDebt(cs) ==> NoDebt(cs[col := left]))
  {
    var source := cs[col];
    var card := source.cards[|source.cards| - 1];
    var left := source.(cards := source.cards[..|source.cards| - 1]);
    var h := Heaps.AddCard(hs[heap], card);
    assert source.cards == left.cards + [card];
    HeapPilesSet(hs, heap, h);
    PileGrow(HeapPiles(hs), heap, h.cards, [card]);
    ColumnPilesSet(cs, col, left);
    PileShrink(ColumnPiles(cs), col, left.cards, [card]);
    HiddenSet(cs, col, left);
    Rebalance(multiset(sub), BagOf(HeapPiles(hs)), BagOf(ColumnPiles(cs)), m,
      multiset(sub), BagOf(HeapPiles(hs[heap := h])), BagOf(ColumnPiles(cs[col := left])), m, multiset{card});
  }

  lemma HeapToColumnCensus(sub: seq<Card>, hs: seq<Heaps.Heap>, heap: int, cs: seq<Column>, col: int, m: multiset<Card>)
    requires 0 <= heap < |hs| && 0 <= col < |cs| && Heaps.CanRemove(hs[heap])
    ensures var card := hs[heap].cards[|hs[heap].cards| - 1];
      Census(sub, hs[heap := Heaps.RemoveCard(hs[heap]).0], cs[col := AddCards(cs[col], [card])], m) == Census(sub, hs, cs, m)
      && Hidden(cs[col := AddCards(cs[col], [card])]) == Hidden(cs)
      && (NoDebt(cs) ==> NoDebt(cs[col := AddCards(cs[col], [card])]))
  {
    var popped := Heaps.RemoveCard(hs[heap]);
    var c := AddCards(cs[col], [popped.1]);
    HeapPilesSet(hs, heap, popped.0);
    PileShrink(HeapPiles(hs), heap, popped.0.cards, [popped.1]);
    ColumnPilesSet(cs, col, c);
    PileGrow(ColumnPiles(cs), col, c.cards, [popped.1]);
    HiddenSet(cs, col, c);
    Rebalance(multiset(sub), BagOf(HeapPiles(hs)), BagOf(ColumnPiles(cs)), m,
      multiset(sub), BagOf(HeapPiles(hs[heap := popped.0])), BagOf(ColumnPiles(cs[col := c])), m, multiset{popped.1});
  }

  /** Moving a run between columns, the same column included. */
  lemma ColumnToColumnCensus(sub: seq<Card>, hs: seq<Heaps.Heap>, cs: seq<Column>, col1: int, col2: int, nbCards: nat, m: multiset<Card>)
    requires 0 <= col1 < |cs| && 0 <= col2 < |cs| && nbCards <= |cs[col1].cards|
    ensures var source := cs[col1];
      var run := source.cards[|source.cards| - nbCards..];
      var cols := cs[col1 := source.(cards := source.cards[..|source.cards| - nbCards])];
      var after := cols[col2 := AddCards(cols[col2], run)];
      Census(sub, hs, after, m) == Census(sub, hs, cs, m) && Hidden(after) == Hidden(cs)
      && (NoDebt(cs) ==> NoDebt(after))
  {
    var source := cs[col1];
    var run := source.cards[|source.cards| - nbCards..];
    var rest := source.(cards := source.cards[..|source.cards| - nbCards]);
    var cols := cs[col1 := rest];
    var c2 := AddCards(cols[col2], run);
    var after := cols[col2 := c2];
    assert source.cards == rest.cards + run;
    assert c2.cards == cols[col2].cards + run;
    ColumnPilesSet(cs, col1, rest);
    PileShrink(ColumnPiles(cs), col1, rest.cards, run);
    ColumnPilesSet(cols, col2, c2);
    PileGrow(ColumnPiles(cols), col2, c2.cards, run);
    assert BagOf(ColumnPiles(after)) == BagOf(ColumnPiles(cs));
    HiddenSet(cs, col1, rest);
    HiddenSet(cols, col2, c2);
    if NoDebt(cs) {
      NoDebtSet(cs, col1, rest);
      NoDebtSet(cols, col2, c2);
    }
  }

  // ----- Each move keeps the card count -----

  lemma DeckToHeapConserves(e: Engine, heap: int, nbDraw: nat)
    requires BoardWF(e.board) && 0 <= heap < NB_HEAPS
    ensures AllCards(Klondike.DeckToHeap(e, heap, nbDraw)) == AllCards(e)
    ensures Klondike.DeckToHeap(e, heap, nbDraw).board.columns == e.board.columns
  {
    if CanDeckToHeap(e.board, heap, nbDraw) {
      var g := Draws(e.board, nbDraw);
      DeckToHeapCensus(g.subDeck, TopIndex(g), e.board.heaps, heap, e.board.columns, e.mainDeck);
    }
  }

  lemma DeckToColumnConserves(e: Engine, col: int, nbDraw: nat)
    requires BoardWF(e.board) && 0 <= col < NB_COLUMNS
    ensures AllCards(Klondike.DeckToColumn(e, col, nbDraw)) == AllCards(e)
    ensures Hidden(Klondike.DeckToColumn(e, col, nbDraw).board.columns) == Hidden(e.board.columns)
    ensures NoDebt(e.board.columns) ==> NoDebt(Klondike.DeckToColumn(e, col, nbDraw).board.columns)
  {
    if CanDeckToColumn(e.board, col, nbDraw) {
      var g := Draws(e.board, nbDraw);
      DeckToColumnCensus(g.subDeck, TopIndex(g), e.board.heaps, e.board.columns, col, e.mainDeck);
    }
  }

  lemma ColumnToHeapConserves(e: Engine, col: int, heap: int, revealed: Card)
    requires BoardWF(e.board) && 0 <= col < NB_COLUMNS && 0 <= heap < NB_HEAPS
    requires Reveals(e.board, Actions.ColumnToHeap(col, heap)) ==> revealed in e.mainDeck
    ensures AllCards(Klondike.ColumnToHeap(e, col, heap, revealed)) == AllCards(e)
    ensures Hidden(Klondike.ColumnToHeap(e, col, heap, revealed).board.columns)
      == Hidden(e.board.columns) - (if Reveals(e.board, Actions.ColumnToHeap(col, heap)) then 1 else 0)
    ensures NoDebt(e.board.columns) ==> NoDebt(Klondike.ColumnToHeap(e, col, heap, revealed).board.columns)
  {
    if CanColumnToHeap(e.board, col, heap) {
      var b := e.board;
      var r := Klondike.ColumnToHeap(e, col, heap, revealed);
      var source := b.columns[col];
      var card := source.cards[|source.cards| - 1];
      var left := source.(cards := source.cards[..|source.cards| - 1]);
      var hs := b.heaps[heap := Heaps.AddCard(b.heaps[heap], card)];
      var after := b.columns[col := left];
      ColumnToHeapCensus(b.subDeck, b.heaps, heap, b.columns, col, e.mainDeck);
      assert Reveals(b, Actions.ColumnToHeap(col, heap)) == NeedReveal(left) by {
        assert TakeTop(source, 1).0 == left;
      }
      assert r.board.subDeck == b.subDeck && r.board.heaps == hs;
      if NeedReveal(left) {
        RevealCensus(b.subDeck, hs, after, col, e.mainDeck, revealed);
        assert r.board.columns == after[col := RevealCard(after[col], revealed)];
        assert r.mainDeck == e.mainDeck - multiset{revealed};
      } else {
        assert r.board.columns == after && r.mainDeck == e.mainDeck;
      }
    }
  }

  lemma HeapToColumnConserves(e: Engine, heap: int, col: int)
    requires BoardWF(e.board) && 0 <= col < NB_COLUMNS && 0 <= heap < NB_HEAPS
    requires Heaps.CanRemove(e.board.heaps[heap])
    ensures AllCards(Klondike.HeapToColumn(e, heap, col)) == AllCards(e)
    ensures Hidden(Klondike.HeapToColumn(e, heap, col).board.columns) == Hidden(e.board.columns)
    ensures NoDebt(e.board.columns) ==> NoDebt(Klondike.HeapToColumn(e, heap, col).board.columns)
  {
    HeapToColumnCensus(e.board.subDeck, e.board.heaps, heap, e.board.columns, col, e.mainDeck);
  }

  lemma ColumnToColumnConserves(e: Engine, col1: int, col2: int, nbCards: nat, revealed: Card)
    requires BoardWF(e.board) && 0 <= col1 < NB_COLUMNS && 0 <= col2 < NB_COLUMNS
    requires nbCards <= |e.board.columns[col1].cards|
    requires Reveals(e.board, Actions.ColumnToColumn(col1, col2, nbCards)) ==> revealed in e.mainDeck
    ensures AllCards(Klondike.ColumnToColumn(e, col1, col2, nbCards, revealed)) == AllCards(e)
    ensures Hidden(Klondike.ColumnToColumn(e, col1, col2, nbCards, revealed).board.columns)
      == Hidden(e.board.columns) - (if Reveals(e.board, Actions.ColumnToColumn(col1, col2, nbCards)) then 1 else 0)
    ensures NoDebt(e.board.columns) ==> NoDebt(Klondike.ColumnToColumn(e, col1, col2, nbCards, revealed).board.columns)
  {
    var b := e.board;
    var r := Klondike.ColumnToColumn(e, col1, col2, nbCards, revealed);
    var source := b.columns[col1];
    var run := source.cards[|source.cards| - nbCards..];
    var cols := b.columns[col1 := source.(cards := source.cards[..|source.cards| - nbCards])];
    var after := cols[col2 := AddCards(cols[col2], run)];
    ColumnToColumnCensus(b.subDeck, b.heaps, b.columns, col1, col2, nbCards, e.mainDeck);
    assert Reveals(b, Actions.ColumnToColumn(col1, col2, nbCards)) == NeedReveal(after[col1]) by {
      assert TakeTop(source, nbCards) == (cols[col1], run);
    }
    assert r.board.subDeck == b.subDeck && r.board.heaps == b.heaps;
    if NeedReveal(after[col1]) {
      RevealCensus(b.subDeck, b.heaps, after, col1, e.mainDeck, revealed);
      assert r.board.columns == after[col1 := RevealCard(after[col1], revealed)];
      assert r.mainDeck == e.mainDeck - multiset{revealed};
    } else {
      assert r.board.columns == after && r.mainDeck == e.mainDeck;
    }
  }

  /** Playing any in-bounds action keeps every card in play, and a reveal moves one card from
      the main deck to the face-down count's column. */
  lemma ApplyConserves(e: Engine, a: Action, revealed: Card)
    requires BoardWF(e.board) && ActionInBounds(e.board, a)
    requires Reveals(e.board, a) ==> revealed in e.mainDeck
    ensures AllCards(Apply(e, a, revealed)) == AllCards(e)
    ensures Hidden(Apply(e, a, revealed).board.columns) == Hidden(e.board.columns) - (if Reveals(e.board, a) then 1 else 0)
    ensures NoDebt(e.board.columns) ==> NoDebt(Apply(e, a, revealed).board.columns)
  {
    match a
    case Draw =>
    case DeckToHeap(heap, nbDraw) => DeckToHeapConserves(e, heap, nbDraw);
    case DeckToColumn(col, nbDraw) => DeckToColumnConserves(e, col, nbDraw);
    case ColumnToHeap(col, heap) => ColumnToHeapConserves(e, col, heap, revealed);
    case HeapToColumn(heap, col) => HeapToColumnConserves(e, heap, col);
    case ColumnToColumn(col1, col2, nbCards) => ColumnToColumnConserves(e, col1, col2, nbCards, revealed);
  }

  /** A reveal only happens on a column with face-down cards, so under the invariant the main
      deck the source pops from is never empty. */
  lemma RevealNeedsDeck(e: Engine, a: Action)
    requires Inv(e) && ActionInBounds(e.board, a) && Reveals(e.board, a)
    ensures |e.mainDeck| > 0
  {
    var b := e.board;
    match a
    case ColumnToHeap(col, heap) =>
      HiddenAtLeast(b.columns, col);
    case ColumnToColumn(col1, col2, nbCards) =>
      var split := TakeTop(b.columns[col1], nbCards);
      var cols := b.columns[col1 := split.0];
      assert cols[col2 := AddCards(cols[col2], split.1)][col1].nbToDraw == b.columns[col1].nbToDraw;
      HiddenAtLeast(b.columns, col1);
  }

  /** A full deck counts every card once, so no card is in two places. */
  lemma CensusDistinct(e: Engine)
    requires BoardWF(e.board) && AllCards(e) == FullDeck()
    ensures Distinct(e)
  {
    var hs, cs := e.board.heaps, e.board.columns;
    var hp, cp := HeapPiles(hs), ColumnPiles(cs);
    PartsOfDeck(multiset(e.board.subDeck), BagOf(hp), BagOf(cp), e.mainDeck);
    assert forall i :: 0 <= i < |cs| ==> NoDup(cs[i].cards) by {
      PilesWithinSet(cp, BagOf(cp));
    }
    assert (forall h :: 0 <= h < |hs| ==> NoDup(hs[h].cards))
      && (forall h1, h2, x :: (0 <= h1 < |hs| && 0 <= h2 < |hs| && h1 != h2 && x in hs[h1].cards) ==> x !in hs[h2].cards) by {
      PilesWithinSet(hp, BagOf(hp));
    }
  }

  /** The parts of a full deck hold no card twice. */
  lemma PartsOfDeck(a: multiset<Card>, b: multiset<Card>, c: multiset<Card>, d: multiset<Card>)
    requires a + b + c + d == FullDeck()
    ensures forall x :: b[x] <= 1 && c[x] <= 1 && d[x] <= 1
  {
    FullDeckCounts();
    forall x
      ensures b[x] <= 1 && c[x] <= 1 && d[x] <= 1
    {
      assert (a + b + c + d)[x] == a[x] + b[x] + c[x] + d[x];
    }
  }

  /** `deck_to_heap` adds only a card the heap accepts. */
  lemma DeckToHeapFoundations(e: Engine, heap: int, nbDraw: nat)
    requires BoardWF(e.board) && 0 <= heap < NB_HEAPS && AllFoundations(e.board.heaps)
    ensures AllFoundations(Klondike.DeckToHeap(e, heap, nbDraw).board.heaps)
  {
    if CanDeckToHeap(e.board, heap, nbDraw) {
      var g := Draws(e.board, nbDraw);
      Heaps.CanAddIffExtends(e.board.heaps[heap], g.subDeck[TopIndex(g)]);
    }
  }

  /** `column_to_heap` adds only a card the heap accepts. */
  lemma ColumnToHeapFoundations(e: Engine, col: int, heap: int, revealed: Card)
    requires BoardWF(e.board) && 0 <= col < NB_COLUMNS && 0 <= heap < NB_HEAPS && AllFoundations(e.board.heaps)
    ensures AllFoundations(Klondike.ColumnToHeap(e, col, heap, revealed).board.heaps)
  {
    if CanColumnToHeap(e.board, col, heap) {
      var cards := e.board.columns[col].cards;
      Heaps.CanAddIffExtends(e.board.heaps[heap], cards[|cards| - 1]);
    }
  }

  /** `heap_to_column` takes the top off a heap. */
  lemma HeapToColumnFoundations(e: Engine, heap: int, col: int)
    requires BoardWF(e.board) && 0 <= col < NB_COLUMNS && 0 <= heap < NB_HEAPS
    requires Heaps.CanRemove(e.board.heaps[heap]) && AllFoundations(e.board.heaps)
    ensures AllFoundations(Klondike.HeapToColumn(e, heap, col).board.heaps)
  {
    Heaps.RemoveKeepsFoundation(e.board.heaps[heap]);
  }

  /** Moves add to a heap only what it accepts and take only its top, so the heaps stay
      foundations. */
  lemma ApplyKeepsFoundations(e: Engine, a: Action, revealed: Card)
    requires BoardWF(e.board) && ActionInBounds(e.board, a) && AllFoundations(e.board.heaps)
    ensures AllFoundations(Apply(e, a, revealed).board.heaps)
  {
    match a
    case Draw =>
    case DeckToHeap(heap, nbDraw) => DeckToHeapFoundations(e, heap, nbDraw);
    case DeckToColumn(col, nbDraw) =>
      assert Klondike.DeckToColumn(e, col, nbDraw).board.heaps == e.board.heaps;
    case ColumnToHeap(col, heap) => ColumnToHeapFoundations(e, col, heap, revealed);
    case HeapToColumn(heap, col) => HeapToColumnFoundations(e, heap, col);
    case ColumnToColumn(_, _, _) =>
  }

  /** The invariant carries over to a position with the same cards, one fewer hidden card and
      one fewer main-deck card exactly when a reveal happened, foundations on the heaps and
      codes in step with the board. */
  lemma InvCarries(e: Engine, r: Engine, flipped: bool, revealed: Card)
    requires Inv(e) && BoardWF(r.board) && AllCards(r) == AllCards(e) && NoDebt(r.board.columns)
    requires AllFoundations(r.board.heaps) && CodesMatch(r)
    requires flipped ==> revealed in e.mainDeck
    requires r.mainDeck == (if flipped then e.mainDeck - multiset{revealed} else e.mainDeck)
    requires Hidden(r.board.columns) == Hidden(e.board.columns) - (if flipped then 1 else 0)
    ensures Inv(r)
  {
    if flipped {
      assert e.mainDeck == (e.mainDeck - multiset{revealed}) + multiset{revealed};
    }
  }

  /** Every in-bounds move keeps the invariant, as long as a reveal takes its card from the main
      deck, which the source guarantees by popping from it. */
  lemma ApplyKeepsInv(e: Engine, a: Action, revealed: Card)
    requires Inv(e) && ActionInBounds(e.board, a)
    requires Reveals(e.board, a) ==> revealed in e.mainDeck
    ensures Inv(Apply(e, a, revealed))
  {
    ApplyConserves(e, a, revealed);
    CensusDistinct(e);
    ApplyMatch(e, a, revealed);
    ApplyKeepsFoundations(e, a, revealed);
    InvCarries(e, Apply(e, a, revealed), Reveals(e.board, a), revealed);
  }

  /** `play` keeps the invariant: the position it reaches is the move's position. */
  lemma PlayKeepsInv(e: Engine, k: int, revealed: Card, pick: Legal.Picker)
    requires Inv(e) && Play.Play(e, k, revealed, pick).Ok?
    requires Reveals(e.board, e.table.entries[k]) ==> revealed in e.mainDeck
    ensures Inv(Play.Play(e, k, revealed, pick).value)
  {
    ApplyKeepsInv(e, e.table.entries[k], revealed);
  }

  // ----- What the invariant gives -----

  /** Under the invariant the codes follow from where the cards lie: two positions with the same
      board and main deck have the same codes. */
  lemma CodesFollowBoard(e1: Engine, e2: Engine)
    requires Inv(e1) && Inv(e2) && e1.board == e2.board && e1.mainDeck == e2.mainDeck
    ensures e1.codes == e2.codes
  {
    var b := e1.board;
    FullDeckCounts();
    forall c: Card | c in e1.codes
      ensures c in e2.codes && e1.codes[c] == e2.codes[c]
    {
      assert AllCards(e1)[c] == 1 && e1.mainDeck[c] == 0;
      if c in multiset(b.subDeck) {
        var k :| 0 <= k < |b.subDeck| && b.subDeck[k] == c;
      } else if c in BagOf(HeapPiles(b.heaps)) {
        BagOfMember(HeapPiles(b.heaps), c);
      } else {
        BagOfMember(ColumnPiles(b.columns), c);
      }
    }
    assert e1.codes.Keys == e2.codes.Keys;
  }

  /** Under the invariant the heaps are foundations, so the intended `is_won` holds exactly when
      all four heaps hold thirteen cards. */
  lemma InvWonIffFullHeaps(e: Engine)
    requires Inv(e)
    ensures Play.IsWon(e) <==> forall i :: 0 <= i < NB_HEAPS ==> |e.board.heaps[i].cards| == 13
  {
    Play.WonIffFullHeaps(e);
  }

  /** Two code maps that disagree on a card give different fingerprints. */
  lemma FingerprintSeparates(c1: map<Card, int>, c2: map<Card, int>, card: Card)
    requires CodeOrUndrawn(c1, card) != CodeOrUndrawn(c2, card)
    ensures Fingerprint(c1) != Fingerprint(c2)
  {
    assert Fingerprint(c1)[CardIndex(card)] != Fingerprint(c2)[CardIndex(card)];
  }

  /** With codes in step with the board, a heap-to-column move reaches a new fingerprint: the
      moved card's code changes from 7 to the column. */
  lemma HeapToColumnRecodes(e: Engine, heap: int, col: int)
    requires BoardWF(e.board) && CodesMatch(e) && 0 <= heap < NB_HEAPS && 0 <= col < NB_COLUMNS
    requires Heaps.CanRemove(e.board.heaps[heap])
    ensures Fingerprint(Klondike.HeapToColumn(e, heap, col).codes) != Fingerprint(e.codes)
  {
    var pile := e.board.heaps[heap].cards;
    var card := pile[|pile| - 1];
    assert card in pile;
    FingerprintSeparates(e.codes, Klondike.HeapToColumn(e, heap, col).codes, card);
  }

  /** A value off a stack is off that stack grown by one other value. */
  lemma NotInGrown<T>(stack0: seq<T>, stack: seq<T>, top: T, x: T)
    requires x !in stack0 && x != top
    requires stack == stack0 || stack == stack0 + [top]
    ensures x !in stack
  {
  }

  /** With codes in step with the board (which the invariant includes), the fingerprint a
      heap-to-column entry pushes is new to the whole stack, whether or not the current
      position was pushed after the table was built: the moved card's code changes from 7 to
      the column. */
  lemma HeapColNeverRepeats(e: Engine, k: int, revealed: Card, pick0: Legal.Picker, stack0: seq<seq<int>>, pick: Legal.Picker)
    requires CodesMatch(e) && Play.TableBuilt(e, pick0, stack0)
    requires k in e.table.entries && e.table.entries[k].HeapToColumn?
    requires e.stack == stack0 || e.stack == stack0 + [Fingerprint(e.codes)]
    ensures Play.Play(e, k, revealed, pick).Ok?
    ensures |Play.Play(e, k, revealed, pick).value.stack| == |e.stack| + 1
    ensures Play.Play(e, k, revealed, pick).value.stack[|e.stack|] !in e.stack
  {
    Play.HeapColNoRepeat(e, k, revealed, pick0, stack0, pick);
    var a := e.table.entries[k];
    HeapToColumnRecodes(e, a.heap, a.col);
    NotInGrown(stack0, e.stack, Fingerprint(e.codes), Play.Play(e, k, revealed, pick).value.stack[|e.stack|]);
  }

  /** With codes in step with the board, a column-to-column move of at least one card between
      two different columns reaches a new fingerprint: the bottom card of the run changes its
      code from the source column to the other one. */
  lemma ColumnToColumnRecodes(e: Engine, col1: int, col2: int, nbCards: nat, revealed: Card)
    requires BoardWF(e.board) && CodesMatch(e) && 0 <= col1 < NB_COLUMNS && 0 <= col2 < NB_COLUMNS && col1 != col2
    requires 1 <= nbCards <= |e.board.columns[col1].cards|
    requires Reveals(e.board, Actions.ColumnToColumn(col1, col2, nbCards)) ==> revealed in e.mainDeck
    ensures Fingerprint(Klondike.ColumnToColumn(e, col1, col2, nbCards, revealed).codes) != Fingerprint(e.codes)
  {
    var source := e.board.columns[col1].cards;
    var run := source[|source| - nbCards..];
    var x := source[|source| - nbCards];
    assert x in run && x in source;
    assert x in e.codes && e.codes[x] == col1 by {
      assert PileCoded(e.codes, e.board.columns[col1].cards, col1);
    }
    var r := Klondike.ColumnToColumn(e, col1, col2, nbCards, revealed);
    var codes := SetCodes(e.codes, run, col2);
    ColumnToColumnCodes(e, col1, col2, nbCards, revealed);
    assert codes[x] == col2;
    assert revealed in e.mainDeck ==> revealed != x;
    FingerprintSeparates(e.codes, r.codes, x);
  }

  /** The codes after a column-to-column move: the run takes the target column's code, and a
      revealed card the source column's. */
  lemma ColumnToColumnCodes(e: Engine, col1: int, col2: int, nbCards: nat, revealed: Card)
    requires BoardWF(e.board) && 0 <= col1 < NB_COLUMNS && 0 <= col2 < NB_COLUMNS
    requires nbCards <= |e.board.columns[col1].cards|
    ensures var source := e.board.columns[col1].cards;
      var codes := SetCodes(e.codes, source[|source| - nbCards..], col2);
      Klondike.ColumnToColumn(e, col1, col2, nbCards, revealed).codes
        == if Reveals(e.board, Actions.ColumnToColumn(col1, col2, nbCards)) then codes[revealed := col1] else codes
  {
    var source := e.board.columns[col1];
    assert TakeTop(source, nbCards).0 == source.(cards := source.cards[..|source.cards| - nbCards]);
    assert TakeTop(source, nbCards).1 == source.cards[|source.cards| - nbCards..];
  }

  /** A column-to-column entry of a built table moves at least one card between two different
      columns, so with codes in step with the board it leads to a new fingerprint. */
  lemma ColColEntryRecodes(e: Engine, k: int, revealed: Card, pick0: Legal.Picker, stack0: seq<seq<int>>)
    requires CodesMatch(e) && Play.TableBuilt(e, pick0, stack0)
    requires k in e.table.entries && e.table.entries[k].ColumnToColumn?
    requires ActionInBounds(e.board, e.table.entries[k]) && Reveals(e.board, e.table.entries[k]) ==> revealed in e.mainDeck
    ensures ActionInBounds(e.board, e.table.entries[k])
    ensures Fingerprint(Apply(e, e.table.entries[k], revealed).codes) != Fingerprint(e.codes)
  {
    var a := e.table.entries[k];
    assert 0 <= a.col1 < NB_COLUMNS && 0 <= a.col2 < NB_COLUMNS && a.col1 != a.col2
      && 1 <= a.nbCards <= |e.board.columns[a.col1].cards| by {
      var e0 := e.(stack := stack0);
      Play.EntryOfTable(e0, pick0, k);
      Legal.MaxRunSpec(e0, a.col1, a.col2, pick0);
    }
    ColumnToColumnRecodes(e, a.col1, a.col2, a.nbCards, revealed);
  }

  /** Every fingerprint of `stack` gives the undrawn code 8 to each card of `main`. */
  ghost predicate UndrawnOn(stack: seq<seq<int>>, main: multiset<Card>)
  {
    forall i, c :: 0 <= i < |stack| && c in main ==> |stack[i]| == 52 && stack[i][CardIndex(c)] == UNDRAWN_CODE
  }

  /** Every fingerprint on the stack gives the undrawn code to each card still in the main
      deck. It holds from the deal on, because the main deck only shrinks and a card in it has
      no code. */
  ghost predicate StackUndrawn(e: Engine)
  {
    UndrawnOn(e.stack, e.mainDeck)
  }

  /** Shrinking the main deck and pushing the fingerprint of codes that leave its cards uncoded
      keeps the stack undrawn on it. */
  lemma PushUndrawn(stack: seq<seq<int>>, main: multiset<Card>, main2: multiset<Card>, codes: map<Card, int>)
    requires UndrawnOn(stack, main) && main2 <= main
    requires forall c :: c in main2 ==> c !in codes
    ensures UndrawnOn(stack, main2) && UndrawnOn(stack + [Fingerprint(codes)], main2)
  {
    var s2 := stack + [Fingerprint(codes)];
    forall i, c | 0 <= i < |s2| && c in main2
      ensures |s2[i]| == 52 && s2[i][CardIndex(c)] == UNDRAWN_CODE
    {
      if i < |stack| {
        assert c in main && s2[i] == stack[i];
      }
    }
  }

  /** `play` keeps the stacked fingerprints undrawn on the main deck: the cards left in it were
      there before, and the pushed fingerprint gives them no code. */
  lemma PlayKeepsStackUndrawn(e: Engine, k: int, revealed: Card, pick: Legal.Picker)
    requires Inv(e) && StackUndrawn(e) && Play.Play(e, k, revealed, pick).Ok?
    requires Reveals(e.board, e.table.entries[k]) ==> revealed in e.mainDeck
    ensures StackUndrawn(Play.Play(e, k, revealed, pick).value)
  {
    var a := e.table.entries[k];
    var moved := Apply(e, a, revealed);
    assert CodesMatch(moved) by {
      CensusDistinct(e);
      ApplyMatch(e, a, revealed);
    }
    assert moved.mainDeck <= e.mainDeck;
    PushUndrawn(e.stack, e.mainDeck, moved.mainDeck, moved.codes);
  }

  /** A column-to-column move that reveals a card codes it with the source column, while every
      stacked fingerprint gives it the undrawn code: the pushed fingerprint is new. */
  lemma RevealedIsNew(e: Engine, col1: int, col2: int, nbCards: nat, revealed: Card)
    requires BoardWF(e.board) && 0 <= col1 < NB_COLUMNS && 0 <= col2 < NB_COLUMNS
    requires nbCards <= |e.board.columns[col1].cards|
    requires StackUndrawn(e) && Reveals(e.board, Actions.ColumnToColumn(col1, col2, nbCards))
    requires revealed in e.mainDeck
    ensures Fingerprint(Klondike.ColumnToColumn(e, col1, col2, nbCards, revealed).codes) !in e.stack
  {
    ColumnToColumnCodes(e, col1, col2, nbCards, revealed);
    var f := Fingerprint(Klondike.ColumnToColumn(e, col1, col2, nbCards, revealed).codes);
    assert f[CardIndex(revealed)] == col1;
    forall i | 0 <= i < |e.stack|
      ensures e.stack[i] != f
    {
      assert e.stack[i][CardIndex(revealed)] == UNDRAWN_CODE;
    }
  }

  /** The same for a column-to-column entry, whatever card a reveal brings: without a reveal the
      bottom card of the moved run changes its code, and a revealed card is coded for the first
      time. */
  lemma ColColNeverRepeats(e: Engine, k: int, revealed: Card, pick0: Legal.Picker, stack0: seq<seq<int>>, pick: Legal.Picker)
    requires CodesMatch(e) && StackUndrawn(e) && Play.TableBuilt(e, pick0, stack0)
    requires k in e.table.entries && e.table.entries[k].ColumnToColumn?
    requires e.stack == stack0 || e.stack == stack0 + [Fingerprint(e.codes)]
    requires ActionInBounds(e.board, e.table.entries[k]) && Reveals(e.board, e.table.entries[k]) ==> revealed in e.mainDeck
    ensures Play.Play(e, k, revealed, pick).Ok?
    ensures |Play.Play(e, k, revealed, pick).value.stack| == |e.stack| + 1
    ensures Play.Play(e, k, revealed, pick).value.stack[|e.stack|] !in e.stack
  {
    var a := e.table.entries[k];
    ColColEntryRecodes(e, k, revealed, pick0, stack0);
    if Reveals(e.board, a) {
      RevealedIsNew(e, a.col1, a.col2, a.nbCards, revealed);
    } else {
      Play.ColColNoRepeat(e, k, revealed, pick0, stack0, pick);
      NotInGrown(stack0, e.stack, Fingerprint(e.codes), Play.Play(e, k, revealed, pick).value.stack[|e.stack|]);
    }
  }
}
