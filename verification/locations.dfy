/** The location codes read against the board: the code of every dealt card names the pile that
    holds it (column `i` is `i`, a heap is 7, sub-deck offset `k` is 9 + k), and exactly the
    cards still in the main deck have no code. */
module Locations {
  import opened Cards
  import opened Seqs
  import opened Columns
  import Heaps
  import opened Actions
  import opened Klondike

  /** Every card of `pile` carries the code `code`. */
  predicate PileCoded(codes: map<Card, int>, pile: seq<Card>, code: int)
  {
    forall x :: x in pile ==> x in codes && codes[x] == code
  }

  /** The sub-deck card at offset `k` carries the code 9 + k. */
  predicate SubCoded(codes: map<Card, int>, sub: seq<Card>)
  {
    forall k :: 0 <= k < |sub| ==> sub[k] in codes && codes[sub[k]] == DeckCode(k)
  }

  /** Heap cards carry the heap code and the cards of column `i` carry `i`. */
  predicate PilesCoded(codes: map<Card, int>, hs: seq<Heaps.Heap>, cs: seq<Column>)
  {
    (forall h :: 0 <= h < |hs| ==> PileCoded(codes, hs[h].cards, HEAP_CODE))
    && (forall i :: 0 <= i < |cs| ==> PileCoded(codes, cs[i].cards, i))
  }

  /** `cards_state` agrees with the board: a card has a code exactly when it is not in the main
      deck, and each card on the table carries the code of its pile. */
  ghost predicate CodesMatch(e: Engine)
  {
    (forall c: Card :: c in e.codes <==> c !in e.mainDeck)
    && SubCoded(e.codes, e.board.subDeck)
    && PilesCoded(e.codes, e.board.heaps, e.board.columns)
  }

  /** No card twice: once at most in the main deck, once at most per column or heap, and never
      in two heaps. */
  ghost predicate Distinct(e: Engine)
  {
    (forall c :: e.mainDeck[c] <= 1)
    && (forall i :: 0 <= i < |e.board.columns| ==> NoDup(e.board.columns[i].cards))
    && (forall h :: 0 <= h < |e.board.heaps| ==> NoDup(e.board.heaps[h].cards))
    && (forall h1, h2, x :: (0 <= h1 < |e.board.heaps| && 0 <= h2 < |e.board.heaps| && h1 != h2
          && x in e.board.heaps[h1].cards) ==> x !in e.board.heaps[h2].cards)
  }

  // ----- The sub-deck -----

  /** Distinct offsets give distinct codes, so a coded sub-deck holds no card twice. */
  lemma SubCodedNoDup(codes: map<Card, int>, sub: seq<Card>)
    requires SubCoded(codes, sub)
    ensures NoDup(sub)
  {
    forall i, j | 0 <= i < j < |sub|
      ensures sub[i] != sub[j]
    {
      assert codes[sub[i]] != codes[sub[j]];
    }
  }

  /** Taking the card at offset `t` out of a coded sub-deck and giving it the code `v` of a pile:
      the shortened sub-deck is coded again, the card carries `v`, the set of coded cards stays
      the same and every card coded below 9 keeps its code. */
  lemma TakeFromSub(codes: map<Card, int>, sub: seq<Card>, t: nat, v: int)
    requires SubCoded(codes, sub) && t < |sub| && v < 9
    ensures var m := Recode(codes[sub[t] := v], RemoveAt(sub, t), t);
      && SubCoded(m, RemoveAt(sub, t))
      && sub[t] in m && m[sub[t]] == v
      && (forall x :: x in m <==> x in codes)
      && (forall x :: x in codes && codes[x] < 9 ==> m[x] == codes[x])
  {
    var ns := RemoveAt(sub, t);
    var m := Recode(codes[sub[t] := v], ns, t);
    SubCodedNoDup(codes, sub);
    RemoveAtNoDup(sub, t);
    forall j | 0 <= j < t
      ensures ns[j] in m && m[ns[j]] == DeckCode(j)
    {
      NotInSuffix(ns, j, t);
    }
    assert sub[t] !in ns[t..] by {
      NotInSuffix(sub, t, t + 1);
      assert ns[t..] == sub[t + 1..];
    }
    forall x | x in codes && codes[x] < 9
      ensures m[x] == codes[x]
    {
      assert x !in ns[t..] by {
        assert x !in sub;
        assert ns[t..] == sub[t + 1..];
      }
    }
  }

  // ----- Piles under a change of codes -----

  /** Piles keep their codes under a map that keeps every code below 9. */
  lemma PilesKept(codes: map<Card, int>, m: map<Card, int>, hs: seq<Heaps.Heap>, cs: seq<Column>)
    requires PilesCoded(codes, hs, cs) && |cs| <= 9
    requires forall x :: x in codes && codes[x] < 9 ==> x in m && m[x] == codes[x]
    ensures PilesCoded(m, hs, cs)
  {
  }

  /** A card coded like a pile can go on top of it. */
  lemma PileSnoc(m: map<Card, int>, pile: seq<Card>, card: Card, code: int)
    requires PileCoded(m, pile, code) && card in m && m[card] == code
    ensures PileCoded(m, pile + [card], code)
  {
  }

  /** Replacing one heap by a heap coded 7. */
  lemma HeapSet(m: map<Card, int>, hs: seq<Heaps.Heap>, cs: seq<Column>, h: int, nh: Heaps.Heap)
    requires PilesCoded(m, hs, cs) && 0 <= h < |hs| && PileCoded(m, nh.cards, HEAP_CODE)
    ensures PilesCoded(m, hs[h := nh], cs)
  {
  }

  /** Replacing column `i` by a column coded `i`. */
  lemma ColumnSet(m: map<Card, int>, hs: seq<Heaps.Heap>, cs: seq<Column>, i: int, nc: Column)
    requires PilesCoded(m, hs, cs) && 0 <= i < |cs| && PileCoded(m, nc.cards, i)
    ensures PilesCoded(m, hs, cs[i := nc])
  {
  }

  /** The top card of a column leaves it for a heap and is coded 7. */
  lemma ColumnTopToHeap(codes: map<Card, int>, hs: seq<Heaps.Heap>, cs: seq<Column>, col: int, heap: int)
    requires PilesCoded(codes, hs, cs) && |cs| <= NB_COLUMNS && 0 <= col < |cs| && 0 <= heap < |hs|
    requires |cs[col].cards| > 0 && NoDup(cs[col].cards)
    ensures var n := |cs[col].cards|;
      var card := cs[col].cards[n - 1];
      PilesCoded(codes[card := HEAP_CODE], hs[heap := Heaps.AddCard(hs[heap], card)],
                 cs[col := cs[col].(cards := cs[col].cards[..n - 1])])
  {
    var pile := cs[col].cards;
    var n := |pile|;
    var card := pile[n - 1];
    var m := codes[card := HEAP_CODE];
    assert card in pile;
    assert forall x :: x in pile[..n - 1] ==> x in pile && x != card by {
      SplitDisjoint(pile, n - 1);
      assert pile[n - 1..] == [card];
    }
    assert PilesCoded(m, hs, cs[col := cs[col].(cards := pile[..n - 1])]);
    HeapSet(m, hs, cs[col := cs[col].(cards := pile[..n - 1])], heap, Heaps.AddCard(hs[heap], card));
  }

  /** The top card of a heap leaves it for a column and is coded with the column. */
  lemma HeapTopToColumn(codes: map<Card, int>, hs: seq<Heaps.Heap>, cs: seq<Column>, heap: int, col: int)
    requires PilesCoded(codes, hs, cs) && |cs| <= NB_COLUMNS && 0 <= col < |cs| && 0 <= heap < |hs|
    requires |hs[heap].cards| > 0 && NoDup(hs[heap].cards)
    requires forall h :: 0 <= h < |hs| && h != heap ==> hs[heap].cards[|hs[heap].cards| - 1] !in hs[h].cards
    ensures var n := |hs[heap].cards|;
      var card := hs[heap].cards[n - 1];
      PilesCoded(codes[card := col], hs[heap := Heaps.Heap(hs[heap].cards[..n - 1])],
                 cs[col := AddCards(cs[col], [card])])
  {
    var pile := hs[heap].cards;
    var n := |pile|;
    var card := pile[n - 1];
    var m := codes[card := col];
    assert card in pile;
    assert forall x :: x in pile[..n - 1] ==> x in pile && x != card by {
      SplitDisjoint(pile, n - 1);
      assert pile[n - 1..] == [card];
    }
    assert PilesCoded(m, hs[heap := Heaps.Heap(pile[..n - 1])], cs);
    ColumnSet(m, hs[heap := Heaps.Heap(pile[..n - 1])], cs, col, AddCards(cs[col], [card]));
  }

  // ----- Each move keeps the codes in step -----

  /** Drawing changes only the window, so the codes still match. */
  lemma DrawMatch(e: Engine)
    requires BoardWF(e.board) && CodesMatch(e)
    ensures CodesMatch(Klondike.Draw(e))
  {
  }

  /** `deck_to_heap`: the shown card is coded 7 and the sub-deck cards after it move one offset
      down. */
  lemma DeckToHeapMatch(e: Engine, heap: int, nbDraw: nat)
    requires BoardWF(e.board) && 0 <= heap < NB_HEAPS && CodesMatch(e)
    ensures CodesMatch(Klondike.DeckToHeap(e, heap, nbDraw))
  {
    if CanDeckToHeap(e.board, heap, nbDraw) {
      var b := e.board;
      var r := Klondike.DeckToHeap(e, heap, nbDraw);
      var t := TopIndex(Draws(b, nbDraw));
      var card := b.subDeck[t];
      TakeFromSub(e.codes, b.subDeck, t, HEAP_CODE);
      PilesKept(e.codes, r.codes, b.heaps, b.columns);
      PileSnoc(r.codes, b.heaps[heap].cards, card, HEAP_CODE);
      HeapSet(r.codes, b.heaps, b.columns, heap, Heaps.AddCard(b.heaps[heap], card));
    }
  }

  /** `deck_to_column`: the shown card is coded with the column and the sub-deck cards after it
      move one offset down. */
  lemma DeckToColumnMatch(e: Engine, col: int, nbDraw: nat)
    requires BoardWF(e.board) && 0 <= col < NB_COLUMNS && CodesMatch(e)
    ensures CodesMatch(Klondike.DeckToColumn(e, col, nbDraw))
  {
    if CanDeckToColumn(e.board, col, nbDraw) {
      var b := e.board;
      var r := Klondike.DeckToColumn(e, col, nbDraw);
      var t := TopIndex(Draws(b, nbDraw));
      var card := b.subDeck[t];
      TakeFromSub(e.codes, b.subDeck, t, col);
      PilesKept(e.codes, r.codes, b.heaps, b.columns);
      PileSnoc(r.codes, b.columns[col].cards, card, col);
      ColumnSet(r.codes, b.heaps, b.columns, col, AddCards(b.columns[col], [card]));
    }
  }

  /** A reveal takes a card that had no code out of the main deck and codes it: the coded cards
      are then exactly those outside the smaller main deck. */
  lemma RevealKeys(codes: map<Card, int>, main: multiset<Card>, revealed: Card, v: int)
    requires forall c: Card :: c in codes <==> c !in main
    requires revealed in main && main[revealed] <= 1
    ensures forall c: Card :: c in codes[revealed := v] <==> c !in main - multiset{revealed}
  {
  }

  /** Reveal-on-empty codes the revealed card with its column. */
  lemma RevealMatch(e: Engine, col: int, revealed: Card)
    requires BoardWF(e.board) && 0 <= col < NB_COLUMNS && CodesMatch(e)
    requires NeedReveal(e.board.columns[col]) ==> revealed in e.mainDeck && e.mainDeck[revealed] <= 1
    ensures CodesMatch(RevealIfNeeded(e, col, revealed))
  {
    if NeedReveal(e.board.columns[col]) {
      var r := RevealIfNeeded(e, col, revealed);
      var m := e.codes[revealed := col];
      RevealKeys(e.codes, e.mainDeck, revealed, col);
      PilesKept(e.codes, m, e.board.heaps, e.board.columns);
      PileSnoc(m, e.board.columns[col].cards, revealed, col);
      ColumnSet(m, e.board.heaps, e.board.columns, col, RevealCard(e.board.columns[col], revealed));
    }
  }

  /** `column_to_heap`: the column's top card is coded 7; a card revealed on the emptied column
      is coded with the column. */
  lemma ColumnToHeapMatch(e: Engine, col: int, heap: int, revealed: Card)
    requires BoardWF(e.board) && 0 <= col < NB_COLUMNS && 0 <= heap < NB_HEAPS
    requires CodesMatch(e) && Distinct(e)
    requires Reveals(e.board, Actions.ColumnToHeap(col, heap)) ==> revealed in e.mainDeck
    ensures CodesMatch(Klondike.ColumnToHeap(e, col, heap, revealed))
  {
    if CanColumnToHeap(e.board, col, heap) {
      var b := e.board;
      var source := b.columns[col];
      var n := |source.cards|;
      var card := source.cards[n - 1];
      var left := source.(cards := source.cards[..n - 1]);
      var moved := e.(board := b.(columns := b.columns[col := left],
                                  heaps := b.heaps[heap := Heaps.AddCard(b.heaps[heap], card)]),
                      codes := e.codes[card := HEAP_CODE],
                      reward := 10);
      assert TakeTop(source, 1).0 == left && TakeTop(source, 1).1[0] == card;
      assert CodesMatch(moved) by {
        ColumnTopToHeap(e.codes, b.heaps, b.columns, col, heap);
        assert card in source.cards;
      }
      RevealMatch(moved, col, revealed);
      assert Klondike.ColumnToHeap(e, col, heap, revealed) == RevealIfNeeded(moved, col, revealed);
    }
  }

  /** `heap_to_column`: the heap's top card is coded with the column. */
  lemma HeapToColumnMatch(e: Engine, heap: int, col: int)
    requires BoardWF(e.board) && 0 <= col < NB_COLUMNS && 0 <= heap < NB_HEAPS
    requires Heaps.CanRemove(e.board.heaps[heap])
    requires CodesMatch(e) && Distinct(e)
    ensures CodesMatch(Klondike.HeapToColumn(e, heap, col))
  {
    var b := e.board;
    var pile := b.heaps[heap].cards;
    assert pile[|pile| - 1] in pile;
    HeapTopToColumn(e.codes, b.heaps, b.columns, heap, col);
    assert Heaps.RemoveCard(b.heaps[heap]).0 == Heaps.Heap(pile[..|pile| - 1]);
  }

  /** The columns after a run of `cs[col1]` from offset `k` on moves onto `cs[col2]`, coded with
      its new column. */
  lemma RunMoved(codes: map<Card, int>, cs: seq<Column>, col1: int, col2: int, k: nat)
    requires 0 <= col1 < |cs| && 0 <= col2 < |cs| && k <= |cs[col1].cards|
    requires forall i :: 0 <= i < |cs| ==> PileCoded(codes, cs[i].cards, i)
    requires NoDup(cs[col1].cards)
    ensures var run := cs[col1].cards[k..];
      var cols := cs[col1 := cs[col1].(cards := cs[col1].cards[..k])];
      var after := cols[col2 := AddCards(cols[col2], run)];
      forall i :: 0 <= i < |cs| ==> PileCoded(SetCodes(codes, run, col2), after[i].cards, i)
  {
    var source := cs[col1];
    var run := source.cards[k..];
    var rest := source.(cards := source.cards[..k]);
    var cols := cs[col1 := rest];
    var after := cols[col2 := AddCards(cols[col2], run)];
    var m := SetCodes(codes, run, col2);
    assert source.cards == rest.cards + run;
    assert forall x :: x in run ==> x in source.cards;
    forall i | 0 <= i < |cs|
      ensures PileCoded(m, after[i].cards, i)
    {
      if i == col1 && col1 != col2 {
        SplitDisjoint(source.cards, k);
        assert forall x :: x in rest.cards ==> x in source.cards;
      } else if i == col1 {
        assert after[i].cards == source.cards;
      } else if i == col2 {
        assert after[i].cards == cs[i].cards + run;
      }
    }
  }

  /** The same for the whole table: the run's cards are coded with the source column, so giving
      them the target's code leaves the coded set, the sub-deck and the heaps alone. */
  lemma RunRecoded(codes: map<Card, int>, main: multiset<Card>, sub: seq<Card>, hs: seq<Heaps.Heap>,
                   cs: seq<Column>, col1: int, col2: int, k: nat)
    requires |cs| == NB_COLUMNS && 0 <= col1 < |cs| && 0 <= col2 < |cs| && k <= |cs[col1].cards|
    requires (forall c: Card :: c in codes <==> c !in main) && SubCoded(codes, sub)
    requires PilesCoded(codes, hs, cs) && NoDup(cs[col1].cards)
    ensures var run := cs[col1].cards[k..];
      var cols := cs[col1 := cs[col1].(cards := cs[col1].cards[..k])];
      var m := SetCodes(codes, run, col2);
      && (forall c: Card :: c in m <==> c !in main)
      && SubCoded(m, sub)
      && PilesCoded(m, hs, cols[col2 := AddCards(cols[col2], run)])
  {
    var run := cs[col1].cards[k..];
    var m := SetCodes(codes, run, col2);
    assert forall x :: x in run ==> x in cs[col1].cards;
    assert forall x :: x in run ==> x in codes && codes[x] == col1;
    RunMoved(codes, cs, col1, col2, k);
  }

  /** `column_to_column`: the moved run is coded with the target column; a card revealed on the
      emptied source column is coded with it. */
  lemma ColumnToColumnMatch(e: Engine, col1: int, col2: int, nbCards: nat, revealed: Card)
    requires BoardWF(e.board) && 0 <= col1 < NB_COLUMNS && 0 <= col2 < NB_COLUMNS
    requires nbCards <= |e.board.columns[col1].cards|
    requires CodesMatch(e) && Distinct(e)
    requires Reveals(e.board, Actions.ColumnToColumn(col1, col2, nbCards)) ==> revealed in e.mainDeck
    ensures CodesMatch(Klondike.ColumnToColumn(e, col1, col2, nbCards, revealed))
  {
    var b := e.board;
    var source := b.columns[col1];
    var k := |source.cards| - nbCards;
    var run := source.cards[k..];
    var cols := b.columns[col1 := source.(cards := source.cards[..k])];
    var after := cols[col2 := AddCards(cols[col2], run)];
    var moved := e.(board := b.(columns := after), codes := SetCodes(e.codes, run, col2), reward := 0);
    assert TakeTop(source, nbCards) == (cols[col1], run);
    RunRecoded(e.codes, e.mainDeck, b.subDeck, b.heaps, b.columns, col1, col2, k);
    assert CodesMatch(moved);
    RevealMatch(moved, col1, revealed);
    assert Klondike.ColumnToColumn(e, col1, col2, nbCards, revealed) == RevealIfNeeded(moved, col1, revealed);
  }

  /** Every in-bounds move keeps the codes in step with the board, as long as a reveal takes its
      card from the main deck. */
  lemma ApplyMatch(e: Engine, a: Action, revealed: Card)
    requires BoardWF(e.board) && ActionInBounds(e.board, a)
    requires CodesMatch(e) && Distinct(e)
    requires Reveals(e.board, a) ==> revealed in e.mainDeck
    ensures CodesMatch(Apply(e, a, revealed))
  {
    match a
    case Draw => DrawMatch(e);
    case DeckToHeap(heap, nbDraw) => DeckToHeapMatch(e, heap, nbDraw);
    case DeckToColumn(col, nbDraw) => DeckToColumnMatch(e, col, nbDraw);
    case ColumnToHeap(col, heap) => ColumnToHeapMatch(e, col, heap, revealed);
    case HeapToColumn(heap, col) => HeapToColumnMatch(e, heap, col);
    case ColumnToColumn(col1, col2, nbCards) => ColumnToColumnMatch(e, col1, col2, nbCards, revealed);
  }
}
