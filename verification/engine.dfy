/** The game state of the rule engine and its moves: draw window, the five card moves with
    their rewards, reveal-on-empty and the per-card location codes. */
module Klondike {
  import opened Cards
  import opened Seqs
  import opened Columns
  import Heaps
  import opened Actions
  import opened Fingerprints

  // ----- Location codes -----

  /** Where a card can be, as the keys of the source's `state_dict`. */
  datatype Location = InCol(col: int) | InHeap | Undrawn | InDeck(offset: int)

  const HEAP_CODE: int := 7
  const UNDRAWN_CODE: int := 8

  function DeckCode(k: int): int
  {
    9 + k
  }

  predicate ValidLocation(loc: Location)
  {
    match loc
    case InCol(col) => 0 <= col < NB_COLUMNS
    case InHeap => true
    case Undrawn => true
    case InDeck(k) => 0 <= k < NB_CARDS_SUBDECK
  }

  function CodeOf(loc: Location): int
  {
    match loc
    case InCol(col) => col
    case InHeap => HEAP_CODE
    case Undrawn => UNDRAWN_CODE
    case InDeck(k) => DeckCode(k)
  }

  /** The key the source's initialisation loop files under value `i`. */
  function LocationAt(i: int): Location
  {
    if i <= 6 then InCol(i) else if i == 7 then InHeap else if i == 8 then Undrawn else InDeck(i - 9)
  }

  /** Builds `state_dict` with the source's loop over 0..32; the codes are 0..6 for the columns,
      7 for a heap, 8 for an undrawn card and 9 + k for sub-deck offset k. */
  method BuildStateDict() returns (d: map<Location, int>)
    ensures forall loc :: loc in d <==> ValidLocation(loc)
    ensures forall loc :: loc in d ==> d[loc] == CodeOf(loc)
    ensures forall l1, l2 :: l1 in d && l2 in d && d[l1] == d[l2] ==> l1 == l2
    ensures forall loc :: loc in d ==> 0 <= d[loc] < 33
  {
    d := map[];
    var i := 0;
    while i < 33
      invariant 0 <= i <= 33
      invariant forall loc :: loc in d <==> ValidLocation(loc) && 0 <= CodeOf(loc) < i
      invariant forall loc :: loc in d ==> d[loc] == CodeOf(loc)
    {
      assert CodeOf(LocationAt(i)) == i && ValidLocation(LocationAt(i));
      d := d[LocationAt(i) := i];
      i := i + 1;
    }
  }

  // ----- State -----

  /** The cards on the table: the upper-left sub-deck with its drawn window (indices into the
      sub-deck), the four heaps and the seven columns. */
  datatype Board = Board(subDeck: seq<Card>, window: seq<nat>, heaps: seq<Heaps.Heap>, columns: seq<Column>)

  /** The engine: the board, the undealt main deck, the location code of every dealt card
      (`cards_state`), the last reward, the score, the move count, the visited-state stack and
      the cached action table. */
  datatype Engine = Engine(
    board: Board,
    mainDeck: multiset<Card>,
    codes: map<Card, int>,
    reward: int,
    score: int,
    time: int,
    stack: seq<seq<int>>,
    table: Table)

  /** A window of at most three consecutive in-range sub-deck indices. */
  predicate WindowValid(w: seq<nat>, len: nat)
  {
    |w| <= 3
    && (forall i :: 0 <= i < |w| ==> w[i] < len)
    && (forall i :: 0 < i < |w| ==> w[i] == w[i - 1] + 1)
  }

  /** Every shown index sits the right distance below the last shown one. */
  lemma {:induction false} WindowBelowTop(w: seq<nat>, len: nat, i: int)
    requires WindowValid(w, len) && 0 <= i < |w|
    ensures w[i] + (|w| - 1 - i) == w[|w| - 1]
    decreases |w| - i
  {
    if i < |w| - 1 {
      WindowBelowTop(w, len, i + 1);
    }
  }

  predicate BoardWF(b: Board)
  {
    |b.heaps| == NB_HEAPS && |b.columns| == NB_COLUMNS && WindowValid(b.window, |b.subDeck|)
  }

  // ----- Draw -----

  predicate CanDraw(b: Board)
  {
    |b.subDeck| > 0
  }

  function Consecutive(start: nat, count: nat): (r: seq<nat>)
    ensures |r| == count && forall i :: 0 <= i < count ==> r[i] == start + i
    decreases count
  {
    if count == 0 then [] else [start] + Consecutive(start + 1, count - 1)
  }

  /** The next draw window: the three cards after the last shown one, restarting at the
      beginning when nothing is shown or the end has been passed. */
  function NextWindow(w: seq<nat>, len: nat): (r: seq<nat>)
    requires len > 0
    ensures 0 < |r| <= 3 && WindowValid(r, len)
    ensures r[0] == if |w| == 0 || w[|w| - 1] + 1 >= len then 0 else w[|w| - 1] + 1
    ensures |r| == Min(3, len - r[0])
  {
    if |w| == 0 then
      Consecutive(0, Min(3, len))
    else
      var start := w[|w| - 1] + 1;
      if start >= len then Consecutive(0, Min(3, len))
      else Consecutive(start, Min(start + 3, len) - start)
  }

  function DrawBoard(b: Board): (r: Board)
    requires BoardWF(b)
    ensures BoardWF(r)
    ensures r.subDeck == b.subDeck && r.heaps == b.heaps && r.columns == b.columns
  {
    if !CanDraw(b) then b else b.(window := NextWindow(b.window, |b.subDeck|))
  }

  /** The board after `n` draws. */
  function Draws(b: Board, n: nat): (r: Board)
    requires BoardWF(b)
    ensures BoardWF(r)
    ensures r.subDeck == b.subDeck && r.heaps == b.heaps && r.columns == b.columns
    decreases n
  {
    if n == 0 then b else Draws(DrawBoard(b), n - 1)
  }

  /** `draw`: nothing happens on an empty sub-deck; otherwise the window advances and the
      reward becomes 0. */
  function Draw(e: Engine): (r: Engine)
    requires BoardWF(e.board)
    ensures !CanDraw(e.board) ==> r == e
    ensures CanDraw(e.board) ==> r == e.(board := e.board.(window := r.board.window), reward := 0)
    ensures CanDraw(e.board) ==> 0 < |r.board.window| <= 3 && WindowValid(r.board.window, |e.board.subDeck|)
    ensures CanDraw(e.board) ==> (r.board.window[0] ==
      if |e.board.window| == 0 || e.board.window[|e.board.window| - 1] + 1 >= |e.board.subDeck| then 0
      else e.board.window[|e.board.window| - 1] + 1)
  {
    if !CanDraw(e.board) then e else e.(board := DrawBoard(e.board), reward := 0)
  }

  function DrawN(e: Engine, n: nat): (r: Engine)
    requires BoardWF(e.board)
    ensures r.board == Draws(e.board, n)
    ensures r == e.(board := r.board, reward := r.reward)
    ensures n > 0 && CanDraw(e.board) ==> r.reward == 0
    ensures n == 0 || !CanDraw(e.board) ==> r == e
    decreases n
  {
    if n == 0 then e else DrawN(Draw(e), n - 1)
  }

  function TopIndex(b: Board): nat
    requires BoardWF(b) && |b.window| > 0
  {
    b.window[|b.window| - 1]
  }

  // ----- Location-code updates -----

  /** Re-codes the sub-deck cards from offset `from` on with their offsets. */
  function Recode(codes: map<Card, int>, sub: seq<Card>, from: nat): (r: map<Card, int>)
    requires from <= |sub|
    ensures forall c :: c in r <==> c in codes || c in sub[from..]
    ensures forall c :: c in codes && c !in sub[from..] ==> r[c] == codes[c]
    ensures NoDup(sub) ==> forall j :: from <= j < |sub| ==> r[sub[j]] == DeckCode(j)
    decreases |sub| - from
  {
    if from == |sub| then codes
    else
      var r := Recode(codes[sub[from] := DeckCode(from)], sub, from + 1);
      assert sub[from..] == [sub[from]] + sub[from + 1..];
      r
  }

  /** Gives every card of `cards` the code `code`. */
  function SetCodes(codes: map<Card, int>, cards: seq<Card>, code: int): (r: map<Card, int>)
    ensures forall c :: c in r <==> c in codes || c in cards
    ensures forall c :: c in cards ==> r[c] == code
    ensures forall c :: c in codes && c !in cards ==> r[c] == codes[c]
    decreases |cards|
  {
    if |cards| == 0 then codes
    else
      var r := SetCodes(codes[cards[0] := code], cards[1..], code);
      assert cards == [cards[0]] + cards[1..];
      r
  }

  // ----- Fingerprint -----

  function CodeOrUndrawn(codes: map<Card, int>, c: Card): int
  {
    if c in codes then codes[c] else UNDRAWN_CODE
  }

  /** The 52 location codes, suit-major and rank-minor, 8 for a card without a code. */
  function Fingerprint(codes: map<Card, int>): (v: seq<int>)
    ensures |v| == 52
    ensures forall c: Card :: v[CardIndex(c)] == CodeOrUndrawn(codes, c)
  {
    EnumerationIndex();
    seq(52, k requires 0 <= k < 52 => CodeOrUndrawn(codes, Enumeration()[k]))
  }

  predicate CodesInRange(codes: map<Card, int>)
  {
    forall c :: c in codes ==> 0 <= codes[c] < 33
  }

  /** `get_state` with the corrected key: the code vector and a two-digit-per-code string that
      decodes back to it. The source joins the codes without separators instead, which
      `Fingerprints.JoinCollides` shows is not injective. */
  function GetState(e: Engine): (r: (seq<int>, string))
    requires CodesInRange(e.codes)
    ensures r.0 == Fingerprint(e.codes) && |r.1| == 104
    ensures DecodeKey(r.1) == r.0
  {
    var v := Fingerprint(e.codes);
    assert TwoDigitCodes(v);
    KeyRoundTrip(v);
    (v, StateKey(v))
  }

  // ----- Moves -----

  /** Reveal-on-empty: a column left without face-up cards but with hidden ones gets a card from
      the main deck (`revealed` stands for the random draw), coded to the column, worth +5. */
  function RevealIfNeeded(e: Engine, col: int, revealed: Card): (r: Engine)
    requires BoardWF(e.board) && 0 <= col < NB_COLUMNS
    ensures BoardWF(r.board)
    ensures NeedReveal(e.board.columns[col]) ==>
      r == e.(board := r.board, mainDeck := e.mainDeck - multiset{revealed}, codes := e.codes[revealed := col], reward := e.reward + 5)
      && r.board == e.board.(columns := e.board.columns[col := RevealCard(e.board.columns[col], revealed)])
    ensures !NeedReveal(e.board.columns[col]) ==> r == e
    ensures !NeedReveal(r.board.columns[col])
  {
    if NeedReveal(e.board.columns[col]) then
      var cols := e.board.columns;
      e.(mainDeck := e.mainDeck - multiset{revealed},
         codes := e.codes[revealed := col],
         board := e.board.(columns := cols[col := RevealCard(cols[col], revealed)]),
         reward := e.reward + 5)
    else
      e
  }

  predicate CanDeckToHeap(b: Board, heap: int, nbDraw: nat)
    requires BoardWF(b) && 0 <= heap < NB_HEAPS
  {
    CanDraw(b)
    && var g := Draws(b, nbDraw);
    |g.window| > 0 && Heaps.CanAdd(g.heaps[heap], g.subDeck[TopIndex(g)])
  }

  predicate CanDeckToColumn(b: Board, col: int, nbDraw: nat)
    requires BoardWF(b) && 0 <= col < NB_COLUMNS
  {
    CanDraw(b)
    && var g := Draws(b, nbDraw);
    |g.window| > 0 && Columns.CanAdd(g.columns[col], g.subDeck[TopIndex(g)])
  }

  /** Takes the shown top card out of the sub-deck: the window loses its last index, the card
      leaves the sub-deck and the cards after it are re-coded with their new offsets. */
  function TakeFromDeck(g: Engine): (r: (Engine, Card))
    requires BoardWF(g.board) && |g.board.window| > 0
    ensures BoardWF(r.0.board)
    ensures r.1 == g.board.subDeck[TopIndex(g.board)]
    ensures r.0.board == g.board.(subDeck := RemoveAt(g.board.subDeck, TopIndex(g.board)),
                                  window := g.board.window[..|g.board.window| - 1])
    ensures r.0 == g.(board := r.0.board, codes := r.0.codes)
  {
    var k := TopIndex(g.board);
    var card := g.board.subDeck[k];
    var sub := RemoveAt(g.board.subDeck, k);
    var w := g.board.window[..|g.board.window| - 1];
    forall i | 0 <= i < |w|
      ensures w[i] < |sub|
    {
      WindowBelowTop(g.board.window, |g.board.subDeck|, i);
    }
    (g.(board := g.board.(subDeck := sub, window := w), codes := Recode(g.codes, sub, k)), card)
  }

  /** `deck_to_heap`: after `nbDraw` draws, the shown card goes onto the heap; reward 10. */
  function DeckToHeap(e: Engine, heap: int, nbDraw: nat): (r: Engine)
    requires BoardWF(e.board) && 0 <= heap < NB_HEAPS
    ensures BoardWF(r.board)
    ensures !CanDeckToHeap(e.board, heap, nbDraw) ==> r == e
    ensures CanDeckToHeap(e.board, heap, nbDraw) ==>
      var g := Draws(e.board, nbDraw);
      var card := g.subDeck[TopIndex(g)];
      && r.reward == 10
      && r.board.subDeck == RemoveAt(g.subDeck, TopIndex(g))
      && r.board.window == g.window[..|g.window| - 1]
      && r.board.columns == e.board.columns
      && r.board.heaps == e.board.heaps[heap := Heaps.AddCard(e.board.heaps[heap], card)]
      && r.mainDeck == e.mainDeck && r.score == e.score && r.time == e.time && r.stack == e.stack && r.table == e.table
      && r.codes == Recode(e.codes[card := HEAP_CODE], r.board.subDeck, TopIndex(g))
  {
    if !CanDeckToHeap(e.board, heap, nbDraw) then e
    else
      var g := DrawN(e, nbDraw);
      var card := g.board.subDeck[TopIndex(g.board)];
      var taken := TakeFromDeck(g.(codes := g.codes[card := HEAP_CODE]));
      var heaps := taken.0.board.heaps;
      taken.0.(board := taken.0.board.(heaps := heaps[heap := Heaps.AddCard(heaps[heap], card)]), reward := 10)
  }

  /** `deck_to_column`: after `nbDraw` draws, the shown card goes onto the column; reward 5. */
  function DeckToColumn(e: Engine, col: int, nbDraw: nat): (r: Engine)
    requires BoardWF(e.board) && 0 <= col < NB_COLUMNS
    ensures BoardWF(r.board)
    ensures !CanDeckToColumn(e.board, col, nbDraw) ==> r == e
    ensures CanDeckToColumn(e.board, col, nbDraw) ==>
      var g := Draws(e.board, nbDraw);
      var card := g.subDeck[TopIndex(g)];
      && r.reward == 5
      && r.board.subDeck == RemoveAt(g.subDeck, TopIndex(g))
      && r.board.window == g.window[..|g.window| - 1]
      && r.board.heaps == e.board.heaps
      && r.board.columns == e.board.columns[col := AddCards(e.board.columns[col], [card])]
      && r.mainDeck == e.mainDeck && r.score == e.score && r.time == e.time && r.stack == e.stack && r.table == e.table
      && r.codes == Recode(e.codes[card := col], r.board.subDeck, TopIndex(g))
  {
    if !CanDeckToColumn(e.board, col, nbDraw) then e
    else
      var g := DrawN(e, nbDraw);
      var card := g.board.subDeck[TopIndex(g.board)];
      var taken := TakeFromDeck(g.(codes := g.codes[card := col]));
      var cols := taken.0.board.columns;
      taken.0.(board := taken.0.board.(columns := cols[col := AddCards(cols[col], [card])]), reward := 5)
  }

  predicate CanColumnToHeap(b: Board, col: int, heap: int)
    requires BoardWF(b) && 0 <= col < NB_COLUMNS && 0 <= heap < NB_HEAPS
  {
    CanRemove(b.columns[col], 1)
    && Heaps.CanAdd(b.heaps[heap], b.columns[col].cards[|b.columns[col].cards| - 1])
  }

  /** `column_to_heap`: the column's top card goes onto the heap for reward 10, then the column
      is refilled from the main deck if it needs a reveal. */
  function ColumnToHeap(e: Engine, col: int, heap: int, revealed: Card): (r: Engine)
    requires BoardWF(e.board) && 0 <= col < NB_COLUMNS && 0 <= heap < NB_HEAPS
    ensures BoardWF(r.board)
    ensures !CanColumnToHeap(e.board, col, heap) ==> r == e
    ensures CanColumnToHeap(e.board, col, heap) ==>
      var source := e.board.columns[col];
      var card := source.cards[|source.cards| - 1];
      var left := source.(cards := source.cards[..|source.cards| - 1]);
      && r.board.heaps == e.board.heaps[heap := Heaps.AddCard(e.board.heaps[heap], card)]
      && r.board.subDeck == e.board.subDeck && r.board.window == e.board.window
      && r.board.columns == e.board.columns[col := if NeedReveal(left) then RevealCard(left, revealed) else left]
      && r.reward == (if NeedReveal(left) then 15 else 10)
      && r.mainDeck == (if NeedReveal(left) then e.mainDeck - multiset{revealed} else e.mainDeck)
      && r.codes == (if NeedReveal(left) then e.codes[card := HEAP_CODE][revealed := col] else e.codes[card := HEAP_CODE])
      && r.score == e.score && r.time == e.time && r.stack == e.stack && r.table == e.table
  {
    if !CanColumnToHeap(e.board, col, heap) then e
    else
      var b := e.board;
      var split := TakeTop(b.columns[col], 1);
      var card := split.1[0];
      var moved := e.(board := b.(columns := b.columns[col := split.0],
                                  heaps := b.heaps[heap := Heaps.AddCard(b.heaps[heap], card)]),
                      codes := e.codes[card := HEAP_CODE],
                      reward := 10);
      RevealIfNeeded(moved, col, revealed)
  }

  predicate CanHeapToColumn(b: Board, heap: int, col: int)
    requires BoardWF(b) && 0 <= col < NB_COLUMNS && 0 <= heap < NB_HEAPS
  {
    Heaps.CanRemove(b.heaps[heap])
    && var card := b.heaps[heap].cards[|b.heaps[heap].cards| - 1];
    card.rank != ACE && Columns.CanAdd(b.columns[col], card)
  }

  /** `heap_to_column`: the heap's top card goes onto the column for reward -15. */
  function HeapToColumn(e: Engine, heap: int, col: int): (r: Engine)
    requires BoardWF(e.board) && 0 <= col < NB_COLUMNS && 0 <= heap < NB_HEAPS
    requires Heaps.CanRemove(e.board.heaps[heap])
    ensures BoardWF(r.board)
    ensures
      var card := e.board.heaps[heap].cards[|e.board.heaps[heap].cards| - 1];
      && r.reward == -15
      && r.board.heaps == e.board.heaps[heap := Heaps.RemoveCard(e.board.heaps[heap]).0]
      && r.board.columns == e.board.columns[col := AddCards(e.board.columns[col], [card])]
      && r.board.subDeck == e.board.subDeck && r.board.window == e.board.window
      && r.codes == e.codes[card := col]
      && r.mainDeck == e.mainDeck && r.score == e.score && r.time == e.time && r.stack == e.stack && r.table == e.table
  {
    var b := e.board;
    var popped := Heaps.RemoveCard(b.heaps[heap]);
    e.(board := b.(heaps := b.heaps[heap := popped.0],
                   columns := b.columns[col := AddCards(b.columns[col], [popped.1])]),
       codes := e.codes[popped.1 := col],
       reward := -15)
  }

  /** The column-to-column test looks at the bottom card of the moved run. */
  predicate CanColumnToColumn(b: Board, col1: int, col2: int, nbCards: nat)
    requires BoardWF(b) && 0 <= col1 < NB_COLUMNS && 0 <= col2 < NB_COLUMNS && nbCards >= 1
  {
    CanRemove(b.columns[col1], nbCards)
    && Columns.CanAdd(b.columns[col2], TakeTop(b.columns[col1], nbCards).1[0])
  }

  /** `column_to_column`: the top `nbCards` cards move, in order, onto the other column for reward
      0, then the source column is refilled if it needs a reveal. */
  function ColumnToColumn(e: Engine, col1: int, col2: int, nbCards: nat, revealed: Card): (r: Engine)
    requires BoardWF(e.board) && 0 <= col1 < NB_COLUMNS && 0 <= col2 < NB_COLUMNS
    requires nbCards <= |e.board.columns[col1].cards|
    ensures BoardWF(r.board)
    ensures
      var source := e.board.columns[col1];
      var run := source.cards[|source.cards| - nbCards..];
      var cols := e.board.columns[col1 := source.(cards := source.cards[..|source.cards| - nbCards])];
      var after := cols[col2 := AddCards(cols[col2], run)];
      && r.board.heaps == e.board.heaps
      && r.board.subDeck == e.board.subDeck && r.board.window == e.board.window
      && r.board.columns == (if NeedReveal(after[col1]) then after[col1 := RevealCard(after[col1], revealed)] else after)
      && r.reward == (if NeedReveal(after[col1]) then 5 else 0)
      && r.mainDeck == (if NeedReveal(after[col1]) then e.mainDeck - multiset{revealed} else e.mainDeck)
      && r.codes == (if NeedReveal(after[col1]) then SetCodes(e.codes, run, col2)[revealed := col1] else SetCodes(e.codes, run, col2))
      && r.score == e.score && r.time == e.time && r.stack == e.stack && r.table == e.table
  {
    var b := e.board;
    var split := TakeTop(b.columns[col1], nbCards);
    var cols := b.columns[col1 := split.0];
    var moved := e.(board := b.(columns := cols[col2 := AddCards(cols[col2], split.1)]),
                    codes := SetCodes(e.codes, split.1, col2),
                    reward := 0);
    RevealIfNeeded(moved, col1, revealed)
  }

  /** The move of an action entry; a draw is a plain draw. */
  function Apply(e: Engine, a: Action, revealed: Card): (r: Engine)
    requires BoardWF(e.board) && ActionInBounds(e.board, a)
    ensures BoardWF(r.board)
    ensures r.mainDeck == if Reveals(e.board, a) then e.mainDeck - multiset{revealed} else e.mainDeck
    ensures r.score == e.score && r.time == e.time && r.stack == e.stack && r.table == e.table
  {
    match a
    case Draw => Draw(e)
    case DeckToHeap(heap, nbDraw) => DeckToHeap(e, heap, nbDraw)
    case DeckToColumn(col, nbDraw) => DeckToColumn(e, col, nbDraw)
    case ColumnToHeap(col, heap) => ColumnToHeap(e, col, heap, revealed)
    case HeapToColumn(heap, col) => HeapToColumn(e, heap, col)
    case ColumnToColumn(col1, col2, nbCards) => ColumnToColumn(e, col1, col2, nbCards, revealed)
  }

  /** What a move needs not to fail in the source: valid indices, a card to pop. */
  predicate ActionInBounds(b: Board, a: Action)
    requires BoardWF(b)
  {
    match a
    case Draw => true
    case DeckToHeap(heap, nbDraw) => 0 <= heap < NB_HEAPS && nbDraw >= 0
    case DeckToColumn(col, nbDraw) => 0 <= col < NB_COLUMNS && nbDraw >= 0
    case ColumnToHeap(col, heap) => 0 <= col < NB_COLUMNS && 0 <= heap < NB_HEAPS
    case HeapToColumn(heap, col) => 0 <= col < NB_COLUMNS && 0 <= heap < NB_HEAPS && Heaps.CanRemove(b.heaps[heap])
    case ColumnToColumn(col1, col2, nbCards) =>
      0 <= col1 < NB_COLUMNS && 0 <= col2 < NB_COLUMNS && 0 <= nbCards <= |b.columns[col1].cards|
  }

  /** Whether applying the action takes a card from the main deck (a reveal). */
  predicate Reveals(b: Board, a: Action)
    requires BoardWF(b) && ActionInBounds(b, a)
  {
    match a
    case ColumnToHeap(col, heap) =>
      CanColumnToHeap(b, col, heap) && NeedReveal(TakeTop(b.columns[col], 1).0)
    case ColumnToColumn(col1, col2, nbCards) =>
      var split := TakeTop(b.columns[col1], nbCards);
      var cols := b.columns[col1 := split.0];
      NeedReveal(cols[col2 := AddCards(cols[col2], split.1)][col1])
    case _ => false
  }
}
