/** The legal-action table (`legal_actions`), `play`, `chance_action`, the end-of-game tests and
    the initial deal. */
module Legal {
  import opened Wrappers
  import opened Cards
  import opened Seqs
  import opened Columns
  import Heaps
  import opened Actions
  import opened Klondike

  /** The card the random reveal would produce inside the column-to-column cycle filter, for
      (col1, col2, nbCards); the source draws it from a shuffled copy of the main deck. */
  type Picker = (int, int, int) -> Card

  // ----- Filling a range of slots -----

  /** Writes `act(i)` at slot `base + i` for every i in k .. n - 1 whose `test(i)` holds, in
      increasing order: the shape of each of the source's table-filling loops. */
  function Fill(t: Table, base: int, k: nat, n: nat, test: int -> bool, act: int -> Action): (r: Table)
    requires k <= n
    decreases n - k
  {
    if k == n then t
    else Fill(if test(k) then Put(t, base + k, act(k)) else t, base, k + 1, n, test, act)
  }

  /** Two fills whose tests and actions agree on the visited indices write the same table. */
  lemma {:induction false} FillAgree(t: Table, base: int, k: nat, n: nat, test1: int -> bool, act1: int -> Action,
    test2: int -> bool, act2: int -> Action)
    requires k <= n
    requires forall i :: k <= i < n ==> test1(i) == test2(i) && act1(i) == act2(i)
    ensures Fill(t, base, k, n, test1, act1) == Fill(t, base, k, n, test2, act2)
    decreases n - k
  {
    if k < n {
      FillAgree(if test1(k) then Put(t, base + k, act1(k)) else t, base, k + 1, n, test1, act1, test2, act2);
    }
  }

  lemma {:induction false} FillWF(t: Table, base: int, k: nat, n: nat, test: int -> bool, act: int -> Action)
    requires k <= n && TableWF(t)
    ensures TableWF(Fill(t, base, k, n, test, act))
    decreases n - k
  {
    if k < n {
      if test(k) {
        PutWF(t, base + k, act(k));
      }
      FillWF(if test(k) then Put(t, base + k, act(k)) else t, base, k + 1, n, test, act);
    }
  }

  /** Every slot outside `base + k .. base + n - 1` is kept. */
  lemma {:induction false} FillOutside(t: Table, base: int, k: nat, n: nat, test: int -> bool, act: int -> Action)
    requires k <= n
    ensures KeepsOutside(base + k, base + n, t, Fill(t, base, k, n, test, act))
    decreases n - k
  {
    if k < n {
      var t1 := if test(k) then Put(t, base + k, act(k)) else t;
      FillOutside(t1, base, k + 1, n, test, act);
    }
  }

  /** Every position from k on that passes its test is written with its action. */
  lemma {:induction false} FillWrites(t: Table, base: int, k: nat, n: nat, test: int -> bool, act: int -> Action)
    requires k <= n
    ensures forall i :: k <= i < n && test(i) ==>
      base + i in Fill(t, base, k, n, test, act).entries && Fill(t, base, k, n, test, act).entries[base + i] == act(i)
    decreases n - k
  {
    if k < n {
      var t1 := if test(k) then Put(t, base + k, act(k)) else t;
      FillWrites(t1, base, k + 1, n, test, act);
      FillOutside(t1, base, k + 1, n, test, act);
      assert !(base + k + 1 <= base + k < base + n);
    }
  }

  /** Every entry is kept from `t` or is a passing position's action at its slot. */
  lemma {:induction false} FillOnly(t: Table, base: int, k: nat, n: nat, test: int -> bool, act: int -> Action)
    requires k <= n
    ensures forall s :: s in Fill(t, base, k, n, test, act).entries ==>
      (s in t.entries && Fill(t, base, k, n, test, act).entries[s] == t.entries[s])
      || (base + k <= s < base + n && test(s - base) && Fill(t, base, k, n, test, act).entries[s] == act(s - base))
    decreases n - k
  {
    if k < n {
      var t1 := if test(k) then Put(t, base + k, act(k)) else t;
      FillOnly(t1, base, k + 1, n, test, act);
    }
  }

  /** Every entry of `t` satisfies `p` (of its slot and action). */
  ghost predicate AllEntries(t: Table, p: (int, Action) -> bool)
  {
    forall s :: s in t.entries ==> p(s, t.entries[s])
  }

  /** Slot `s` of `t` holds action `a`. */
  predicate Holds(t: Table, s: int, a: Action)
  {
    s in t.entries && t.entries[s] == a
  }

  /** A property of the old entries and of every written entry holds of the filled table. */
  lemma FillAll(t: Table, base: int, n: nat, test: int -> bool, act: int -> Action, p: (int, Action) -> bool)
    requires AllEntries(t, p)
    requires forall i :: 0 <= i < n && test(i) ==> p(base + i, act(i))
    ensures AllEntries(Fill(t, base, 0, n, test, act), p)
  {
    var r := Fill(t, base, 0, n, test, act);
    FillOnly(t, base, 0, n, test, act);
    forall s | s in r.entries
      ensures p(s, r.entries[s])
    {
      if !(s in t.entries && r.entries[s] == t.entries[s]) {
        var i := s - base;
        assert 0 <= i < n && test(i) && r.entries[s] == act(i);
        assert base + i == s;
      }
    }
  }

  // ----- A loop of rows -----

  /** `r` agrees with `t` on every slot outside lo .. hi - 1. */
  ghost predicate KeepsOutside(lo: int, hi: int, t: Table, r: Table)
  {
    forall s :: !(lo <= s < hi) ==> (s in r.entries <==> s in t.entries) && (s in t.entries ==> r.entries[s] == t.entries[s])
  }

  /** Row `n`: position j in 0 .. 10 whose `ok(n)(j)` holds is written with `act(n)(j)` at
      slot 11 * n + j. */
  function Row(ok: nat -> int -> bool, act: nat -> int -> Action, n: nat, t: Table): Table
  {
    Fill(t, 11 * n, 0, 11, ok(n), act(n))
  }

  /** A row keeps every slot outside its own eleven. */
  lemma RowFrame(ok: nat -> int -> bool, act: nat -> int -> Action, n: nat, t: Table)
    ensures KeepsOutside(11 * n, 11 * n + 11, t, Row(ok, act, n, t))
  {
    FillOutside(t, 11 * n, 0, 11, ok(n), act(n));
  }

  /** `r` holds every passing position's action of row `n` at its slot. */
  ghost predicate WritesRow(ok: nat -> int -> bool, act: nat -> int -> Action, n: nat, r: Table)
  {
    forall j :: 0 <= j < 11 && ok(n)(j) ==> 11 * n + j in r.entries && r.entries[11 * n + j] == act(n)(j)
  }

  /** Every entry of `r` is kept from `t` or is a passing position's action in row `n`. */
  ghost predicate OnlyRow(ok: nat -> int -> bool, act: nat -> int -> Action, n: nat, t: Table, r: Table)
  {
    forall s :: s in r.entries ==>
      (s in t.entries && r.entries[s] == t.entries[s])
      || (11 * n <= s < 11 * n + 11 && ok(n)(s - 11 * n) && r.entries[s] == act(n)(s - 11 * n))
  }

  /** A row writes every passing position's action at its slot. */
  lemma RowWrites(ok: nat -> int -> bool, act: nat -> int -> Action, n: nat, t: Table)
    ensures WritesRow(ok, act, n, Row(ok, act, n, t))
  {
    FillWrites(t, 11 * n, 0, 11, ok(n), act(n));
  }

  /** A row writes nothing but passing positions' actions in its own slots. */
  lemma RowOnly(ok: nat -> int -> bool, act: nat -> int -> Action, n: nat, t: Table)
    ensures OnlyRow(ok, act, n, t, Row(ok, act, n, t))
  {
    FillOnly(t, 11 * n, 0, 11, ok(n), act(n));
  }

  /** Every entry of `r` is kept from `t` or is a passing position's action in rows lo .. hi - 1. */
  ghost predicate OnlyRows(ok: nat -> int -> bool, act: nat -> int -> Action, lo: nat, hi: nat, t: Table, r: Table)
  {
    forall s :: s in r.entries ==>
      (s in t.entries && r.entries[s] == t.entries[s])
      || (11 * lo <= s < 11 * hi && ok(s / 11)(s % 11) && r.entries[s] == act(s / 11)(s % 11))
  }

  lemma SlotInRow(n: nat, s: int)
    requires 11 * n <= s < 11 * n + 11
    ensures s / 11 == n && s % 11 == s - 11 * n
  {
  }

  /** One row on its own writes only its row. */
  lemma OnlyOne(ok: nat -> int -> bool, act: nat -> int -> Action, nbDraw: nat, t: Table, t1: Table)
    requires OnlyRow(ok, act, nbDraw, t, t1)
    ensures OnlyRows(ok, act, nbDraw, nbDraw + 1, t, t1)
  {
    forall s | s in t1.entries && !(s in t.entries && t1.entries[s] == t.entries[s])
      ensures 11 * nbDraw <= s < 11 * (nbDraw + 1) && ok(s / 11)(s % 11) && t1.entries[s] == act(s / 11)(s % 11)
    {
      SlotInRow(nbDraw, s);
    }
  }

  /** A row, then later rows that write only their own rows. */
  lemma OnlyJoin(ok: nat -> int -> bool, act: nat -> int -> Action, nbDraw: nat, t: Table, t1: Table, rest: Table, rows: nat)
    requires OnlyRow(ok, act, nbDraw, t, t1)
    requires OnlyRows(ok, act, nbDraw + 1, nbDraw + 1 + rows, t1, rest)
    ensures OnlyRows(ok, act, nbDraw, nbDraw + 1 + rows, t, rest)
  {
    OnlyOne(ok, act, nbDraw, t, t1);
  }

  /** The rotation loop: row `nbDraw`, then one more draw showing `shown(nbDraw + 1)`; it stops
      once the shown card was already seen. Returns the table and the number of rows. It ends
      because every further row shows a card of `pool` not seen before, which also bounds the
      rows by the unseen cards. */
  function RowLoop(ok: nat -> int -> bool, act: nat -> int -> Action, shown: nat -> Card, pool: set<Card>,
    seen: set<Card>, nbDraw: nat, t: Table): (r: (Table, nat))
    requires forall n: nat :: shown(n) in pool
    ensures 1 <= r.1 <= |pool - seen| + 1
    decreases pool - seen
  {
    var t1 := Row(ok, act, nbDraw, t);
    var card := shown(nbDraw + 1);
    if card in seen then
      (t1, 1)
    else
      assert pool - (seen + {card}) == (pool - seen) - {card};
      var rest := RowLoop(ok, act, shown, pool, seen + {card}, nbDraw + 1, t1);
      (rest.0, rest.1 + 1)
  }

  lemma {:induction false} RowLoopWF(ok: nat -> int -> bool, act: nat -> int -> Action, shown: nat -> Card, pool: set<Card>,
    seen: set<Card>, nbDraw: nat, t: Table)
    requires forall n: nat :: shown(n) in pool
    requires TableWF(t)
    ensures TableWF(RowLoop(ok, act, shown, pool, seen, nbDraw, t).0)
    decreases pool - seen
  {
    var t1 := Row(ok, act, nbDraw, t);
    var card := shown(nbDraw + 1);
    FillWF(t, 11 * nbDraw, 0, 11, ok(nbDraw), act(nbDraw));
    if card !in seen {
      RowLoopWF(ok, act, shown, pool, seen + {card}, nbDraw + 1, t1);
    }
  }

  /** Every entry the loop adds is a passing position's action in one of its rows. */
  lemma {:induction false} RowLoopOnly(ok: nat -> int -> bool, act: nat -> int -> Action, shown: nat -> Card, pool: set<Card>,
    seen: set<Card>, nbDraw: nat, t: Table)
    requires forall n: nat :: shown(n) in pool
    ensures var r := RowLoop(ok, act, shown, pool, seen, nbDraw, t); OnlyRows(ok, act, nbDraw, nbDraw + r.1, t, r.0)
    decreases pool - seen
  {
    var t1 := Row(ok, act, nbDraw, t);
    var card := shown(nbDraw + 1);
    RowOnly(ok, act, nbDraw, t);
    if card !in seen {
      var rest := RowLoop(ok, act, shown, pool, seen + {card}, nbDraw + 1, t1);
      RowLoopOnly(ok, act, shown, pool, seen + {card}, nbDraw + 1, t1);
      OnlyJoin(ok, act, nbDraw, t, t1, rest.0, rest.1);
    } else {
      OnlyOne(ok, act, nbDraw, t, t1);
    }
  }

  /** The loop changes only the slots of the rows it runs. */
  lemma {:induction false} RowLoopFrame(ok: nat -> int -> bool, act: nat -> int -> Action, shown: nat -> Card, pool: set<Card>,
    seen: set<Card>, nbDraw: nat, t: Table)
    requires forall n: nat :: shown(n) in pool
    ensures var r := RowLoop(ok, act, shown, pool, seen, nbDraw, t); KeepsOutside(11 * nbDraw, 11 * (nbDraw + r.1), t, r.0)
    decreases pool - seen
  {
    var t1 := Row(ok, act, nbDraw, t);
    var card := shown(nbDraw + 1);
    RowFrame(ok, act, nbDraw, t);
    if card !in seen {
      RowLoopFrame(ok, act, shown, pool, seen + {card}, nbDraw + 1, t1);
    }
  }

  /** Rows lo .. hi - 1 hold their passing positions' actions. */
  ghost predicate RowsWritten(ok: nat -> int -> bool, act: nat -> int -> Action, lo: nat, hi: nat, t: Table)
  {
    forall n: nat, j :: lo <= n < hi && 0 <= j < 11 && ok(n)(j) ==>
      11 * n + j in t.entries && t.entries[11 * n + j] == act(n)(j)
  }

  /** One row on its own. */
  lemma RowsOne(ok: nat -> int -> bool, act: nat -> int -> Action, nbDraw: nat, t1: Table)
    requires WritesRow(ok, act, nbDraw, t1)
    ensures RowsWritten(ok, act, nbDraw, nbDraw + 1, t1)
  {
    forall n: nat, j | nbDraw <= n < nbDraw + 1 && 0 <= j < 11 && ok(n)(j)
      ensures 11 * n + j in t1.entries && t1.entries[11 * n + j] == act(n)(j)
    {
      assert n == nbDraw;
    }
  }

  /** Row `nbDraw`'s entries, kept by the later rows, join the later rows' entries. */
  lemma RowsJoin(ok: nat -> int -> bool, act: nat -> int -> Action, nbDraw: nat, t1: Table, rest: Table, rows: nat)
    requires WritesRow(ok, act, nbDraw, t1)
    requires KeepsOutside(11 * (nbDraw + 1), 11 * (nbDraw + 1 + rows), t1, rest)
    requires RowsWritten(ok, act, nbDraw + 1, nbDraw + 1 + rows, rest)
    ensures RowsWritten(ok, act, nbDraw, nbDraw + 1 + rows, rest)
  {
    forall n: nat, j | nbDraw <= n < nbDraw + 1 + rows && 0 <= j < 11 && ok(n)(j)
      ensures 11 * n + j in rest.entries && rest.entries[11 * n + j] == act(n)(j)
    {
      if n == nbDraw {
        assert 11 * n + j < 11 * (nbDraw + 1);
      }
    }
  }

  /** Every passing position of every row the loop runs holds its action. */
  lemma {:induction false} RowLoopWrites(ok: nat -> int -> bool, act: nat -> int -> Action, shown: nat -> Card, pool: set<Card>,
    seen: set<Card>, nbDraw: nat, t: Table)
    requires forall n: nat :: shown(n) in pool
    ensures var r := RowLoop(ok, act, shown, pool, seen, nbDraw, t); RowsWritten(ok, act, nbDraw, nbDraw + r.1, r.0)
    decreases pool - seen
  {
    var t1 := Row(ok, act, nbDraw, t);
    var card := shown(nbDraw + 1);
    RowWrites(ok, act, nbDraw, t);
    if card !in seen {
      var rest := RowLoop(ok, act, shown, pool, seen + {card}, nbDraw + 1, t1);
      RowLoopWrites(ok, act, shown, pool, seen + {card}, nbDraw + 1, t1);
      RowLoopFrame(ok, act, shown, pool, seen + {card}, nbDraw + 1, t1);
      RowsJoin(ok, act, nbDraw, t1, rest.0, rest.1);
    } else {
      RowsOne(ok, act, nbDraw, t1);
    }
  }

  // ----- Deck prefix -----

  /** Row position `j` of a deck rotation: the four heaps, then the seven columns. */
  predicate RowOk(g: Board, j: int)
  {
    BoardWF(g) && 0 <= j < SLOTS_PER_ROTATION && CanDraw(g) && |g.window| > 0
    && var card := g.subDeck[TopIndex(g)];
    if j < NB_HEAPS then Heaps.CanAdd(g.heaps[j], card) else Columns.CanAdd(g.columns[j - NB_HEAPS], card)
  }

  function RowAction(j: int, nbDraw: int): (a: Action)
    ensures SlotOf(a) == SLOTS_PER_ROTATION * nbDraw + j
  {
    if j < NB_HEAPS then DeckToHeap(j, nbDraw) else DeckToColumn(j - NB_HEAPS, nbDraw)
  }

  /** A deck move that is possible on board `b` after its `nbDraw` draws. */
  predicate DeckLegal(b: Board, a: Action)
  {
    BoardWF(b)
    && ((a.DeckToHeap? && 0 <= a.heap < NB_HEAPS && a.nbDraw >= 0 && CanDeckToHeap(b, a.heap, a.nbDraw))
        || (a.DeckToColumn? && 0 <= a.col < NB_COLUMNS && a.nbDraw >= 0 && CanDeckToColumn(b, a.col, a.nbDraw)))
  }

  /** Testing row position j after n draws (`can_deck_to_heap(heap, 0)` on the drawn copy) is
      testing the deck move with n draws. */
  lemma RowLegal(b0: Board, n: nat, j: int)
    requires BoardWF(b0) && 0 <= j < SLOTS_PER_ROTATION
    ensures RowOk(Draws(b0, n), j) <==> DeckLegal(b0, RowAction(j, n))
    ensures j < NB_HEAPS ==> (RowOk(Draws(b0, n), j) <==> CanDeckToHeap(Draws(b0, n), j, 0))
    ensures j >= NB_HEAPS ==> (RowOk(Draws(b0, n), j) <==> CanDeckToColumn(Draws(b0, n), j - NB_HEAPS, 0))
  {
  }

  function RowTests(g: Board): int -> bool
  {
    j => RowOk(g, j)
  }

  function RowActions(nbDraw: int): int -> Action
  {
    j => RowAction(j, nbDraw)
  }

  /** A drawn board is the next board of the draw sequence. */
  lemma {:induction false} DrawsSucc(b: Board, n: nat)
    requires BoardWF(b)
    ensures Draws(b, n + 1) == DrawBoard(Draws(b, n))
    decreases n
  {
    if n > 0 {
      DrawsSucc(DrawBoard(b), n - 1);
    }
  }

  /** The card on top of the window after `n` draws. */
  function ShownAfter(b0: Board, n: nat): (c: Card)
    requires BoardWF(b0) && CanDraw(b0) && n >= 1
    ensures c in b0.subDeck
  {
    var g := Draws(b0, n);
    DrawsSucc(b0, n - 1);
    g.subDeck[TopIndex(g)]
  }

  /** The shown card and the row tests and actions as the values the row loop runs on: row n
      tests the deck moves on the board after n draws (`can_deck_to_heap(heap, 0)` and
      `can_deck_to_column(col, 0)` on the drawn copy) and writes them with n draws. */
  function DeckShown(b0: Board): nat -> Card
    requires BoardWF(b0) && CanDraw(b0)
  {
    (n: nat) => if n >= 1 then ShownAfter(b0, n) else b0.subDeck[0]
  }

  function DeckTest(b0: Board): nat -> int -> bool
    requires BoardWF(b0)
  {
    (n: nat) => RowTests(Draws(b0, n))
  }

  function DeckAct(): nat -> int -> Action
  {
    (n: nat) => RowActions(n)
  }

  lemma DeckShownInDeck(b0: Board)
    requires BoardWF(b0) && CanDraw(b0)
    ensures forall n: nat :: DeckShown(b0)(n) in DeckPool(b0)
  {
  }

  /** Every entry of the table is a possible deck move at its own slot. */
  ghost predicate DeckSound(b0: Board, t: Table)
  {
    forall s :: s in t.entries ==> SlotOf(t.entries[s]) == s && DeckLegal(b0, t.entries[s])
  }

  /** Position j of row n, when its test passes, is a possible deck move with slot 11 * n + j. */
  lemma RowEntryLegal(b0: Board, nbDraw: nat, j: int)
    requires BoardWF(b0) && 0 <= j < 11 && DeckTest(b0)(nbDraw)(j)
    ensures SlotOf(RowAction(j, nbDraw)) == 11 * nbDraw + j && DeckLegal(b0, RowAction(j, nbDraw))
  {
    assert RowTests(Draws(b0, nbDraw))(j);
    RowLegal(b0, nbDraw, j);
  }

  /** Every possible deck move of rows lo .. hi - 1 is in the table at its slot. */
  ghost predicate RowsIn(b0: Board, lo: nat, hi: nat, t: Table)
    requires BoardWF(b0)
  {
    forall n: nat, j :: lo <= n < hi && 0 <= j < 11 && RowOk(Draws(b0, n), j) ==>
      11 * n + j in t.entries && t.entries[11 * n + j] == RowAction(j, n)
  }

  lemma RowsInOfWritten(b0: Board, hi: nat, t: Table)
    requires BoardWF(b0) && RowsWritten(DeckTest(b0), DeckAct(), 0, hi, t)
    ensures RowsIn(b0, 0, hi, t)
  {
    forall n: nat, j | 0 <= n < hi && 0 <= j < 11 && RowOk(Draws(b0, n), j)
      ensures 11 * n + j in t.entries && t.entries[11 * n + j] == RowAction(j, n)
    {
      assert RowTests(Draws(b0, n))(j);
      assert DeckTest(b0)(n)(j) && DeckAct()(n)(j) == RowAction(j, n);
    }
  }

  /** The deck prefix of the table: nothing when the sub-deck is empty; otherwise rotations visited
      from the current window on, with the shown top card already counted as seen, until a newly
      shown top card was seen before. Returns the table and the number of rotations visited. */
  function DeckPrefix(b: Board): (r: (Table, nat))
    requires BoardWF(b)
    ensures r.1 <= |b.subDeck| + 1
  {
    if !CanDraw(b) then (EMPTY_TABLE, 0)
    else
      var seen := DeckSeen(b);
      CardinalityOfElements(b.subDeck);
      assert DeckPool(b) - seen <= DeckPool(b);
      DeckRows(b, seen)
  }

  /** The top card shown before the first draw, counted as seen. */
  function DeckSeen(b: Board): set<Card>
    requires BoardWF(b)
  {
    if |b.window| > 0 then {b.subDeck[TopIndex(b)]} else {}
  }

  /** Every entry of the deck part is a possible deck move at its own slot. */
  lemma DeckPrefixSound(b: Board)
    requires BoardWF(b)
    ensures DeckSound(b, DeckPrefix(b).0)
  {
    if CanDraw(b) {
      DeckRowsSound(b, DeckSeen(b));
    }
  }

  /** The deck part uses only the slots of the rotations it visited. */
  lemma DeckPrefixSlots(b: Board)
    requires BoardWF(b)
    ensures forall s :: s in DeckPrefix(b).0.entries ==> 0 <= s < 11 * DeckPrefix(b).1
  {
    if CanDraw(b) {
      DeckRowsSlots(b, DeckSeen(b));
    }
  }

  /** Every possible deck move of a visited rotation is in the deck part at its slot. */
  lemma DeckPrefixComplete(b: Board)
    requires BoardWF(b)
    ensures RowsIn(b, 0, DeckPrefix(b).1, DeckPrefix(b).0)
  {
    if CanDraw(b) {
      DeckRowsComplete(b, DeckSeen(b));
    }
  }

  /** The distinct cards of the sub-deck. */
  function DeckPool(b: Board): set<Card>
  {
    set c | c in b.subDeck
  }

  /** The loop of deck rows from the window of `b`, with `seen` counted as seen. */
  function DeckRows(b: Board, seen: set<Card>): (r: (Table, nat))
    requires BoardWF(b) && CanDraw(b)
    ensures 1 <= r.1 <= |DeckPool(b) - seen| + 1
  {
    DeckShownInDeck(b);
    RowLoop(DeckTest(b), DeckAct(), DeckShown(b), DeckPool(b), seen, 0, EMPTY_TABLE)
  }

  lemma DeckPrefixWF(b: Board)
    requires BoardWF(b)
    ensures TableWF(DeckPrefix(b).0)
  {
    if CanDraw(b) {
      DeckShownInDeck(b);
      RowLoopWF(DeckTest(b), DeckAct(), DeckShown(b), DeckPool(b), DeckSeen(b), 0, EMPTY_TABLE);
    }
  }

  lemma DeckRowsSound(b: Board, seen: set<Card>)
    requires BoardWF(b) && CanDraw(b)
    ensures DeckSound(b, DeckRows(b, seen).0)
  {
    var r := DeckRows(b, seen);
    DeckShownInDeck(b);
    RowLoopOnly(DeckTest(b), DeckAct(), DeckShown(b), DeckPool(b), seen, 0, EMPTY_TABLE);
    forall s | s in r.0.entries
      ensures SlotOf(r.0.entries[s]) == s && DeckLegal(b, r.0.entries[s])
    {
      RowEntryLegal(b, s / 11, s % 11);
    }
  }

  lemma DeckRowsSlots(b: Board, seen: set<Card>)
    requires BoardWF(b) && CanDraw(b)
    ensures var r := DeckRows(b, seen); forall s :: s in r.0.entries ==> 0 <= s < 11 * r.1
  {
    DeckShownInDeck(b);
    RowLoopFrame(DeckTest(b), DeckAct(), DeckShown(b), DeckPool(b), seen, 0, EMPTY_TABLE);
  }

  lemma DeckRowsComplete(b: Board, seen: set<Card>)
    requires BoardWF(b) && CanDraw(b)
    ensures RowsIn(b, 0, DeckRows(b, seen).1, DeckRows(b, seen).0)
  {
    DeckShownInDeck(b);
    RowLoopWrites(DeckTest(b), DeckAct(), DeckShown(b), DeckPool(b), seen, 0, EMPTY_TABLE);
    RowsInOfWritten(b, DeckRows(b, seen).1, DeckRows(b, seen).0);
  }

  lemma {:induction false} CardinalityOfElements(s: seq<Card>)
    ensures |set c | c in s| <= |s|
    decreases |s|
  {
    if |s| > 0 {
      CardinalityOfElements(s[1..]);
      assert (set c | c in s) == (set c | c in s[1..]) + {s[0]};
    }
  }

  // ----- Column to heap -----

  predicate ColHeapOk(b: Board, k: int)
  {
    BoardWF(b) && 0 <= k < 28 && CanColumnToHeap(b, k % 7, k / 7)
  }

  /** Column-to-heap slots 99 + k, k = 7 * heap + col, heaps outer. */
  function ColHeapTest(b: Board): int -> bool
  {
    k => ColHeapOk(b, k)
  }

  function ColHeapAction(k: int): Action
  {
    ColumnToHeap(k % 7, k / 7)
  }

  // ----- Heap to column -----

  /** Cycle filter: the move's resulting fingerprint must not be on the stack. */
  predicate HeapColFresh(e: Engine, heap: int, col: int)
    requires BoardWF(e.board) && 0 <= heap < NB_HEAPS && 0 <= col < NB_COLUMNS
    requires Heaps.CanRemove(e.board.heaps[heap])
  {
    Fingerprint(Klondike.HeapToColumn(e, heap, col).codes) !in e.stack
  }

  predicate HeapColOk(e: Engine, k: int)
  {
    BoardWF(e.board) && 0 <= k < 28 && CanHeapToColumn(e.board, k / 7, k % 7) && HeapColFresh(e, k / 7, k % 7)
  }

  /** Heap-to-column slots 127 + k, k = 7 * heap + col, heaps outer. */
  function HeapColTest(e: Engine): int -> bool
  {
    k => HeapColOk(e, k)
  }

  function HeapColAction(k: int): Action
  {
    HeapToColumn(k / 7, k % 7)
  }

  // ----- Column to column -----

  /** `nbCards` cards may move from col1 to col2 and the result is not on the stack. */
  predicate Qualifies(e: Engine, col1: int, col2: int, nbCards: int, pick: Picker)
    requires BoardWF(e.board) && 0 <= col1 < NB_COLUMNS && 0 <= col2 < NB_COLUMNS
  {
    1 <= nbCards <= |e.board.columns[col1].cards|
    && CanColumnToColumn(e.board, col1, col2, nbCards)
    && Fingerprint(Klondike.ColumnToColumn(e, col1, col2, nbCards, pick(col1, col2, nbCards)).codes) !in e.stack
  }

  function QualifyTest(e: Engine, col1: int, col2: int, pick: Picker): int -> bool
    requires BoardWF(e.board) && 0 <= col1 < NB_COLUMNS && 0 <= col2 < NB_COLUMNS
  {
    m => Qualifies(e, col1, col2, m, pick)
  }

  /** The loop over nbCards = 1 .. len keeping the last qualifying count; -1 when none does. */
  function MaxRun(e: Engine, col1: int, col2: int, pick: Picker): (r: int)
    requires BoardWF(e.board) && 0 <= col1 < NB_COLUMNS && 0 <= col2 < NB_COLUMNS
    ensures r == -1 || 1 <= r <= |e.board.columns[col1].cards|
  {
    LastFrom(QualifyTest(e, col1, col2, pick), |e.board.columns[col1].cards|, 1, -1)
  }

  /** MaxRun is -1 exactly when no count qualifies; otherwise it qualifies and no larger count does. */
  lemma MaxRunSpec(e: Engine, col1: int, col2: int, pick: Picker)
    requires BoardWF(e.board) && 0 <= col1 < NB_COLUMNS && 0 <= col2 < NB_COLUMNS
    ensures MaxRun(e, col1, col2, pick) != -1 ==> Qualifies(e, col1, col2, MaxRun(e, col1, col2, pick), pick)
    ensures forall m :: MaxRun(e, col1, col2, pick) < m <= |e.board.columns[col1].cards| && 1 <= m ==>
      !Qualifies(e, col1, col2, m, pick)
    ensures MaxRun(e, col1, col2, pick) == -1 <==>
      forall m :: 1 <= m <= |e.board.columns[col1].cards| ==> !Qualifies(e, col1, col2, m, pick)
  {
    var q := QualifyTest(e, col1, col2, pick);
    var len := |e.board.columns[col1].cards|;
    LastFromPasses(q, len, 1, -1);
    forall m | MaxRun(e, col1, col2, pick) < m <= len && 1 <= m
      ensures !Qualifies(e, col1, col2, m, pick)
    {
      LastFromMaximal(q, len, 1, -1, m);
      assert !q(m);
    }
  }

  predicate ColColOk(e: Engine, p: int, pick: Picker)
  {
    BoardWF(e.board) && 0 <= p < 42 && MaxRun(e, PairOf(p).0, PairOf(p).1, pick) != -1
  }

  function ColColAction(e: Engine, p: int, pick: Picker): Action
  {
    if BoardWF(e.board) && 0 <= p < 42 then
      ColumnToColumn(PairOf(p).0, PairOf(p).1, MaxRun(e, PairOf(p).0, PairOf(p).1, pick))
    else
      Draw
  }

  /** Column-to-column slots 155 + p over the ordered pairs p, col1 outer. */
  function ColColTest(e: Engine, pick: Picker): int -> bool
  {
    p => ColColOk(e, p, pick)
  }

  function ColColActions(e: Engine, pick: Picker): int -> Action
  {
    p => ColColAction(e, p, pick)
  }

  // ----- The whole table -----

  /** The three fixed-layout fills, in order, over the deck part `t0`. */
  function Phases(t0: Table, test1: int -> bool, act1: int -> Action, test2: int -> bool, act2: int -> Action,
    test3: int -> bool, act3: int -> Action): Table
  {
    Fill(Fill(Fill(t0, COL_HEAP_BASE, 0, 28, test1, act1), HEAP_COL_BASE, 0, 28, test2, act2), COL_COL_BASE, 0, 42, test3, act3)
  }

  /** `legal_actions`: the deck prefix, then the three fixed-layout phases. */
  function LegalTable(e: Engine, pick: Picker): Table
    requires BoardWF(e.board)
  {
    Phases(DeckPrefix(e.board).0, ColHeapTest(e.board), ColHeapAction, HeapColTest(e), HeapColAction,
      ColColTest(e, pick), ColColActions(e, pick))
  }

  /** The table lists every slot once, in insertion order. */
  lemma LegalTableWF(e: Engine, pick: Picker)
    requires BoardWF(e.board)
    ensures TableWF(LegalTable(e, pick))
  {
    var t0 := DeckPrefix(e.board).0;
    var t1 := Fill(t0, COL_HEAP_BASE, 0, 28, ColHeapTest(e.board), ColHeapAction);
    var t2 := Fill(t1, HEAP_COL_BASE, 0, 28, HeapColTest(e), HeapColAction);
    DeckPrefixWF(e.board);
    FillWF(t0, COL_HEAP_BASE, 0, 28, ColHeapTest(e.board), ColHeapAction);
    FillWF(t1, HEAP_COL_BASE, 0, 28, HeapColTest(e), HeapColAction);
    FillWF(t2, COL_COL_BASE, 0, 42, ColColTest(e, pick), ColColActions(e, pick));
  }

  /** Slots below 99 keep the deck part's entries. */
  lemma PhasesKeep(t0: Table, test1: int -> bool, act1: int -> Action, test2: int -> bool, act2: int -> Action,
    test3: int -> bool, act3: int -> Action, s: int, a: Action)
    requires s < COL_HEAP_BASE && Holds(t0, s, a)
    ensures Holds(Phases(t0, test1, act1, test2, act2, test3, act3), s, a)
  {
    var t1 := Fill(t0, COL_HEAP_BASE, 0, 28, test1, act1);
    var t2 := Fill(t1, HEAP_COL_BASE, 0, 28, test2, act2);
    FillKeeps(t0, COL_HEAP_BASE, 28, test1, act1, s);
    FillKeeps(t1, HEAP_COL_BASE, 28, test2, act2, s);
    FillKeeps(t2, COL_COL_BASE, 42, test3, act3, s);
  }

  /** A passing column-to-heap test leaves its action at slot 99 + k. */
  lemma PhasesHas1(t0: Table, test1: int -> bool, act1: int -> Action, test2: int -> bool, act2: int -> Action,
    test3: int -> bool, act3: int -> Action, k: int, s: int, a: Action)
    requires 0 <= k < 28 && test1(k) && act1(k) == a && s == COL_HEAP_BASE + k
    ensures Holds(Phases(t0, test1, act1, test2, act2, test3, act3), s, a)
  {
    var t1 := Fill(t0, COL_HEAP_BASE, 0, 28, test1, act1);
    var t2 := Fill(t1, HEAP_COL_BASE, 0, 28, test2, act2);
    FillHas(t0, COL_HEAP_BASE, 28, test1, act1, k);
    FillKeeps(t1, HEAP_COL_BASE, 28, test2, act2, COL_HEAP_BASE + k);
    FillKeeps(t2, COL_COL_BASE, 42, test3, act3, COL_HEAP_BASE + k);
  }

  /** A passing heap-to-column test leaves its action at slot 127 + k. */
  lemma PhasesHas2(t0: Table, test1: int -> bool, act1: int -> Action, test2: int -> bool, act2: int -> Action,
    test3: int -> bool, act3: int -> Action, k: int, s: int, a: Action)
    requires 0 <= k < 28 && test2(k) && act2(k) == a && s == HEAP_COL_BASE + k
    ensures Holds(Phases(t0, test1, act1, test2, act2, test3, act3), s, a)
  {
    var t1 := Fill(t0, COL_HEAP_BASE, 0, 28, test1, act1);
    var t2 := Fill(t1, HEAP_COL_BASE, 0, 28, test2, act2);
    FillHas(t1, HEAP_COL_BASE, 28, test2, act2, k);
    FillKeeps(t2, COL_COL_BASE, 42, test3, act3, HEAP_COL_BASE + k);
  }

  /** A passing column-to-column test leaves its action at slot 155 + p. */
  lemma PhasesHas3(t0: Table, test1: int -> bool, act1: int -> Action, test2: int -> bool, act2: int -> Action,
    test3: int -> bool, act3: int -> Action, p: int, s: int, a: Action)
    requires 0 <= p < 42 && test3(p) && act3(p) == a && s == COL_COL_BASE + p
    ensures Holds(Phases(t0, test1, act1, test2, act2, test3, act3), s, a)
  {
    var t1 := Fill(t0, COL_HEAP_BASE, 0, 28, test1, act1);
    var t2 := Fill(t1, HEAP_COL_BASE, 0, 28, test2, act2);
    FillHas(t2, COL_COL_BASE, 42, test3, act3, p);
  }

  /** What makes an action legal in state `e`: a possible deck move; a possible column-to-heap
      move; a possible heap-to-column move whose result is not on the stack; or, for an ordered
      pair of distinct columns, the largest qualifying card count. */
  predicate EntryLegal(e: Engine, pick: Picker, a: Action)
  {
    BoardWF(e.board)
    && (DeckLegal(e.board, a)
        || (a.ColumnToHeap? && 0 <= a.col < NB_COLUMNS && 0 <= a.heap < NB_HEAPS
            && CanColumnToHeap(e.board, a.col, a.heap))
        || (a.HeapToColumn? && 0 <= a.heap < NB_HEAPS && 0 <= a.col < NB_COLUMNS
            && CanHeapToColumn(e.board, a.heap, a.col) && HeapColFresh(e, a.heap, a.col))
        || (a.ColumnToColumn? && 0 <= a.col1 < NB_COLUMNS && 0 <= a.col2 < NB_COLUMNS && a.col1 != a.col2
            && a.nbCards != -1 && a.nbCards == MaxRun(e, a.col1, a.col2, pick)))
  }

  /** The entry property the whole table keeps: the action sits at its own slot and is legal. */
  function SoundAt(e: Engine, pick: Picker): (int, Action) -> bool
  {
    (s: int, a: Action) => SlotOf(a) == s && EntryLegal(e, pick, a)
  }

  lemma DeckPartSound(e: Engine, pick: Picker, t: Table)
    requires DeckSound(e.board, t)
    ensures AllEntries(t, SoundAt(e, pick))
  {
    forall s | s in t.entries
      ensures SoundAt(e, pick)(s, t.entries[s])
    {
      assert SlotOf(t.entries[s]) == s && DeckLegal(e.board, t.entries[s]);
      assert EntryLegal(e, pick, t.entries[s]);
    }
  }

  lemma ColHeapSound(e: Engine, pick: Picker)
    ensures forall k :: 0 <= k < 28 && ColHeapTest(e.board)(k) ==> SoundAt(e, pick)(COL_HEAP_BASE + k, ColHeapAction(k))
  {
    forall k | 0 <= k < 28 && ColHeapTest(e.board)(k)
      ensures SoundAt(e, pick)(COL_HEAP_BASE + k, ColHeapAction(k))
    {
      assert ColHeapOk(e.board, k);
      assert k == 7 * (k / 7) + k % 7;
      assert SlotOf(ColHeapAction(k)) == COL_HEAP_BASE + k;
      assert EntryLegal(e, pick, ColHeapAction(k));
    }
  }

  lemma HeapColSound(e: Engine, pick: Picker)
    ensures forall k :: 0 <= k < 28 && HeapColTest(e)(k) ==> SoundAt(e, pick)(HEAP_COL_BASE + k, HeapColAction(k))
  {
    forall k | 0 <= k < 28 && HeapColTest(e)(k)
      ensures SoundAt(e, pick)(HEAP_COL_BASE + k, HeapColAction(k))
    {
      assert HeapColOk(e, k);
      assert k == 7 * (k / 7) + k % 7;
      assert SlotOf(HeapColAction(k)) == HEAP_COL_BASE + k;
      assert EntryLegal(e, pick, HeapColAction(k));
    }
  }

  lemma ColColSound(e: Engine, pick: Picker)
    ensures forall p :: 0 <= p < 42 && ColColTest(e, pick)(p) ==> SoundAt(e, pick)(COL_COL_BASE + p, ColColActions(e, pick)(p))
  {
    forall p | 0 <= p < 42 && ColColTest(e, pick)(p)
      ensures SoundAt(e, pick)(COL_COL_BASE + p, ColColActions(e, pick)(p))
    {
      assert ColColOk(e, p, pick);
      var a := ColColAction(e, p, pick);
      PairRoundTrip(0, 0, p);
      assert SlotOf(a) == COL_COL_BASE + p;
      assert EntryLegal(e, pick, a);
    }
  }

  /** Every entry of the table is a legal action at its own slot. */
  lemma LegalTableSound(e: Engine, pick: Picker)
    requires BoardWF(e.board)
    ensures forall s :: s in LegalTable(e, pick).entries ==>
      SlotOf(LegalTable(e, pick).entries[s]) == s && EntryLegal(e, pick, LegalTable(e, pick).entries[s])
  {
    var p := SoundAt(e, pick);
    var t0 := DeckPrefix(e.board).0;
    var t1 := Fill(t0, COL_HEAP_BASE, 0, 28, ColHeapTest(e.board), ColHeapAction);
    var t2 := Fill(t1, HEAP_COL_BASE, 0, 28, HeapColTest(e), HeapColAction);
    DeckPrefixSound(e.board);
    DeckPartSound(e, pick, t0);
    ColHeapSound(e, pick);
    FillAll(t0, COL_HEAP_BASE, 28, ColHeapTest(e.board), ColHeapAction, p);
    HeapColSound(e, pick);
    FillAll(t1, HEAP_COL_BASE, 28, HeapColTest(e), HeapColAction, p);
    ColColSound(e, pick);
    FillAll(t2, COL_COL_BASE, 42, ColColTest(e, pick), ColColActions(e, pick), p);
    assert AllEntries(LegalTable(e, pick), p);
  }

  /** A slot outside the filled range keeps its entry. */
  lemma FillKeeps(t: Table, base: int, n: nat, test: int -> bool, act: int -> Action, s: int)
    requires !(base <= s < base + n) && s in t.entries
    ensures s in Fill(t, base, 0, n, test, act).entries && Fill(t, base, 0, n, test, act).entries[s] == t.entries[s]
  {
    FillOutside(t, base, 0, n, test, act);
  }

  /** A passing position of the filled range holds its action. */
  lemma FillHas(t: Table, base: int, n: nat, test: int -> bool, act: int -> Action, i: int)
    requires 0 <= i < n && test(i)
    ensures base + i in Fill(t, base, 0, n, test, act).entries && Fill(t, base, 0, n, test, act).entries[base + i] == act(i)
  {
    FillWrites(t, base, 0, n, test, act);
  }

  /** A visited row entry, read off a table that holds all visited rows. */
  lemma RowsInAt(b0: Board, lo: nat, hi: nat, t: Table, a: Action)
    requires BoardWF(b0) && RowsIn(b0, lo, hi, t) && DeckLegal(b0, a) && lo <= a.nbDraw < hi
    ensures Holds(t, SlotOf(a), a)
  {
    var n: nat := a.nbDraw;
    var j := if a.DeckToHeap? then a.heap else NB_HEAPS + a.col;
    assert RowAction(j, n) == a;
    assert RowOk(Draws(b0, n), j) by {
      RowLegal(b0, n, j);
    }
    assert 11 * n + j in t.entries && t.entries[11 * n + j] == RowAction(j, n);
  }

  /** The table is the three fixed-layout fills over the deck part. */
  lemma LegalTableHolds(e: Engine, pick: Picker, s: int, a: Action)
    requires BoardWF(e.board)
    requires Holds(Phases(DeckPrefix(e.board).0, ColHeapTest(e.board), ColHeapAction, HeapColTest(e), HeapColAction,
      ColColTest(e, pick), ColColActions(e, pick)), s, a)
    ensures Holds(LegalTable(e, pick), s, a)
  {
  }

  /** A possible deck move of a visited rotation is in the table, unless its slot spilled
      into the fixed-layout part. */
  lemma DeckComplete(e: Engine, pick: Picker, a: Action)
    requires BoardWF(e.board) && DeckLegal(e.board, a)
    requires a.nbDraw < DeckPrefix(e.board).1 && SlotOf(a) < COL_HEAP_BASE
    ensures Holds(LegalTable(e, pick), SlotOf(a), a)
  {
    DeckPrefixComplete(e.board);
    RowsInAt(e.board, 0, DeckPrefix(e.board).1, DeckPrefix(e.board).0, a);
    PhasesKeep(DeckPrefix(e.board).0, ColHeapTest(e.board), ColHeapAction, HeapColTest(e), HeapColAction,
      ColColTest(e, pick), ColColActions(e, pick), SlotOf(a), a);
    LegalTableHolds(e, pick, SlotOf(a), a);
  }

  /** The column-to-heap block entry of `col` and `heap`: its test passes, it names the move,
      and it is the move's slot. */
  lemma ColHeapAt(b: Board, test1: int -> bool, act1: int -> Action, col: int, heap: int)
    requires BoardWF(b) && 0 <= col < NB_COLUMNS && 0 <= heap < NB_HEAPS
    requires test1 == ColHeapTest(b) && act1 == ColHeapAction
    ensures 0 <= 7 * heap + col < 28
    ensures test1(7 * heap + col) <==> CanColumnToHeap(b, col, heap)
    ensures act1(7 * heap + col) == ColumnToHeap(col, heap)
    ensures SlotOf(ColumnToHeap(col, heap)) == COL_HEAP_BASE + (7 * heap + col)
  {
    DivModUnique(heap, col, 7);
  }

  /** The heap-to-column block entry of `heap` and `col`. */
  lemma HeapColAt(e: Engine, test2: int -> bool, act2: int -> Action, heap: int, col: int)
    requires BoardWF(e.board) && 0 <= col < NB_COLUMNS && 0 <= heap < NB_HEAPS
    requires test2 == HeapColTest(e) && act2 == HeapColAction
    ensures 0 <= 7 * heap + col < 28
    ensures test2(7 * heap + col) <==> CanHeapToColumn(e.board, heap, col) && HeapColFresh(e, heap, col)
    ensures act2(7 * heap + col) == HeapToColumn(heap, col)
    ensures SlotOf(HeapToColumn(heap, col)) == HEAP_COL_BASE + (7 * heap + col)
  {
    DivModUnique(heap, col, 7);
  }

  /** The column-to-column entry of the ordered pair `col1`, `col2`. */
  lemma ColColAt(e: Engine, pick: Picker, test3: int -> bool, act3: int -> Action, col1: int, col2: int)
    requires BoardWF(e.board) && 0 <= col1 < NB_COLUMNS && 0 <= col2 < NB_COLUMNS && col1 != col2
    requires test3 == ColColTest(e, pick) && act3 == ColColActions(e, pick)
    ensures 0 <= PairIndex(col1, col2) < 42
    ensures test3(PairIndex(col1, col2)) <==> MaxRun(e, col1, col2, pick) != -1
    ensures act3(PairIndex(col1, col2)) == ColumnToColumn(col1, col2, MaxRun(e, col1, col2, pick))
    ensures SlotOf(ColumnToColumn(col1, col2, MaxRun(e, col1, col2, pick))) == COL_COL_BASE + PairIndex(col1, col2)
  {
    PairRoundTrip(col1, col2, 0);
  }

  /** A possible column-to-heap move is in the table. */
  lemma ColHeapComplete(e: Engine, pick: Picker, col: int, heap: int)
    requires BoardWF(e.board) && 0 <= col < NB_COLUMNS && 0 <= heap < NB_HEAPS
    requires CanColumnToHeap(e.board, col, heap)
    ensures Holds(LegalTable(e, pick), SlotOf(ColumnToHeap(col, heap)), ColumnToHeap(col, heap))
  {
    ColHeapAt(e.board, ColHeapTest(e.board), ColHeapAction, col, heap);
    PhasesHas1(DeckPrefix(e.board).0, ColHeapTest(e.board), ColHeapAction, HeapColTest(e), HeapColAction,
      ColColTest(e, pick), ColColActions(e, pick), 7 * heap + col, SlotOf(ColumnToHeap(col, heap)), ColumnToHeap(col, heap));
    LegalTableHolds(e, pick, SlotOf(ColumnToHeap(col, heap)), ColumnToHeap(col, heap));
  }

  /** A possible heap-to-column move whose result is not on the stack is in the table. */
  lemma HeapColComplete(e: Engine, pick: Picker, heap: int, col: int)
    requires BoardWF(e.board) && 0 <= col < NB_COLUMNS && 0 <= heap < NB_HEAPS
    requires CanHeapToColumn(e.board, heap, col) && HeapColFresh(e, heap, col)
    ensures Holds(LegalTable(e, pick), SlotOf(HeapToColumn(heap, col)), HeapToColumn(heap, col))
  {
    HeapColAt(e, HeapColTest(e), HeapColAction, heap, col);
    PhasesHas2(DeckPrefix(e.board).0, ColHeapTest(e.board), ColHeapAction, HeapColTest(e), HeapColAction,
      ColColTest(e, pick), ColColActions(e, pick), 7 * heap + col, SlotOf(HeapToColumn(heap, col)), HeapToColumn(heap, col));
    LegalTableHolds(e, pick, SlotOf(HeapToColumn(heap, col)), HeapToColumn(heap, col));
  }

  /** For two distinct columns with a qualifying count, the largest one is in the table. */
  lemma ColColComplete(e: Engine, pick: Picker, col1: int, col2: int)
    requires BoardWF(e.board) && 0 <= col1 < NB_COLUMNS && 0 <= col2 < NB_COLUMNS && col1 != col2
    requires MaxRun(e, col1, col2, pick) != -1
    ensures Holds(LegalTable(e, pick), SlotOf(ColumnToColumn(col1, col2, MaxRun(e, col1, col2, pick))),
      ColumnToColumn(col1, col2, MaxRun(e, col1, col2, pick)))
  {
    var a := ColumnToColumn(col1, col2, MaxRun(e, col1, col2, pick));
    ColColAt(e, pick, ColColTest(e, pick), ColColActions(e, pick), col1, col2);
    PhasesHas3(DeckPrefix(e.board).0, ColHeapTest(e.board), ColHeapAction, HeapColTest(e), HeapColAction,
      ColColTest(e, pick), ColColActions(e, pick), PairIndex(col1, col2), SlotOf(a), a);
    LegalTableHolds(e, pick, SlotOf(a), a);
  }
}
