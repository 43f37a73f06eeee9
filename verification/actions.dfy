/** Actions, the fixed action-index layout, slot names and the insertion-ordered action table. */
module Actions {
  import opened Seqs

  const NB_CARDS_SUBDECK: int := 24
  const NB_HEAPS: int := 4
  const NB_COLUMNS: int := 7

  /** The six action kinds with their arguments; `nbDraw` counts the draws played before a deck move. */
  datatype Action =
    | Draw
    | DeckToHeap(heap: int, nbDraw: int)
    | DeckToColumn(col: int, nbDraw: int)
    | ColumnToHeap(col: int, heap: int)
    | HeapToColumn(heap: int, col: int)
    | ColumnToColumn(col1: int, col2: int, nbCards: int)

  /** Rotations reserved for deck moves: int(24 / 3 + 1) = 9. */
  const DECK_ROTATIONS: int := NB_CARDS_SUBDECK / 3 + 1
  const SLOTS_PER_ROTATION: int := NB_HEAPS + NB_COLUMNS
  const COL_HEAP_BASE: int := DECK_ROTATIONS * NB_HEAPS + DECK_ROTATIONS * NB_COLUMNS
  const HEAP_COL_BASE: int := COL_HEAP_BASE + NB_HEAPS * NB_COLUMNS
  const COL_COL_BASE: int := HEAP_COL_BASE + NB_HEAPS * NB_COLUMNS
  const TABLE_SIZE: int := COL_COL_BASE + NB_COLUMNS * (NB_COLUMNS - 1)

  lemma LayoutConstants()
    ensures DECK_ROTATIONS == 9 && SLOTS_PER_ROTATION == 11
    ensures COL_HEAP_BASE == 99 && HEAP_COL_BASE == 127 && COL_COL_BASE == 155 && TABLE_SIZE == 197
  {
  }

  /** Position of the ordered pair (col1, col2), col1 != col2, in row-major order without the diagonal. */
  function PairIndex(col1: int, col2: int): int
  {
    (NB_COLUMNS - 1) * col1 + (if col2 < col1 then col2 else col2 - 1)
  }

  function PairOf(p: int): (r: (int, int))
    requires 0 <= p < NB_COLUMNS * (NB_COLUMNS - 1)
    ensures 0 <= r.0 < NB_COLUMNS && 0 <= r.1 < NB_COLUMNS && r.0 != r.1
  {
    var col1 := p / (NB_COLUMNS - 1);
    var k := p % (NB_COLUMNS - 1);
    (col1, if k < col1 then k else k + 1)
  }

  /** PairOf and PairIndex are inverse to each other. */
  lemma PairRoundTrip(col1: int, col2: int, p: int)
    ensures 0 <= col1 < NB_COLUMNS && 0 <= col2 < NB_COLUMNS && col1 != col2 ==>
      0 <= PairIndex(col1, col2) < NB_COLUMNS * (NB_COLUMNS - 1) && PairOf(PairIndex(col1, col2)) == (col1, col2)
    ensures 0 <= p < NB_COLUMNS * (NB_COLUMNS - 1) ==> PairIndex(PairOf(p).0, PairOf(p).1) == p
  {
    if 0 <= col1 < NB_COLUMNS && 0 <= col2 < NB_COLUMNS && col1 != col2 {
      var k := if col2 < col1 then col2 else col2 - 1;
      assert 0 <= k < 6;
      DivModUnique(col1, k, 6);
    }
    if 0 <= p < NB_COLUMNS * (NB_COLUMNS - 1) {
      assert p == 6 * (p / 6) + p % 6;
    }
  }

  lemma DivModUnique(q: int, k: int, d: int)
    requires d == 6 || d == 7 || d == 11
    requires 0 <= k < d && q >= 0
    ensures (d * q + k) / d == q && (d * q + k) % d == k
  {
    var n := d * q + k;
    if d == 6 {
      assert n == 6 * q + k;
    } else if d == 7 {
      assert n == 7 * q + k;
    } else {
      assert n == 11 * q + k;
    }
  }

  /** The slot an action occupies in the action table. */
  function SlotOf(a: Action): int
  {
    match a
    case Draw => -1
    case DeckToHeap(heap, nbDraw) => SLOTS_PER_ROTATION * nbDraw + heap
    case DeckToColumn(col, nbDraw) => SLOTS_PER_ROTATION * nbDraw + NB_HEAPS + col
    case ColumnToHeap(col, heap) => COL_HEAP_BASE + NB_COLUMNS * heap + col
    case HeapToColumn(heap, col) => HEAP_COL_BASE + NB_COLUMNS * heap + col
    case ColumnToColumn(col1, col2, _) => COL_COL_BASE + PairIndex(col1, col2)
  }

  /** What a slot is called; column-to-column names do not carry the card count. */
  datatype Name =
    | DeckToHeapName(heap: int, nbDraw: int)
    | DeckToColumnName(col: int, nbDraw: int)
    | ColumnToHeapName(col: int, heap: int)
    | HeapToColumnName(heap: int, col: int)
    | ColumnToColumnName(col1: int, col2: int)

  predicate ValidName(n: Name)
  {
    match n
    case DeckToHeapName(heap, nbDraw) => 0 <= heap < NB_HEAPS && 0 <= nbDraw < DECK_ROTATIONS
    case DeckToColumnName(col, nbDraw) => 0 <= col < NB_COLUMNS && 0 <= nbDraw < DECK_ROTATIONS
    case ColumnToHeapName(col, heap) => 0 <= col < NB_COLUMNS && 0 <= heap < NB_HEAPS
    case HeapToColumnName(heap, col) => 0 <= col < NB_COLUMNS && 0 <= heap < NB_HEAPS
    case ColumnToColumnName(col1, col2) => 0 <= col1 < NB_COLUMNS && 0 <= col2 < NB_COLUMNS && col1 != col2
  }

  /** The slot-name of an action. */
  function NameOf(a: Action): Name
    requires !a.Draw?
  {
    match a
    case DeckToHeap(heap, nbDraw) => DeckToHeapName(heap, nbDraw)
    case DeckToColumn(col, nbDraw) => DeckToColumnName(col, nbDraw)
    case ColumnToHeap(col, heap) => ColumnToHeapName(col, heap)
    case HeapToColumn(heap, col) => HeapToColumnName(heap, col)
    case ColumnToColumn(col1, col2, _) => ColumnToColumnName(col1, col2)
  }

  function NameSlot(n: Name): int
  {
    match n
    case DeckToHeapName(heap, nbDraw) => SlotOf(DeckToHeap(heap, nbDraw))
    case DeckToColumnName(col, nbDraw) => SlotOf(DeckToColumn(col, nbDraw))
    case ColumnToHeapName(col, heap) => SlotOf(ColumnToHeap(col, heap))
    case HeapToColumnName(heap, col) => SlotOf(HeapToColumn(heap, col))
    case ColumnToColumnName(col1, col2) => SlotOf(ColumnToColumn(col1, col2, 0))
  }

  /** The name of slot `s`, read off the layout by division. */
  function NameAt(s: int): (n: Name)
    requires 0 <= s < TABLE_SIZE
    ensures ValidName(n)
  {
    if s < COL_HEAP_BASE then
      var nbDraw := s / SLOTS_PER_ROTATION;
      var j := s % SLOTS_PER_ROTATION;
      if j < NB_HEAPS then DeckToHeapName(j, nbDraw) else DeckToColumnName(j - NB_HEAPS, nbDraw)
    else if s < HEAP_COL_BASE then
      ColumnToHeapName((s - COL_HEAP_BASE) % NB_COLUMNS, (s - COL_HEAP_BASE) / NB_COLUMNS)
    else if s < COL_COL_BASE then
      HeapToColumnName((s - HEAP_COL_BASE) / NB_COLUMNS, (s - HEAP_COL_BASE) % NB_COLUMNS)
    else
      var pair := PairOf(s - COL_COL_BASE);
      ColumnToColumnName(pair.0, pair.1)
  }

  /** Every valid name has a slot in the table, and slot and name determine each other. */
  lemma NameSlotRoundTrip(n: Name, s: int)
    ensures ValidName(n) ==> 0 <= NameSlot(n) < TABLE_SIZE && NameAt(NameSlot(n)) == n
    ensures 0 <= s < TABLE_SIZE ==> NameSlot(NameAt(s)) == s
  {
    if ValidName(n) {
      NameThenSlot(n);
    }
    if 0 <= s < TABLE_SIZE {
      SlotThenName(s);
    }
  }

  lemma NameThenSlot(n: Name)
    requires ValidName(n)
    ensures 0 <= NameSlot(n) < TABLE_SIZE && NameAt(NameSlot(n)) == n
  {
    match n
    case DeckToHeapName(heap, nbDraw) =>
      DivModUnique(nbDraw, heap, 11);
    case DeckToColumnName(col, nbDraw) =>
      DivModUnique(nbDraw, NB_HEAPS + col, 11);
    case ColumnToHeapName(col, heap) =>
      DivModUnique(heap, col, 7);
    case HeapToColumnName(heap, col) =>
      DivModUnique(heap, col, 7);
    case ColumnToColumnName(col1, col2) =>
      PairRoundTrip(col1, col2, 0);
  }

  lemma SlotThenName(s: int)
    requires 0 <= s < TABLE_SIZE
    ensures NameSlot(NameAt(s)) == s
  {
    if s < COL_HEAP_BASE {
      assert s == 11 * (s / 11) + s % 11;
    } else if s < HEAP_COL_BASE {
      assert s - 99 == 7 * ((s - 99) / 7) + (s - 99) % 7;
    } else if s < COL_COL_BASE {
      assert s - 127 == 7 * ((s - 127) / 7) + (s - 127) % 7;
    } else {
      PairRoundTrip(0, 0, s - COL_COL_BASE);
    }
  }

  /** Distinct valid names occupy distinct slots. */
  lemma NameSlotInjective(n1: Name, n2: Name)
    requires ValidName(n1) && ValidName(n2)
    ensures NameSlot(n1) == NameSlot(n2) <==> n1 == n2
  {
    NameSlotRoundTrip(n1, 0);
    NameSlotRoundTrip(n2, 0);
  }

  /** An action sits in the slot of its name. */
  lemma SlotOfName(a: Action)
    requires !a.Draw?
    ensures SlotOf(a) == NameSlot(NameOf(a))
  {
  }

  /** Builds the slot-name table with the source's nested loops. */
  method IndexActionToName() returns (names: map<int, Name>)
    ensures forall s :: s in names <==> 0 <= s < TABLE_SIZE
    ensures forall s :: s in names ==> names[s] == NameAt(s) && NameSlot(names[s]) == s
    ensures forall n :: ValidName(n) ==> NameSlot(n) in names && names[NameSlot(n)] == n
  {
    names := DeckNames();
    names := ColumnToHeapNames(names);
    names := HeapToColumnNames(names);
    names := ColumnToColumnNames(names);
    forall s | s in names
      ensures NameSlot(names[s]) == s
    {
      NameSlotRoundTrip(names[s], s);
    }
    forall n | ValidName(n)
      ensures NameSlot(n) in names && names[NameSlot(n)] == n
    {
      NameSlotRoundTrip(n, 0);
    }
  }

  /** Names the deck slots, rotation by rotation: heaps first, then columns. */
  method DeckNames() returns (names: map<int, Name>)
    ensures forall s :: s in names <==> 0 <= s < COL_HEAP_BASE
    ensures forall s :: s in names ==> names[s] == NameAt(s)
  {
    names := map[];
    var index := 0;
    var nbDraw := 0;
    while nbDraw < DECK_ROTATIONS
      invariant 0 <= nbDraw <= DECK_ROTATIONS
      invariant index == 11 * nbDraw
      invariant forall s :: s in names <==> 0 <= s < index
      invariant forall s :: s in names ==> names[s] == NameAt(s)
    {
      var i := 0;
      while i < NB_HEAPS
        invariant 0 <= i <= NB_HEAPS
        invariant index == 11 * nbDraw + i
        invariant forall s :: s in names <==> 0 <= s < index
        invariant forall s :: s in names ==> names[s] == NameAt(s)
      {
        names := Named(names, index, DeckToHeapName(i, nbDraw));
        index := index + 1;
        i := i + 1;
      }
      i := 0;
      while i < NB_COLUMNS
        invariant 0 <= i <= NB_COLUMNS
        invariant index == 11 * nbDraw + NB_HEAPS + i
        invariant forall s :: s in names <==> 0 <= s < index
        invariant forall s :: s in names ==> names[s] == NameAt(s)
      {
        names := Named(names, index, DeckToColumnName(i, nbDraw));
        index := index + 1;
        i := i + 1;
      }
      nbDraw := nbDraw + 1;
    }
  }

  method ColumnToHeapNames(names0: map<int, Name>) returns (names: map<int, Name>)
    requires forall s :: s in names0 <==> 0 <= s < COL_HEAP_BASE
    requires forall s :: s in names0 ==> names0[s] == NameAt(s)
    ensures forall s :: s in names <==> 0 <= s < HEAP_COL_BASE
    ensures forall s :: s in names ==> names[s] == NameAt(s)
  {
    names := names0;
    var index := COL_HEAP_BASE;
    var i := 0;
    while i < NB_HEAPS
      invariant 0 <= i <= NB_HEAPS
      invariant index == COL_HEAP_BASE + NB_COLUMNS * i
      invariant forall s :: s in names <==> 0 <= s < index
      invariant forall s :: s in names ==> names[s] == NameAt(s)
    {
      var j := 0;
      while j < NB_COLUMNS
        invariant 0 <= j <= NB_COLUMNS
        invariant index == COL_HEAP_BASE + NB_COLUMNS * i + j
        invariant forall s :: s in names <==> 0 <= s < index
        invariant forall s :: s in names ==> names[s] == NameAt(s)
      {
        names := Named(names, index, ColumnToHeapName(j, i));
        index := index + 1;
        j := j + 1;
      }
      i := i + 1;
    }
  }

  method HeapToColumnNames(names0: map<int, Name>) returns (names: map<int, Name>)
    requires forall s :: s in names0 <==> 0 <= s < HEAP_COL_BASE
    requires forall s :: s in names0 ==> names0[s] == NameAt(s)
    ensures forall s :: s in names <==> 0 <= s < COL_COL_BASE
    ensures forall s :: s in names ==> names[s] == NameAt(s)
  {
    names := names0;
    var index := HEAP_COL_BASE;
    var i := 0;
    while i < NB_HEAPS
      invariant 0 <= i <= NB_HEAPS
      invariant index == HEAP_COL_BASE + NB_COLUMNS * i
      invariant forall s :: s in names <==> 0 <= s < index
      invariant forall s :: s in names ==> names[s] == NameAt(s)
    {
      var j := 0;
      while j < NB_COLUMNS
        invariant 0 <= j <= NB_COLUMNS
        invariant index == HEAP_COL_BASE + NB_COLUMNS * i + j
        invariant forall s :: s in names <==> 0 <= s < index
        invariant forall s :: s in names ==> names[s] == NameAt(s)
      {
        names := Named(names, index, HeapToColumnName(i, j));
        index := index + 1;
        j := j + 1;
      }
      i := i + 1;
    }
  }

  /** Names the column-to-column slots over ordered pairs, skipping col1 == col2. */
  method ColumnToColumnNames(names0: map<int, Name>) returns (names: map<int, Name>)
    requires forall s :: s in names0 <==> 0 <= s < COL_COL_BASE
    requires forall s :: s in names0 ==> names0[s] == NameAt(s)
    ensures forall s :: s in names <==> 0 <= s < TABLE_SIZE
    ensures forall s :: s in names ==> names[s] == NameAt(s)
  {
    names := names0;
    var index := COL_COL_BASE;
    var i := 0;
    while i < NB_COLUMNS
      invariant 0 <= i <= NB_COLUMNS
      invariant index == COL_COL_BASE + (NB_COLUMNS - 1) * i
      invariant forall s :: s in names <==> 0 <= s < index
      invariant forall s :: s in names ==> names[s] == NameAt(s)
    {
      var j := 0;
      while j < NB_COLUMNS
        invariant 0 <= j <= NB_COLUMNS
        invariant index == COL_COL_BASE + (NB_COLUMNS - 1) * i + (if j <= i then j else j - 1)
        invariant forall s :: s in names <==> 0 <= s < index
        invariant forall s :: s in names ==> names[s] == NameAt(s)
      {
        if i != j {
          names := Named(names, index, ColumnToColumnName(i, j));
          index := index + 1;
        }
        j := j + 1;
      }
      i := i + 1;
    }
  }

  /** Names slot `index` after slots 0 .. index - 1: the table of slot names grows by one. */
  function Named(names: map<int, Name>, index: int, n: Name): (r: map<int, Name>)
    requires ValidName(n) && NameSlot(n) == index
    requires forall s :: s in names <==> 0 <= s < index
    requires forall s :: s in names ==> names[s] == NameAt(s)
    ensures forall s :: s in r <==> 0 <= s < index + 1
    ensures forall s :: s in r ==> r[s] == NameAt(s)
  {
    NameThenSlot(n);
    names[index := n]
  }

  /** The action table: slot -> action, with the slots in insertion order (a Python dict). */
  datatype Table = Table(entries: map<int, Action>, order: seq<int>)

  const EMPTY_TABLE: Table := Table(map[], [])

  ghost predicate TableWF(t: Table)
  {
    NoDup(t.order) && forall k :: k in t.entries <==> k in t.order
  }

  /** `table[k] = a`: overwriting keeps the slot's position, a new slot goes last. */
  function Put(t: Table, k: int, a: Action): (r: Table)
    ensures r.entries == t.entries[k := a]
    ensures k in t.entries ==> r.order == t.order
    ensures k !in t.entries ==> r.order == t.order + [k]
  {
    Table(t.entries[k := a], if k in t.entries then t.order else t.order + [k])
  }

  /** Writing a slot keeps every slot listed exactly once. */
  lemma PutWF(t: Table, k: int, a: Action)
    requires TableWF(t)
    ensures TableWF(Put(t, k, a))
  {
  }

  lemma {:induction false} TableSize(t: Table)
    requires TableWF(t)
    ensures |t.order| == |t.entries|
  {
    var keys := set k | k in t.order;
    assert t.entries.Keys == keys by {
      forall k
        ensures k in t.entries.Keys <==> k in keys
      {
      }
    }
    SetOfNoDup(t.order);
  }

  lemma {:induction false} SetOfNoDup(s: seq<int>)
    requires NoDup(s)
    ensures |set k | k in s| == |s|
    decreases |s|
  {
    if |s| > 0 {
      var init := s[..|s| - 1];
      assert NoDup(init);
      SetOfNoDup(init);
      assert (set k | k in s) == (set k | k in init) + {s[|s| - 1]};
      assert s[|s| - 1] !in init;
    }
  }

  /** The list of legal action indices, in insertion order. */
  function Keys(t: Table): seq<int>
  {
    t.order
  }

  /** The first listed key of a non-empty table. */
  lemma SomeKey(t: Table) returns (s: int)
    requires TableWF(t) && |t.entries| > 0
    ensures s in t.entries && s == Keys(t)[0]
  {
    TableSize(t);
    s := t.order[0];
  }
}
