/** Playing a table entry (`play`), the chance test (`chance_action`) and the end-of-game tests. */
module Play {
  import opened Wrappers
  import opened Cards
  import opened Columns
  import Heaps
  import opened Actions
  import opened Klondike
  import opened Legal

  // ----- What the table holds -----

  /** One entry of the table, read through the soundness lemma. */
  lemma EntryOfTable(e: Engine, pick: Picker, s: int)
    requires BoardWF(e.board) && s in LegalTable(e, pick).entries
    ensures SlotOf(LegalTable(e, pick).entries[s]) == s
    ensures EntryLegal(e, pick, LegalTable(e, pick).entries[s])
  {
    LegalTableSound(e, pick);
  }

  /** A legal entry can be played without failing, and it is never a plain draw. */
  lemma LegalInBounds(e: Engine, pick: Picker, a: Action)
    requires EntryLegal(e, pick, a)
    ensures ActionInBounds(e.board, a) && !a.Draw?
  {
    if a.ColumnToColumn? && !DeckLegal(e.board, a) {
      assert 1 <= a.nbCards <= |e.board.columns[a.col1].cards|;
    }
  }

  /** Every entry of the table is a non-draw move that can be played without failing. */
  lemma TableInBounds(e: Engine, pick: Picker, s: int)
    requires BoardWF(e.board) && s in LegalTable(e, pick).entries
    ensures ActionInBounds(e.board, LegalTable(e, pick).entries[s])
    ensures !LegalTable(e, pick).entries[s].Draw?
  {
    EntryOfTable(e, pick, s);
    LegalInBounds(e, pick, LegalTable(e, pick).entries[s]);
  }

  /** A move of fixed slot is in the table exactly when it is legal; a deck move is in the table
      when it is legal, its rotation was visited and its slot did not spill past 98. */
  lemma LegalTableExact(e: Engine, pick: Picker, a: Action)
    requires BoardWF(e.board)
    ensures a.ColumnToHeap? || a.HeapToColumn? || a.ColumnToColumn? ==>
      (Holds(LegalTable(e, pick), SlotOf(a), a) <==> EntryLegal(e, pick, a))
    ensures a.DeckToHeap? || a.DeckToColumn? ==>
      (Holds(LegalTable(e, pick), SlotOf(a), a) ==> EntryLegal(e, pick, a))
    ensures (a.DeckToHeap? || a.DeckToColumn?) && a.nbDraw < DeckPrefix(e.board).1 && SlotOf(a) < COL_HEAP_BASE ==>
      (Holds(LegalTable(e, pick), SlotOf(a), a) <==> EntryLegal(e, pick, a))
    ensures a.Draw? ==> !Holds(LegalTable(e, pick), SlotOf(a), a)
  {
    if Holds(LegalTable(e, pick), SlotOf(a), a) {
      EntryOfTable(e, pick, SlotOf(a));
    }
    if EntryLegal(e, pick, a) {
      match a
      case Draw =>
      case DeckToHeap(_, _) =>
        if a.nbDraw < DeckPrefix(e.board).1 && SlotOf(a) < COL_HEAP_BASE {
          DeckComplete(e, pick, a);
        }
      case DeckToColumn(_, _) =>
        if a.nbDraw < DeckPrefix(e.board).1 && SlotOf(a) < COL_HEAP_BASE {
          DeckComplete(e, pick, a);
        }
      case ColumnToHeap(col, heap) =>
        ColHeapComplete(e, pick, col, heap);
      case HeapToColumn(heap, col) =>
        HeapColComplete(e, pick, heap, col);
      case ColumnToColumn(col1, col2, nbCards) =>
        ColColComplete(e, pick, col1, col2);
    }
  }

  // ----- What the table depends on -----

  /** Two engines at the same position: same board, same location codes, same stack. The table
      and the legality of a move look at nothing else. */
  predicate SamePosition(e1: Engine, e2: Engine)
  {
    e1.board == e2.board && e1.codes == e2.codes && e1.stack == e2.stack
  }

  lemma HeapColFrame(e1: Engine, e2: Engine, heap: int, col: int)
    requires BoardWF(e1.board) && SamePosition(e1, e2) && 0 <= heap < NB_HEAPS && 0 <= col < NB_COLUMNS
    requires Heaps.CanRemove(e1.board.heaps[heap])
    ensures HeapColFresh(e1, heap, col) == HeapColFresh(e2, heap, col)
  {
    assert Klondike.HeapToColumn(e1, heap, col).codes == Klondike.HeapToColumn(e2, heap, col).codes;
  }

  lemma QualifiesFrame(e1: Engine, e2: Engine, col1: int, col2: int, m: int, pick: Picker)
    requires BoardWF(e1.board) && SamePosition(e1, e2) && 0 <= col1 < NB_COLUMNS && 0 <= col2 < NB_COLUMNS
    ensures Qualifies(e1, col1, col2, m, pick) == Qualifies(e2, col1, col2, m, pick)
  {
    if 1 <= m <= |e1.board.columns[col1].cards| {
      var c := pick(col1, col2, m);
      assert Klondike.ColumnToColumn(e1, col1, col2, m, c).codes == Klondike.ColumnToColumn(e2, col1, col2, m, c).codes;
    }
  }

  lemma MaxRunFrame(e1: Engine, e2: Engine, col1: int, col2: int, pick: Picker)
    requires BoardWF(e1.board) && SamePosition(e1, e2) && 0 <= col1 < NB_COLUMNS && 0 <= col2 < NB_COLUMNS
    ensures MaxRun(e1, col1, col2, pick) == MaxRun(e2, col1, col2, pick)
  {
    var len := |e1.board.columns[col1].cards|;
    forall m | 1 <= m <= len
      ensures QualifyTest(e1, col1, col2, pick)(m) == QualifyTest(e2, col1, col2, pick)(m)
    {
      QualifiesFrame(e1, e2, col1, col2, m, pick);
    }
    Seqs.LastFromAgree(QualifyTest(e1, col1, col2, pick), QualifyTest(e2, col1, col2, pick), len, 1, -1);
  }

  /** Legality of a move depends on the position only. */
  lemma EntryLegalFrame(e1: Engine, e2: Engine, pick: Picker, a: Action)
    requires BoardWF(e1.board) && SamePosition(e1, e2)
    ensures EntryLegal(e1, pick, a) == EntryLegal(e2, pick, a)
  {
    match a
    case HeapToColumn(heap, col) =>
      if 0 <= heap < NB_HEAPS && 0 <= col < NB_COLUMNS && CanHeapToColumn(e1.board, heap, col) {
        HeapColFrame(e1, e2, heap, col);
      }
    case ColumnToColumn(col1, col2, _) =>
      if 0 <= col1 < NB_COLUMNS && 0 <= col2 < NB_COLUMNS {
        MaxRunFrame(e1, e2, col1, col2, pick);
      }
    case _ =>
  }

  /** Two runs of the three fixed-layout fills whose tests and actions agree write the same table. */
  lemma PhasesAgree(t0: Table, test1: int -> bool, act1: int -> Action, test2: int -> bool, act2: int -> Action,
    test3: int -> bool, act3: int -> Action, test2': int -> bool, test3': int -> bool, act3': int -> Action)
    requires forall i :: 0 <= i < 28 ==> test2(i) == test2'(i)
    requires forall p :: 0 <= p < 42 ==> test3(p) == test3'(p) && act3(p) == act3'(p)
    ensures Phases(t0, test1, act1, test2, act2, test3, act3) == Phases(t0, test1, act1, test2', act2, test3', act3')
  {
    var t1 := Fill(t0, COL_HEAP_BASE, 0, 28, test1, act1);
    FillAgree(t1, HEAP_COL_BASE, 0, 28, test2, act2, test2', act2);
    var t2 := Fill(t1, HEAP_COL_BASE, 0, 28, test2, act2);
    FillAgree(t2, COL_COL_BASE, 0, 42, test3, act3, test3', act3');
  }

  lemma HeapColTestFrame(e1: Engine, e2: Engine)
    requires BoardWF(e1.board) && SamePosition(e1, e2)
    ensures forall i :: 0 <= i < 28 ==> HeapColTest(e1)(i) == HeapColTest(e2)(i)
  {
    forall i | 0 <= i < 28
      ensures HeapColTest(e1)(i) == HeapColTest(e2)(i)
    {
      if CanHeapToColumn(e1.board, i / 7, i % 7) {
        HeapColFrame(e1, e2, i / 7, i % 7);
      }
    }
  }

  lemma ColColTestFrame(e1: Engine, e2: Engine, pick: Picker)
    requires BoardWF(e1.board) && SamePosition(e1, e2)
    ensures forall p :: 0 <= p < 42 ==>
      ColColTest(e1, pick)(p) == ColColTest(e2, pick)(p) && ColColActions(e1, pick)(p) == ColColActions(e2, pick)(p)
  {
    forall p | 0 <= p < 42
      ensures ColColTest(e1, pick)(p) == ColColTest(e2, pick)(p)
      ensures ColColActions(e1, pick)(p) == ColColActions(e2, pick)(p)
    {
      MaxRunFrame(e1, e2, PairOf(p).0, PairOf(p).1, pick);
    }
  }

  /** The table depends on the position only. */
  lemma LegalTableFrame(e1: Engine, e2: Engine, pick: Picker)
    requires BoardWF(e1.board) && SamePosition(e1, e2)
    ensures LegalTable(e1, pick) == LegalTable(e2, pick)
  {
    HeapColTestFrame(e1, e2);
    ColColTestFrame(e1, e2, pick);
    PhasesAgree(DeckPrefix(e1.board).0, ColHeapTest(e1.board), ColHeapAction, HeapColTest(e1), HeapColAction,
      ColColTest(e1, pick), ColColActions(e1, pick), HeapColTest(e2), ColColTest(e2, pick), ColColActions(e2, pick));
  }

  // ----- play -----

  /** Why `play` fails: the key is not in the table (the source raises a KeyError), or the entry
      could not be played (never the case for a table built by `LegalTable`). */
  datatype PlayError = UnknownAction | BrokenEntry

  /** The fingerprint pushed on the stack after a move; a draw pushes nothing. */
  function PushState(stack: seq<seq<int>>, a: Action, codes: map<Card, int>): (r: seq<seq<int>>)
    ensures a.Draw? ==> r == stack
    ensures !a.Draw? ==> |r| == |stack| + 1 && r[..|stack|] == stack && r[|stack|] == Fingerprint(codes)
  {
    if a.Draw? then stack else stack + [Fingerprint(codes)]
  }

  /** The engine's table is the one `legal_actions` builds for its position when the stack is
      `stack0`. Right after `play`, `stack0` is the stack before the new fingerprint was pushed. */
  predicate TableBuilt(e: Engine, pick: Picker, stack0: seq<seq<int>>)
  {
    BoardWF(e.board) && e.table == LegalTable(e.(stack := stack0), pick)
  }

  /** `play`: applies the entry at key `k`, rebuilds the table for the new position against the
      stack as it was, adds the move's reward to the score, counts the move, and pushes the new
      fingerprint unless the move was a draw. `revealed` is the card a reveal takes from the main
      deck; `pick` is the oracle for the reveals inside the table's cycle filter. */
  function Play(e: Engine, k: int, revealed: Card, pick: Picker): (r: Result<Engine, PlayError>)
    requires BoardWF(e.board)
    ensures k !in e.table.entries <==> r == Err(UnknownAction)
    ensures r.Err? && k in e.table.entries ==> !ActionInBounds(e.board, e.table.entries[k]) && r == Err(BrokenEntry)
    ensures r.Ok? ==> k in e.table.entries && ActionInBounds(e.board, e.table.entries[k])
    ensures r.Ok? ==>
      var a := e.table.entries[k];
      var moved := Apply(e, a, revealed);
      && SamePosition(r.value.(stack := e.stack), moved)
      && r.value.mainDeck == moved.mainDeck && r.value.reward == moved.reward
      && r.value.score == e.score + moved.reward
      && r.value.time == e.time + 1
      && r.value.stack == PushState(e.stack, a, moved.codes)
      && TableBuilt(r.value, pick, e.stack)
  {
    if k !in e.table.entries then Err(UnknownAction)
    else
      var a := e.table.entries[k];
      if !ActionInBounds(e.board, a) then Err(BrokenEntry)
      else
        var moved := Apply(e, a, revealed);
        var e2 := moved.(table := LegalTable(moved, pick),
                         score := e.score + moved.reward,
                         time := e.time + 1,
                         stack := PushState(e.stack, a, moved.codes));
        LegalTableFrame(moved, e2.(stack := e.stack), pick);
        Ok(e2)
  }

  /** On a table built by `legal_actions`, `play` fails exactly on a key that is not in the
      table, and the entry it plays was legal when the table was built. */
  lemma PlayBuiltTable(e: Engine, k: int, revealed: Card, pick0: Picker, stack0: seq<seq<int>>, pick: Picker)
    requires TableBuilt(e, pick0, stack0)
    ensures Play(e, k, revealed, pick).Ok? <==> k in e.table.entries
    ensures Play(e, k, revealed, pick).Ok? ==> EntryLegal(e.(stack := stack0), pick0, e.table.entries[k])
  {
    if k in e.table.entries {
      EntryOfTable(e.(stack := stack0), pick0, k);
      LegalInBounds(e.(stack := stack0), pick0, e.table.entries[k]);
    }
  }

  /** A heap-to-column entry never leads back to a position on the stack the table was built
      against: the fingerprint `play` pushes is new to it. */
  lemma HeapColNoRepeat(e: Engine, k: int, revealed: Card, pick0: Picker, stack0: seq<seq<int>>, pick: Picker)
    requires TableBuilt(e, pick0, stack0) && k in e.table.entries && e.table.entries[k].HeapToColumn?
    ensures Play(e, k, revealed, pick).Ok?
    ensures |Play(e, k, revealed, pick).value.stack| == |e.stack| + 1
    ensures Play(e, k, revealed, pick).value.stack[|e.stack|] !in stack0
  {
    var a := e.table.entries[k];
    var e0 := e.(stack := stack0);
    PlayBuiltTable(e, k, revealed, pick0, stack0, pick);
    assert HeapColFresh(e0, a.heap, a.col);
    assert Klondike.HeapToColumn(e0, a.heap, a.col).codes == Apply(e, a, revealed).codes;
  }

  /** The same for a column-to-column entry, when the card a reveal brings is the one the cycle
      filter assumed (or the move reveals nothing). */
  lemma ColColNoRepeat(e: Engine, k: int, revealed: Card, pick0: Picker, stack0: seq<seq<int>>, pick: Picker)
    requires TableBuilt(e, pick0, stack0) && k in e.table.entries && e.table.entries[k].ColumnToColumn?
    requires var a := e.table.entries[k];
      revealed == pick0(a.col1, a.col2, a.nbCards)
      || (ActionInBounds(e.board, a) && !Reveals(e.board, a))
    ensures Play(e, k, revealed, pick).Ok?
    ensures |Play(e, k, revealed, pick).value.stack| == |e.stack| + 1
    ensures Play(e, k, revealed, pick).value.stack[|e.stack|] !in stack0
  {
    var a := e.table.entries[k];
    var e0 := e.(stack := stack0);
    PlayBuiltTable(e, k, revealed, pick0, stack0, pick);
    MaxRunSpec(e0, a.col1, a.col2, pick0);
    var c := pick0(a.col1, a.col2, a.nbCards);
    assert Qualifies(e0, a.col1, a.col2, a.nbCards, pick0);
    assert Klondike.ColumnToColumn(e0, a.col1, a.col2, a.nbCards, c).codes
        == Klondike.ColumnToColumn(e, a.col1, a.col2, a.nbCards, revealed).codes;
  }

  // ----- chance_action -----

  /** `chance_action`: plays the entry on a copy and reports whether the main deck shrank, that
      is whether the move needed a card from it. Fails as `play` does. */
  function ChanceAction(e: Engine, k: int, revealed: Card, pick: Picker): (r: Result<bool, PlayError>)
    requires BoardWF(e.board)
    ensures r.Err? <==> Play(e, k, revealed, pick).Err?
    ensures r.Err? ==> r.error == Play(e, k, revealed, pick).error
  {
    match Play(e, k, revealed, pick)
    case Err(why) => Err(why)
    case Ok(after) => Ok(|after.mainDeck| < |e.mainDeck|)
  }

  /** With a card to reveal in the main deck, the chance test answers yes exactly for the
      moves that reveal a column card; the card itself does not matter. */
  lemma ChanceIffReveals(e: Engine, k: int, revealed: Card, pick: Picker)
    requires BoardWF(e.board) && revealed in e.mainDeck
    ensures ChanceAction(e, k, revealed, pick).Ok? ==>
      (ChanceAction(e, k, revealed, pick).value <==> Reveals(e.board, e.table.entries[k]))
  {
    if Play(e, k, revealed, pick).Ok? {
      var a := e.table.entries[k];
      if Reveals(e.board, a) {
        assert |e.mainDeck - multiset{revealed}| == |e.mainDeck| - 1;
      }
    }
  }

  // ----- End of game -----

  /** `is_won` with the intended heap test: every heap is complete. */
  predicate IsWon(e: Engine)
  {
    forall i :: 0 <= i < |e.board.heaps| ==> Heaps.IsComplete(e.board.heaps[i])
  }

  /** `is_won` as written: every heap passes the Card-versus-int completeness test. */
  predicate IsWonAsWritten(e: Engine)
  {
    forall i :: 0 <= i < |e.board.heaps| ==> Heaps.IsCompleteAsWritten(e.board.heaps[i])
  }

  /** `is_lost`: the table is empty. */
  predicate IsLost(e: Engine)
  {
    |e.table.entries| == 0
  }

  predicate IsOver(e: Engine)
  {
    IsWon(e) || IsLost(e)
  }

  predicate IsOverAsWritten(e: Engine)
  {
    IsWonAsWritten(e) || IsLost(e)
  }

  /** As written the game is never won: with four heaps, `is_over` reduces to `is_lost`. */
  lemma WonAsWrittenNever(e: Engine)
    requires BoardWF(e.board)
    ensures !IsWonAsWritten(e)
    ensures IsOverAsWritten(e) <==> IsLost(e)
  {
    Heaps.AsWrittenNeverComplete(e.board.heaps[0]);
  }

  /** With the intended test, a game whose heaps are foundations is won exactly when each heap
      holds its thirteen cards, Ace to King of one suit. */
  lemma WonIffFullHeaps(e: Engine)
    requires BoardWF(e.board)
    requires forall i :: 0 <= i < NB_HEAPS ==> Heaps.IsFoundation(e.board.heaps[i].cards)
    ensures IsWon(e) <==> forall i :: 0 <= i < NB_HEAPS ==> |e.board.heaps[i].cards| == 13
    ensures IsWon(e) ==> forall i :: 0 <= i < NB_HEAPS ==>
      e.board.heaps[i].cards == Heaps.FullSuit(e.board.heaps[i].cards[0].color)
  {
    forall i | 0 <= i < NB_HEAPS
      ensures Heaps.IsComplete(e.board.heaps[i]) <==> |e.board.heaps[i].cards| == 13
      ensures Heaps.IsComplete(e.board.heaps[i]) ==>
        e.board.heaps[i].cards == Heaps.FullSuit(e.board.heaps[i].cards[0].color)
    {
      Heaps.CompleteFoundation(e.board.heaps[i]);
    }
  }

  /** A table with an entry is not empty. */
  lemma EntryMeansNotLost(e: Engine, s: int)
    requires s in e.table.entries
    ensures !IsLost(e)
  {
    assert s in e.table.entries.Keys;
  }

  /** On a table built by `legal_actions`, a possible column-to-heap move means the game is not
      lost. */
  lemma ColumnToHeapNotLost(e: Engine, pick0: Picker, stack0: seq<seq<int>>, col: int, heap: int)
    requires TableBuilt(e, pick0, stack0)
    requires 0 <= col < NB_COLUMNS && 0 <= heap < NB_HEAPS && CanColumnToHeap(e.board, col, heap)
    ensures !IsLost(e)
  {
    ColHeapComplete(e.(stack := stack0), pick0, col, heap);
    EntryMeansNotLost(e, SlotOf(Actions.ColumnToHeap(col, heap)));
  }

  /** ... so does a heap-to-column move whose result is off the stack ... */
  lemma HeapToColumnNotLost(e: Engine, pick0: Picker, stack0: seq<seq<int>>, heap: int, col: int)
    requires TableBuilt(e, pick0, stack0)
    requires 0 <= col < NB_COLUMNS && 0 <= heap < NB_HEAPS
    requires CanHeapToColumn(e.board, heap, col) && HeapColFresh(e.(stack := stack0), heap, col)
    ensures !IsLost(e)
  {
    HeapColComplete(e.(stack := stack0), pick0, heap, col);
    EntryMeansNotLost(e, SlotOf(Actions.HeapToColumn(heap, col)));
  }

  /** ... and so does a qualifying column-to-column move. */
  lemma ColumnToColumnNotLost(e: Engine, pick0: Picker, stack0: seq<seq<int>>, col1: int, col2: int)
    requires TableBuilt(e, pick0, stack0)
    requires 0 <= col1 < NB_COLUMNS && 0 <= col2 < NB_COLUMNS && col1 != col2
    requires MaxRun(e.(stack := stack0), col1, col2, pick0) != -1
    ensures !IsLost(e)
  {
    var e0 := e.(stack := stack0);
    ColColComplete(e0, pick0, col1, col2);
    EntryMeansNotLost(e, SlotOf(Actions.ColumnToColumn(col1, col2, MaxRun(e0, col1, col2, pick0))));
  }

  /** A game that is not lost has a legal move in its table. */
  lemma NotLostHasMove(e: Engine, pick0: Picker, stack0: seq<seq<int>>) returns (s: int)
    requires TableBuilt(e, pick0, stack0) && !IsLost(e)
    ensures s in e.table.entries && EntryLegal(e.(stack := stack0), pick0, e.table.entries[s])
  {
    LegalTableWF(e.(stack := stack0), pick0);
    s := SomeKey(e.table);
    EntryOfTable(e.(stack := stack0), pick0, s);
  }
}
