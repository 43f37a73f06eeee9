/** The Klondike engine as the game the stochastic search explores: its legal actions are the
    keys of its action table. */
module KlondikeSearch {
  import opened Seqs
  import opened Actions
  import opened Klondike
  import Legal
  import Play
  import SearchTree

  /** The keys of a position's action table are distinct and never the no-action marker, as the
      search tree needs of every legal-action list. */
  lemma LegalKeysWF(e: Engine, pick: Legal.Picker)
    requires BoardWF(e.board)
    ensures SearchTree.LegalWF(Keys(Legal.LegalTable(e, pick)))
  {
    var t := Legal.LegalTable(e, pick);
    Legal.LegalTableWF(e, pick);
    if SearchTree.NO_ACTION in t.order {
      Play.TableInBounds(e, pick, SearchTree.NO_ACTION);
      Play.EntryOfTable(e, pick, SearchTree.NO_ACTION);
      assert false;
    }
  }
}
