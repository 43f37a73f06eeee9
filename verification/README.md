# PySoli core in Dafny

PySoli pairs a Klondike solitaire engine with a stochastic Monte Carlo tree search. This project
models both halves as pure functions over immutable data and proves what they keep.

**The Klondike engine.** The engine has these parts:

- Cards are a rank from 1 to 13 and one of four suits.
- A column is a face-up pile. It records how many face-down cards it still waits for.
- A heap is a foundation, built from the Ace up in one suit.
- The upper-left sub-deck is shown three cards at a time through an index window.
- The main deck holds the cards still hidden under the columns.

Each card has a location code:

- 0 to 6: in a column;
- 7: on a heap;
- 8: not drawn yet;
- 9 to 32: a sub-deck offset.

The 52 codes form the state fingerprint, which is pushed on a stack of visited states.

The table of legal actions has fixed slots:

- 9 rotations of 11 deck slots;
- 28 column-to-heap slots;
- 28 heap-to-column slots;
- 42 column-to-column slots.

A heap-to-column move, or a column-to-column move, is offered only if the position it leads to
is not on the stack.

**The search.** The search tree keeps, for each node:

- per-action lists of sampled children;
- the visit count, the reward total and the squared-reward total.

An action that draws a random card may have up to `width` children. Any other action has one.
One iteration works like this:

1. Select descends to a node with an unsampled action, or to an action whose list is not full.
2. Expand adds one child.
3. The playout's reward is propagated to every ancestor.

Modules:

- `Cards`, `Columns`, `Heaps`: the card model, the tableau columns and the foundation heaps.
- `Klondike`: the board (sub-deck, window, heaps, columns) and the engine state. It holds the
  draw rule, the five moves with their rewards and the location codes.
- `Fingerprints`: the state fingerprint and its string key.
- `Actions`: the action datatype, the slot layout, the action names and the action table.
- `Legal`: the construction of the legal-action table.
- `Play`: playing a table entry, the chance test and the end-of-game tests.
- `Locations`: what the location codes say about the board. A card has a code exactly when it
  is out of the main deck, and each card carries the code of the pile it lies on.
- `Invariants`: the whole-game invariant that every move preserves. Every card is in exactly
  one place, the main deck matches the face-down debt of the columns, every heap is a
  foundation, and the codes agree with the board. A second invariant says every stacked
  fingerprint gives the undrawn code to each card still in the main deck. Together they show
  that the cycle filter's promise holds against the whole stack.
- `Deal`: the constructor's opening deal.
- `SearchTree`, `Mcts`: the search tree as an arena of nodes indexed from the root (node 0),
  and the four search steps.
- `KlondikeSearch`: checks that the engine's legal keys meet the search tree's assumption about
  legal-action lists.
- `Seqs`, `Wrappers`: general sequence, multiset and result helpers.

Randomness is a parameter everywhere:

- The shuffled deck is an argument of `Deal.NewGame`.
- The card that `main_deck.draw(True)` turns up is the `revealed` argument of the moves.
- The reveals played out inside the legal-action filter come from a `pick` oracle.
- The search's random indices and draws, the UCB score and the playout value are parameters of
  `Mcts.TreeSearch`.

## Model

| member | source | states |
|---|---|---|
| Cards.RanksAscending | Game/card.py:1-15 | the thirteen ranks are 1 to 13, Ace to King, strictly ascending |
| Cards.SuitOrder | Game/card.py:17-22 | the suits are listed in the order C, D, H, S and every suit is listed |
| Cards.ColourClassesPartition | Game/card.py:22-24 | every suit is exactly one of red or black, and together the two lists give the four suits |
| Cards.SuitIndex | Game/card.py:22 | each suit has a position among the four listed suits |
| Cards.EnumerationIndex | Game/solitaire_engine.py:470-475 | the state vector's order (suits outer, ranks inner) and the card index are inverse bijections between the 52 cards and 0..51 |
| Cards.CardIndexInjective | Game/solitaire_engine.py:469-473 | two cards share a state-vector position exactly when they are the same card |
| Cards.FullDeckCounts | Game/card.py:15-24 | the full deck holds each of the 52 cards exactly once |
| Columns.NewColumn | Game/column.py:5-9 | column number i starts empty and waits for i + 1 cards, so it needs a reveal exactly when i >= 0 and is empty exactly when i is -1 |
| Columns.RevealOrEmpty | Game/column.py:11-21 | a column never both needs a reveal and is empty; a column with face-up cards is neither |
| Columns.SameColorClass | Game/column.py:23-32 | the colour test is symmetric and holds exactly when both suits are red or both are black |
| Columns.CanAddOnEmpty | Game/column.py:39-41 | only a King can go on a column with no face-up card |
| Columns.CanAddOnTop | Game/column.py:43-47 | otherwise the card must be one rank below the top card and of the other colour |
| Columns.AddCards | Game/column.py:56-62 | adding keeps the face-down count and appends the added cards, in order, on top of the pile |
| Columns.RemovableUpToSize | Game/column.py:49-54 | `can_remove` allows removing `n` cards exactly when the pile holds at least `n`: the cards just added may be removed again, one more than the pile holds may not |
| Columns.AddRunKeepsRun | Game/column.py:34-62 | adding an alternating descending run the column accepts keeps the column such a run |
| Columns.RevealCard | Game/column.py:64-70 | a reveal lowers the face-down count by one and puts the card on top, after which the column neither needs a reveal nor is empty |
| Columns.TakeTop | Game/column.py:72-82 | the taken cards are the top `number` cards in their original order, and what is left followed by them is the old pile |
| Columns.RemoveCards | Game/column.py:72-82 | the pop-then-reverse loop returns the same split as TakeTop |
| Columns.AddThenTake | Game/column.py:56-82 | taking back the cards just added restores the column and returns those cards |
| Columns.TakeThenAdd | Game/column.py:56-82 | adding back the cards just taken restores the column |
| Columns.TakeTopOfRun | Game/column.py:72-82 | splitting an alternating descending run leaves two such runs |
| Heaps.CanAddOnEmpty | Game/heap.py:32-34 | only an Ace can start a heap |
| Heaps.CanAddOnTop | Game/heap.py:36-40 | otherwise the card must be the next rank of the top card's suit |
| Heaps.CanAddIffExtends | Game/heap.py:26-40 | on a foundation, a card is accepted exactly when the heap with it added is still a foundation |
| Heaps.AddCard | Game/heap.py:48-53 | the card goes on top and nothing else changes |
| Heaps.RemovableAfterAdd | Game/heap.py:42-46 | `can_remove` asks for a non-empty heap: a heap just added to allows a removal, the empty heap does not |
| Heaps.RemoveCard | Game/heap.py:55-59 | the removed card is the old top, and the rest followed by it is the old heap |
| Heaps.AddThenRemove | Game/heap.py:48-59 | removing the card just added gives back the heap and that card |
| Heaps.RemoveThenAdd | Game/heap.py:48-59 | putting back the card just removed restores the heap |
| Heaps.RemoveKeepsFoundation | Game/heap.py:42-59 | removing the top of a foundation leaves a foundation |
| Heaps.GrowKeepsFoundation | Game/heap.py:26-53 | any sequence of accepted additions keeps a foundation |
| Heaps.CompleteFoundation | Game/heap.py:9-13 | a foundation holds at most 13 cards; with the intended test it is complete exactly when it holds 13, and then it is Ace to King of one suit |
| Heaps.EmptyIsNotComplete | Game/heap.py:9-13 | an empty heap is not complete, under either test |
| Heaps.AsWrittenNeverComplete | Game/heap.py:13 | as written no heap is ever complete, even Ace to King of clubs, which the intended test accepts |
| Fingerprints.JoinCollides | Game/solitaire_engine.py:476 | the join is not injective on code vectors: [1, 12, ...] and [11, 2, ...] both start "112" |
| Fingerprints.JoinAligned | Game/solitaire_engine.py:476 | the join only loses boundaries between codes of different widths: two vectors of codes below 100 with one-digit codes at the same positions have equal strings exactly when they are equal |
| Fingerprints.StateKey | Game/solitaire_engine.py:465-476 | a key with two digits per code is exactly twice as long as the vector |
| Fingerprints.KeyRoundTrip | Game/solitaire_engine.py:465-476 | decoding the two-digit key gives back the code vector |
| Fingerprints.KeyInjective | Game/solitaire_engine.py:465-476 | two code vectors have the same key exactly when they are equal |
| Klondike.BuildStateDict | Game/solitaire_engine.py:21-31 | the 33 location names get the codes 0..32, one code per location and no code shared |
| Klondike.Draw | Game/solitaire_engine.py:93-116 | with an empty sub-deck nothing changes; otherwise only the window changes and the reward resets to 0, and the window shows up to three consecutive positions that start again at 0 after the end of the sub-deck |
| Klondike.DrawN | Game/solitaire_engine.py:126-127 | drawing `n` times changes only the window and the reward, and leaves the board of `n` draws |
| Klondike.Recode | Game/solitaire_engine.py:155-158 | after a card leaves the sub-deck, each later sub-deck card is coded with its new offset and every other code is kept |
| Klondike.SetCodes | Game/solitaire_engine.py:294-295 | each moved card gets the destination column's code and every other code is kept |
| Klondike.Fingerprint | Game/solitaire_engine.py:465-475 | the state vector has 52 codes, and each card's position holds its location code, or 8 when it is not drawn yet |
| Klondike.GetState | Game/solitaire_engine.py:465-476 | the state is the fingerprint, paired with a 104-character key that decodes back to it |
| Klondike.RevealIfNeeded | Game/solitaire_engine.py:236-242 | a column waiting for a card turns up the revealed card: it leaves the main deck, is coded with the column, and adds 5 to the reward; any other column is left alone |
| Klondike.TakeFromDeck | Game/solitaire_engine.py:149-150 | the top shown card leaves the sub-deck and the window loses its last index |
| Klondike.DeckToHeap | Game/solitaire_engine.py:118-161 | when the move is refused nothing changes; otherwise, after the draws, the top shown card goes onto the heap, is coded 7, later sub-deck cards are recoded, and the reward is 10 |
| Klondike.DeckToColumn | Game/solitaire_engine.py:163-205 | the same for a column: the card goes onto it and is coded with the column, and the reward is 5 |
| Klondike.ColumnToHeap | Game/solitaire_engine.py:207-242 | when allowed, the column's top card goes onto the heap, and the column turns up the revealed card if it now waits for one; the reward is 10, or 15 with the reveal |
| Klondike.HeapToColumn | Game/solitaire_engine.py:259-271 | the heap's top card goes onto the column and is coded with it, and the reward is -15 |
| Klondike.ColumnToColumn | Game/solitaire_engine.py:283-304 | the top `nbCards` cards move in order, each coded with the destination, and the source turns up the revealed card if it now waits for one; the reward is 0, or 5 with the reveal |
| Klondike.Apply | Game/solitaire_engine.py:423-438 | a dispatched move takes a card from the main deck exactly when it reveals one, and leaves score, time, stack and table to the caller |
| Actions.LayoutConstants | Game/solitaire_engine.py:342 | the table layout is 9 rotations of 11 deck slots, then column-to-heap at 99, heap-to-column at 127, column-to-column at 155, for 197 slots |
| Actions.PairRoundTrip | Game/solitaire_engine.py:361-378 | the numbering of ordered pairs of distinct columns is a bijection onto 0..41 |
| Actions.NameSlotRoundTrip | Game/solitaire_engine.py:382-407 | action names and slots are mutually inverse on the valid names and on 0..196 |
| Actions.NameSlotInjective | Game/solitaire_engine.py:382-407 | two valid names share a slot exactly when they are the same name |
| Actions.IndexActionToName | Game/solitaire_engine.py:382-407 | the name table covers exactly slots 0..196, and every valid name sits at its own slot |
| Actions.DeckNames | Game/solitaire_engine.py:386-393 | the deck part names exactly slots 0..98 |
| Actions.ColumnToHeapNames | Game/solitaire_engine.py:394-397 | the column-to-heap part names exactly slots 99..126 |
| Actions.HeapToColumnNames | Game/solitaire_engine.py:398-401 | the heap-to-column part names exactly slots 127..154 |
| Actions.ColumnToColumnNames | Game/solitaire_engine.py:402-407 | the column-to-column part names exactly slots 155..196 |
| Actions.Put | Game/solitaire_engine.py:325-326 | storing an entry maps the slot to the action, and appends the slot to the key order only if it is new |
| Actions.TableSize | Game/solitaire_engine.py:380 | the returned keys are exactly as many as the table's entries |
| Legal.RowLegal | Game/solitaire_engine.py:321-331 | slot j of deck row n is filled exactly when, after n draws, the top shown card can go to heap j, or to column j - 4 |
| Legal.MaxRunSpec | Game/solitaire_engine.py:361-378 | the column-to-column entry moves the largest qualifying number of cards, where a count qualifies if the move is allowed and its position is not on the stack; -1 exactly when no count qualifies |
| Legal.LegalTableWF | Game/solitaire_engine.py:306-380 | the table's keys are distinct and match its entries |
| Legal.LegalTableSound | Game/solitaire_engine.py:306-378 | every entry sits at its own slot and is legal in the current position |
| Legal.DeckComplete | Game/solitaire_engine.py:316-340 | every legal deck move within the rotations the loop visits is in the table |
| Legal.ColHeapComplete | Game/solitaire_engine.py:342-348 | every allowed column-to-heap move is in the table |
| Legal.HeapColComplete | Game/solitaire_engine.py:350-359 | every allowed heap-to-column move that leads to an unvisited position is in the table |
| Legal.ColColComplete | Game/solitaire_engine.py:361-378 | every column pair with a qualifying count is in the table, with the largest count |
| Play.LegalTableExact | Game/solitaire_engine.py:306-380 | for the three tableau kinds, an action is in the table exactly when it is legal; deck entries are legal, and complete within the rotations visited; a plain draw is never in the table |
| Play.LegalTableFrame | Game/solitaire_engine.py:306-380 | the table depends only on the board, the codes and the stack |
| Play.Play | Game/solitaire_engine.py:423-451 | an unknown key is an error; otherwise the entry's move is applied, the score gains the move's reward, time advances by one, the post-move fingerprint is pushed for every non-draw move, and the table is rebuilt before the push |
| Play.PlayBuiltTable | Game/solitaire_engine.py:423-451 | after a play, every key of the new table can be played, and its entry was legal when the table was built |
| Play.HeapColNoRepeat | Game/solitaire_engine.py:350-359 | playing a heap-to-column entry never pushes a position that was on the stack the table was built against |
| Play.ColColNoRepeat | Game/solitaire_engine.py:361-378 | the same for a column-to-column entry, when the card revealed is the one the filter tried, or no card is revealed |
| Play.ChanceAction | Game/solitaire_engine.py:453-463 | the chance test fails exactly when playing the key fails, and with the same error |
| Play.ChanceIffReveals | Game/solitaire_engine.py:453-463 | an action is a chance action exactly when it turns up a card from the main deck |
| Play.WonAsWrittenNever | Game/solitaire_engine.py:67-77 | as written no game is ever won, so the game is over exactly when it is lost |
| Play.WonIffFullHeaps | Game/solitaire_engine.py:70-77 | with the intended test, a game is won exactly when each heap holds 13 cards, each then Ace to King of one suit |
| Play.EntryMeansNotLost | Game/solitaire_engine.py:79-85 | a game with any table entry is not lost |
| Play.ColumnToHeapNotLost | Game/solitaire_engine.py:79-85 | an allowed column-to-heap move means the game is not lost |
| Play.HeapToColumnNotLost | Game/solitaire_engine.py:79-85 | the same for an allowed heap-to-column move to an unvisited position |
| Play.ColumnToColumnNotLost | Game/solitaire_engine.py:79-85 | the same for a column pair with a qualifying count |
| Play.NotLostHasMove | Game/solitaire_engine.py:79-85 | a game that is not lost has a table entry that was legal when the table was built |
| Invariants.ApplyConserves | Game/solitaire_engine.py:138-304 | every move keeps the 52 cards, counting sub-deck, heaps, columns and main deck together, and lowers the face-down debt by one exactly when it reveals |
| Invariants.DeckToHeapConserves | Game/solitaire_engine.py:138-161 | deck to heap keeps every card and leaves the columns alone |
| Invariants.DeckToColumnConserves | Game/solitaire_engine.py:183-205 | deck to column keeps every card and the face-down debt |
| Invariants.ColumnToHeapConserves | Game/solitaire_engine.py:220-242 | column to heap keeps every card and lowers the debt by one exactly when it reveals |
| Invariants.HeapToColumnConserves | Game/solitaire_engine.py:259-271 | heap to column keeps every card and the debt |
| Invariants.ColumnToColumnConserves | Game/solitaire_engine.py:283-304 | column to column keeps every card and lowers the debt by one exactly when it reveals |
| Invariants.RevealNeedsDeck | Game/solitaire_engine.py:237-238 | under the invariant, a move that reveals always finds a card in the main deck |
| Invariants.ApplyKeepsInv | Game/solitaire_engine.py:138-304 | every in-bounds move preserves the whole-game invariant |
| Invariants.PlayKeepsInv | Game/solitaire_engine.py:423-451 | every successful play preserves the whole-game invariant |
| Invariants.CensusDistinct | Game/solitaire_engine.py:33-57 | when the places together hold the full deck, no card is twice in the main deck, twice in a column or heap, or in two heaps |
| Invariants.ApplyKeepsFoundations | Game/solitaire_engine.py:138-304 | every in-bounds move keeps every heap a foundation |
| Invariants.DeckToHeapFoundations | Game/solitaire_engine.py:138-161 | deck to heap adds only a card the heap accepts, so the heaps stay foundations |
| Invariants.ColumnToHeapFoundations | Game/solitaire_engine.py:220-242 | the same for column to heap |
| Invariants.HeapToColumnFoundations | Game/solitaire_engine.py:259-271 | heap to column takes a heap's top card, which leaves a foundation |
| Invariants.CodesFollowBoard | Game/solitaire_engine.py:33-57 | under the invariant the codes are determined by the board and the main deck: two positions that agree on those have the same codes |
| Invariants.InvWonIffFullHeaps | Game/solitaire_engine.py:70-77 | under the invariant, the intended `is_won` holds exactly when all four heaps hold 13 cards |
| Invariants.FingerprintSeparates | Game/solitaire_engine.py:465-475 | two code maps that give one card different codes have different fingerprints |
| Invariants.HeapToColumnRecodes | Game/solitaire_engine.py:259-271 | with codes in step with the board, a heap-to-column move changes the fingerprint, because the moved card goes from code 7 to the column's code |
| Invariants.ColumnToColumnCodes | Game/solitaire_engine.py:283-304 | after a column-to-column move, the run carries the target column's code, and a revealed card carries the source column's |
| Invariants.ColumnToColumnRecodes | Game/solitaire_engine.py:283-304 | with codes in step with the board, moving at least one card between two different columns changes the fingerprint |
| Invariants.ColColEntryRecodes | Game/solitaire_engine.py:361-378 | a column-to-column table entry is in bounds, and playing its move changes the fingerprint |
| Invariants.HeapColNeverRepeats | Game/solitaire_engine.py:350-359 | with codes in step with the board, a heap-to-column entry pushes a fingerprint that is on no part of the current stack, including a fingerprint pushed after the table was built |
| Invariants.ColColNeverRepeats | Game/solitaire_engine.py:361-378 | the same for a column-to-column entry, whatever card a reveal brings |
| Invariants.RevealedIsNew | Game/solitaire_engine.py:297-302 | a column-to-column move that reveals a card reaches a fingerprint on no part of the stack, because the revealed card had the undrawn code in every stacked fingerprint and now has the source column's |
| Invariants.PushUndrawn | Game/solitaire_engine.py:447-451 | shrinking the main deck and pushing a fingerprint that codes none of its cards keeps every stacked fingerprint undrawn on the main deck |
| Invariants.PlayKeepsStackUndrawn | Game/solitaire_engine.py:423-451 | every successful play keeps every stacked fingerprint giving the undrawn code to each card still in the main deck |
| Locations.ApplyMatch | Game/solitaire_engine.py:138-304 | every in-bounds move keeps the codes in step with the board, as long as a reveal takes its card from the main deck |
| Locations.DrawMatch | Game/solitaire_engine.py:93-116 | a draw changes no codes and no piles, so the codes stay in step |
| Locations.DeckToHeapMatch | Game/solitaire_engine.py:138-161 | deck to heap codes the card 7 and recodes the later sub-deck cards, which keeps the codes in step |
| Locations.DeckToColumnMatch | Game/solitaire_engine.py:183-205 | deck to column codes the card with the column and recodes the later sub-deck cards, which keeps the codes in step |
| Locations.ColumnToHeapMatch | Game/solitaire_engine.py:220-242 | column to heap codes the card 7, and a revealed card with its column |
| Locations.HeapToColumnMatch | Game/solitaire_engine.py:259-271 | heap to column codes the card with its new column |
| Locations.ColumnToColumnMatch | Game/solitaire_engine.py:283-304 | column to column codes the run with the target column, and a revealed card with the source column |
| Locations.RevealMatch | Game/solitaire_engine.py:236-242 | a reveal takes a card out of the main deck and codes it with its column, which keeps the codes in step |
| Locations.TakeFromSub | Game/solitaire_engine.py:149-158 | taking a card out of a coded sub-deck and giving it a pile's code leaves the shorter sub-deck coded by offset, keeps the set of coded cards, and keeps every pile code |
| Locations.RunRecoded | Game/solitaire_engine.py:292-295 | giving a run the target column's code keeps the coded set and the sub-deck codes, and codes every pile with its own code after the run moves |
| Locations.SubCodedNoDup | Game/solitaire_engine.py:38-42 | a sub-deck coded by offset has no card twice |
| Deal.DealSubDeck | Game/solitaire_engine.py:38-42 | the sub-deck is the last 24 cards, popped in order, each coded with its sub-deck offset |
| Deal.DealColumns | Game/solitaire_engine.py:47-53 | column i waits for i + 1 cards and turns up the next popped card, which is coded i |
| Deal.DealtColumns | Game/solitaire_engine.py:47-53 | after the deal, column i holds exactly the card at position 27 - i and waits for i more |
| Deal.OpeningInv | Game/solitaire_engine.py:20-57 | the opening position satisfies the whole-game invariant |
| Deal.OpeningUndrawn | Game/solitaire_engine.py:58-60 | the opening stack holds only the opening fingerprint, which gives the undrawn code to every main-deck card |
| Deal.OpeningCodes | Game/solitaire_engine.py:33-53 | the codes written by the deal agree with the opening board: exactly the 31 dealt cards are coded, each with the code of its place |
| Deal.NewGame | Game/solitaire_engine.py:20-65 | the opening board, codes, zero reward, score and time, a stack holding the opening fingerprint, and the legal table of that position; 21 cards stay in the main deck |
| SearchTree.NewNode | IA/node_stocha.py:9-31 | a new node has the given parent, game and action, zero statistics, no children, and the game's legal actions |
| SearchTree.NbChildren | IA/node_stocha.py:45-51 | an action's child count is 0 without a list, otherwise the list's length |
| SearchTree.AddChild | IA/node_stocha.py:33-43 | the child is appended to the action's list, which is created when missing; other lists and fields are unchanged |
| SearchTree.UpdateNode | IA/node_stocha.py:53-60 | one update adds one visit, the reward and the squared reward, and changes nothing else |
| SearchTree.UpdateAllTotals | IA/node_stocha.py:53-60 | after the updates of a reward sequence, a fresh node counts its length, its sum and its sum of squares |
| SearchTree.MaxChildren | IA/node_stocha.py:62-69 | the cap is the width for a chance action and 1 for any other |
| SearchTree.NewTree | IA/mcts_stocha.py:14-23 | a new search holds only the root for the game, and that tree is well formed |
| SearchTree.Depth | IA/node_stocha.py:71-76 | the intended depth is 0 exactly at the root and counts the steps to the root |
| SearchTree.DepthAsWritten | IA/node_stocha.py:75-76 | as written, the root's depth fails on its missing parent and every other node answers 0 |
| SearchTree.DepthAsWrittenDisagrees | IA/node_stocha.py:75-76 | the written depth is wrong at every node |
| Mcts.Unsampled | IA/mcts_stocha.py:52-56 | the unsampled actions are exactly the legal actions with no child list |
| Mcts.BestIndex | IA/mcts_stocha.py:63-72 | the chosen action has the largest score, and it is the first legal action with that score |
| Mcts.Select | IA/mcts_stocha.py:42-80 | selection returns the start node or a descendant; its action is -1 exactly at a node with no legal action, and otherwise a legal action that can take another child; with an unsampled action at the start it stays there on an unsampled action; it descends only through a full list; once every legal action has children, it takes the best-scoring action, stays with it when its list is not full, and otherwise goes below one of its children |
| Mcts.BestAction | IA/mcts_stocha.py:63-72 | the action taken once every legal action is sampled is a legal action with the largest `ucb` score, and every legal action listed before it scores strictly less |
| Mcts.Expand | IA/mcts_stocha.py:82-92 | expansion adds one node for the played position as the action's last child, and changes no other node |
| Mcts.ExpandKeepsWF | IA/mcts_stocha.py:82-92 | expansion preserves the tree's well-formedness |
| Mcts.ExpandDepth | IA/mcts_stocha.py:82-92 | the new node is one deeper than its parent, and every other depth is kept |
| Mcts.Backpropagate | IA/mcts_stocha.py:111-119 | exactly the node and its ancestors record the reward; all other nodes and all links are unchanged |
| Mcts.BackpropagateKeepsWF | IA/mcts_stocha.py:111-119 | backpropagation preserves the tree's well-formedness |
| Mcts.GrowAccounted | IA/mcts_stocha.py:132-138 | after an iteration, every node's statistics still count exactly the playouts started at or below it |
| Mcts.GrowCapped | IA/mcts_stocha.py:74-80 | no action ever gets more children than its cap |
| Mcts.UcbDefined | IA/mcts_stocha.py:25-40 | when every legal action is sampled, each list is non-empty and each child and the node have visits, so the score's divisions and logarithm are defined |
| Mcts.ThroughRoot | IA/mcts_stocha.py:132-138 | the root counts one playout per node below it |
| Mcts.TreeSearch | IA/mcts_stocha.py:121-138 | the loop runs at most the given number of iterations and adds one node per iteration; it stops early only at a terminal selection; it leaves a well-formed, capped tree whose statistics account for every playout, with the root visited once per iteration |
| KlondikeSearch.LegalKeysWF | Game/solitaire_engine.py:306-380 | the engine's legal keys are distinct and never -1, which is what the search assumes of a game |

## Left out

- `Game/deck.py` is not part of this model. The shuffled deck is a parameter of `Deal.NewGame`, and the card that `draw(True)` reveals is the `revealed` parameter of the moves.
- The random reveals replayed inside `legal_actions` come from a deep copy drawing from the main deck. They are a `pick` oracle.
- Deep copies and the mutation of Python objects are not modelled. Every operation returns a new value.
- `render`, `get_header`, the whole of `main.py`, and the root-level `solitaire_engine.py` and `deck.py` are presentation or driver code.
- `get_reward` only reads the `reward` field. The field itself is modelled.
- `compute_ucb` uses floating point, `log2` and `sqrt`. The UCB score is the parameter `ucb` of the search. `Mcts.UcbDefined` states when its arguments are defined.
- `simulation` is a random playout. It is the parameter `simulate` of `Mcts.TreeSearch`.
- The policy normalisation at the end of `tree_search` is floating point over `compute_ucb` values.
- `Mcts.BestIndex` compares against the first action's score instead of negative infinity. The two choices coincide because reals have no infinities or NaN.
- A draw action is never stored by `legal_actions`, and the model follows the code. `play` can dispatch `'draw'` (Game/solitaire_engine.py:423-451), which `Play.Play` models, but no table entry ever holds it.
- The deck loop of `legal_actions` keeps going until a shown card repeats. After pops leave a short window, it can run past 9 rotations and write deck entries at slot 99 and beyond. The model keeps the loop as written. `Legal.DeckComplete` and `Play.LegalTableExact` claim completeness only for deck entries below slot 99 within the rotations visited.
- Play.ColColNoRepeat: only claims freshness when the card revealed by the actual play is the one the filter tried, or when nothing is revealed. The filter's random reveal need not match the real one.
- Klondike.GetState: returns the fingerprint with a two-digit-per-code key, and the cycle filter of `legal_actions` compares fingerprints. The source joins the codes without separators (Game/solitaire_engine.py:476) and compares those strings (Game/solitaire_engine.py:357, 373). The two comparisons agree whenever the compared vectors have their one-digit codes at the same positions (`Fingerprints.JoinAligned`). The model does not prove that every pair of positions met within one game is aligned in this way.
- SearchTree.UpdateNode: the totals `t`, `t2` and the reward are Python floats (IA/node_stocha.py:58-60). The model keeps them as exact `real`s, so floating-point rounding of the sums is not modelled.
- SearchTree.UpdateAllTotals: states exact real sums; with floats the accumulated totals can differ from the exact sums by rounding.
- `index_action_to_name` builds string names such as `'col' + str(j) + '-to-heap' + str(i)` (Game/solitaire_engine.py:382-407). The model names slots with the `Actions.Name` datatype instead. Its constructors carry the same numbers as the strings, so the string spelling is not modelled.
- Mcts.Select: the random indices are `pick(node, n) % n` rather than a uniform draw. The tie-break for the largest score is the first maximum, as in the source.

## Findings

| source | as written | input that shows it | evidently intended | confidence | as-written member | corrected member |
|---|---|---|---|---|---|---|
| Game/heap.py:13 | `is_complete` compares the top `Card` object with the integer `KING`, which is never equal, so `is_won` is never true and `is_over` is just `is_lost` | a heap holding Ace to King of clubs | the top card's rank is `KING` | not executed; medium, since it relies on `Card` having no equality with integers | Heaps.AsWrittenNeverComplete | Heaps.CompleteFoundation |
| Game/solitaire_engine.py:476 | the state string joins the codes without separators, so the join is not injective on code vectors | code vectors starting [1, 12] and [11, 2] with the same remaining codes (vectors only, not shown to be two positions of one game) | a key that keeps code boundaries, such as two digits per code | not executed; low as a game-level fault, since vectors with one-digit codes at the same positions never collide | Fingerprints.JoinCollides | Fingerprints.KeyRoundTrip |
| IA/node_stocha.py:75 | `depth` has its branches swapped: the root dereferences its missing parent and every other node answers 0 | the root, or any node with a parent | 0 at the root, one more than the parent's depth elsewhere | not executed; high | SearchTree.DepthAsWrittenDisagrees | Mcts.ExpandDepth |
