/** Foundation heaps: same-suit piles built upwards from the Ace. */
module Heaps {
  import opened Cards

  datatype Heap = Heap(cards: seq<Card>)

  const EMPTY_HEAP: Heap := Heap([])

  /** The completeness test as the source writes it: the top card object is compared with
      the integer KING, and a card object never equals an integer. */
  predicate IsCompleteAsWritten(h: Heap)
  {
    if |h.cards| > 0 then
      var topEqualsKing := false; // `self.cards[-1] == KING` compares a Card with an int
      topEqualsKing
    else
      false
  }

  /** The intended completeness test: the top card is a King. */
  predicate IsComplete(h: Heap)
  {
    |h.cards| > 0 && h.cards[|h.cards| - 1].rank == KING
  }

  /** The foundation rule: an Ace on an empty heap, otherwise the next rank of the same suit. */
  predicate CanAdd(h: Heap, card: Card)
  {
    if |h.cards| == 0 then
      card.rank == ACE
    else
      var top := h.cards[|h.cards| - 1];
      if card.rank != top.rank + 1 then false
      else if card.color != top.color then false
      else true
  }

  predicate CanRemove(h: Heap)
  {
    |h.cards| > 0
  }

  function AddCard(h: Heap, card: Card): (r: Heap)
    ensures r.cards == h.cards + [card]
  {
    Heap(h.cards + [card])
  }

  /** Pops the top card. */
  function RemoveCard(h: Heap): (r: (Heap, Card))
    requires CanRemove(h)
    ensures |r.0.cards| == |h.cards| - 1
    ensures r.0.cards + [r.1] == h.cards
  {
    (Heap(h.cards[..|h.cards| - 1]), h.cards[|h.cards| - 1])
  }

  /** Only a heap holding a card allows a removal: one just added to does, the empty heap
      does not. */
  lemma RemovableAfterAdd(h: Heap, card: Card)
    ensures CanRemove(AddCard(h, card)) && !CanRemove(EMPTY_HEAP)
  {
  }

  /** A foundation: Ace, Two, Three, ... all of the suit of the bottom card. */
  predicate IsFoundation(s: seq<Card>)
  {
    forall i :: 0 <= i < |s| ==> s[i].rank == i + 1 && s[i].color == s[0].color
  }

  function FullSuit(s: Suit): (r: seq<Card>)
    ensures |r| == 13
  {
    seq(13, i requires 0 <= i < 13 => Card(s, i + 1))
  }

  lemma CanAddOnEmpty(h: Heap, card: Card)
    requires |h.cards| == 0
    ensures CanAdd(h, card) <==> card.rank == ACE
  {
  }

  lemma CanAddOnTop(h: Heap, card: Card)
    requires |h.cards| > 0
    ensures CanAdd(h, card) <==>
      card.rank == h.cards[|h.cards| - 1].rank + 1 && card.color == h.cards[|h.cards| - 1].color
  {
  }

  /** On a foundation, the heap accepts a card exactly when adding it leaves a foundation. */
  lemma CanAddIffExtends(h: Heap, card: Card)
    requires IsFoundation(h.cards)
    ensures CanAdd(h, card) <==> IsFoundation(AddCard(h, card).cards)
  {
    var s := AddCard(h, card).cards;
    if CanAdd(h, card) {
      assert IsFoundation(s) by {
        forall i | 0 <= i < |s|
          ensures s[i].rank == i + 1 && s[i].color == s[0].color
        {
          if i == |h.cards| && i > 0 {
            assert s[i - 1] == h.cards[i - 1];
          }
        }
      }
    }
    if IsFoundation(s) {
      assert s[|h.cards|] == card && s[|h.cards|].rank == |h.cards| + 1;
      if |h.cards| > 0 {
        assert s[|h.cards| - 1] == h.cards[|h.cards| - 1] && s[|h.cards| - 1].rank == |h.cards|;
        assert s[0] == h.cards[0];
      }
    }
  }

  /** Taking the top off a foundation leaves a foundation. */
  lemma RemoveKeepsFoundation(h: Heap)
    requires CanRemove(h) && IsFoundation(h.cards)
    ensures IsFoundation(RemoveCard(h).0.cards)
  {
  }

  /** Adding a card and removing it again gives back the card and the heap. */
  lemma AddThenRemove(h: Heap, card: Card)
    ensures RemoveCard(AddCard(h, card)) == (h, card)
  {
    assert AddCard(h, card).cards[..|h.cards|] == h.cards;
  }

  lemma RemoveThenAdd(h: Heap)
    requires CanRemove(h)
    ensures AddCard(RemoveCard(h).0, RemoveCard(h).1) == h
  {
  }

  /** Folds `cards` into `h` through guarded adds, skipping every card the heap refuses. */
  function Grow(h: Heap, cards: seq<Card>): Heap
    decreases |cards|
  {
    if |cards| == 0 then h
    else Grow(if CanAdd(h, cards[0]) then AddCard(h, cards[0]) else h, cards[1..])
  }

  /** A heap built only through guarded adds is a foundation. */
  lemma {:induction false} GrowKeepsFoundation(h: Heap, cards: seq<Card>)
    requires IsFoundation(h.cards)
    ensures IsFoundation(Grow(h, cards).cards)
    decreases |cards|
  {
    if |cards| > 0 {
      CanAddIffExtends(h, cards[0]);
      GrowKeepsFoundation(if CanAdd(h, cards[0]) then AddCard(h, cards[0]) else h, cards[1..]);
    }
  }

  /** A foundation never exceeds 13 cards and is complete exactly when it holds all 13. */
  lemma CompleteFoundation(h: Heap)
    requires IsFoundation(h.cards)
    ensures |h.cards| <= 13
    ensures IsComplete(h) <==> |h.cards| == 13
    ensures IsComplete(h) ==> h.cards == FullSuit(h.cards[0].color)
  {
    if |h.cards| > 0 {
      assert h.cards[|h.cards| - 1].rank == |h.cards|;
    }
  }

  lemma EmptyIsNotComplete()
    ensures !IsComplete(EMPTY_HEAP) && !IsCompleteAsWritten(EMPTY_HEAP)
  {
  }

  /** As written, no heap is ever complete, not even the full Ace-to-King run of a suit. */
  lemma {:induction false} AsWrittenNeverComplete(h: Heap)
    ensures !IsCompleteAsWritten(h)
    ensures IsFoundation(FullSuit(Clubs)) && IsComplete(Heap(FullSuit(Clubs)))
    ensures !IsCompleteAsWritten(Heap(FullSuit(Clubs)))
  {
  }
}
