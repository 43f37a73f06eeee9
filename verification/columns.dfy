/** Tableau columns: face-up cards (top last) above a count of face-down cards still to reveal. */
module Columns {
  import opened Cards
  import opened Seqs

  datatype Column = Column(nbToDraw: int, cards: seq<Card>)

  /** A fresh column number `number` waits for `number + 1` cards and shows none. */
  function NewColumn(number: int): (c: Column)
    ensures c.cards == [] && c.nbToDraw == number + 1
    ensures NeedReveal(c) <==> number >= 0
    ensures IsEmpty(c) <==> number == -1
  {
    Column(number + 1, [])
  }

  predicate NeedReveal(c: Column)
  {
    |c.cards| == 0 && c.nbToDraw > 0
  }

  predicate IsEmpty(c: Column)
  {
    |c.cards| == 0 && c.nbToDraw == 0
  }

  /** A column without face-up cards either needs a reveal or is empty, never both. */
  lemma RevealOrEmpty(c: Column)
    ensures !(NeedReveal(c) && IsEmpty(c))
    ensures |c.cards| == 0 && c.nbToDraw >= 0 ==> NeedReveal(c) != IsEmpty(c)
    ensures |c.cards| > 0 ==> !NeedReveal(c) && !IsEmpty(c)
  {
  }

  /** True when both suits are red or both are black. */
  predicate SameColor(card1: Card, card2: Card)
  {
    if card1.color in REDS && card2.color in REDS then true
    else if card1.color in BLACKS && card2.color in BLACKS then true
    else false
  }

  lemma SameColorClass(card1: Card, card2: Card)
    ensures SameColor(card1, card2) == SameColor(card2, card1)
    ensures SameColor(card1, card2) <==> (IsRed(card1.color) <==> IsRed(card2.color))
  {
    ColourClassesPartition();
  }

  /** The tableau rule: a King on a column without face-up cards, otherwise one rank
      below the top card and of the other colour class. */
  predicate CanAdd(col: Column, card: Card)
  {
    if |col.cards| == 0 then
      card.rank == KING
    else
      var top := col.cards[|col.cards| - 1];
      if card.rank != top.rank - 1 then false
      else if SameColor(top, card) then false
      else true
  }

  lemma CanAddOnEmpty(col: Column, card: Card)
    requires |col.cards| == 0
    ensures CanAdd(col, card) <==> card.rank == KING
  {
  }

  lemma CanAddOnTop(col: Column, card: Card)
    requires |col.cards| > 0
    ensures CanAdd(col, card) <==>
      card.rank + 1 == col.cards[|col.cards| - 1].rank
      && IsRed(card.color) != IsRed(col.cards[|col.cards| - 1].color)
  {
    SameColorClass(col.cards[|col.cards| - 1], card);
  }

  predicate CanRemove(col: Column, number: int)
  {
    |col.cards| >= number
  }

  /** A well-built tableau run: each card one rank below the card under it, colours alternating. */
  predicate IsRun(s: seq<Card>)
  {
    forall i :: 0 < i < |s| ==> s[i].rank + 1 == s[i - 1].rank && IsRed(s[i].color) != IsRed(s[i - 1].color)
  }

  function AddCards(col: Column, cs: seq<Card>): (r: Column)
    ensures r.nbToDraw == col.nbToDraw
    ensures r.cards == col.cards + cs
  {
    col.(cards := col.cards + cs)
  }

  /** A column allows removing up to as many cards as it holds and no more; in particular the
      cards just added may be removed again. */
  lemma RemovableUpToSize(col: Column, cs: seq<Card>, n: int)
    ensures CanRemove(col, n) <==> n <= |col.cards|
    ensures CanRemove(AddCards(col, cs), |cs|) && !CanRemove(col, |col.cards| + 1)
  {
  }

  /** Appending a run whose bottom card the column accepts keeps the column a run. */
  lemma AddRunKeepsRun(col: Column, run: seq<Card>)
    requires IsRun(col.cards) && IsRun(run) && |run| > 0
    requires CanAdd(col, run[0])
    ensures IsRun(AddCards(col, run).cards)
  {
    var s := AddCards(col, run).cards;
    if |col.cards| > 0 {
      CanAddOnTop(col, run[0]);
    }
    forall i | 0 < i < |s|
      ensures s[i].rank + 1 == s[i - 1].rank && IsRed(s[i].color) != IsRed(s[i - 1].color)
    {
      if i > |col.cards| {
        assert s[i] == run[i - |col.cards|] && s[i - 1] == run[i - 1 - |col.cards|];
      }
    }
  }

  /** Reveals `card` on a column: one fewer hidden card, `card` on top. */
  function RevealCard(col: Column, card: Card): (r: Column)
    ensures r.nbToDraw == col.nbToDraw - 1
    ensures r.cards == col.cards + [card]
    ensures !NeedReveal(r) && !IsEmpty(r)
    ensures NeedReveal(col) ==> IsRun(r.cards)
  {
    AddCards(col.(nbToDraw := col.nbToDraw - 1), [card])
  }

  /** The top `number` cards split off, bottom-to-top, and the column left behind. */
  function TakeTop(col: Column, number: nat): (r: (Column, seq<Card>))
    requires number <= |col.cards|
    ensures r.0.cards + r.1 == col.cards
    ensures |r.1| == number && r.0.nbToDraw == col.nbToDraw
  {
    var k := |col.cards| - number;
    (col.(cards := col.cards[..k]), col.cards[k..])
  }

  /** Pops `number` cards one by one and reverses them, as the source does; the result is the
      top of the column in its original bottom-to-top order. */
  method RemoveCards(col: Column, number: nat) returns (rest: Column, taken: seq<Card>)
    requires number <= |col.cards|
    ensures rest.cards + taken == col.cards
    ensures |taken| == number && rest.nbToDraw == col.nbToDraw
    ensures (rest, taken) == TakeTop(col, number)
  {
    var popped: seq<Card> := [];
    var pile := col.cards;
    var i := 0;
    while i < number
      invariant 0 <= i <= number
      invariant pile == col.cards[..|col.cards| - i]
      invariant popped == Reverse(col.cards[|col.cards| - i..])
    {
      var top := pile[|pile| - 1];
      ghost var before := col.cards[|col.cards| - i..];
      ghost var after := col.cards[|col.cards| - (i + 1)..];
      assert after == [top] + before;
      assert after[1..] == before;
      assert Reverse(after) == Reverse(before) + [top];
      popped := popped + [top];
      pile := pile[..|pile| - 1];
      i := i + 1;
    }
    ReverseInvolution(col.cards[|col.cards| - number..]);
    taken := Reverse(popped);
    rest := col.(cards := pile);
  }

  /** Taking back the cards just added restores the column. */
  lemma AddThenTake(col: Column, cs: seq<Card>)
    ensures TakeTop(AddCards(col, cs), |cs|) == (col, cs)
  {
    var added := AddCards(col, cs);
    assert added.cards[..|col.cards|] == col.cards;
    assert added.cards[|col.cards|..] == cs;
  }

  /** Adding back the cards just taken restores the column. */
  lemma TakeThenAdd(col: Column, number: nat)
    requires number <= |col.cards|
    ensures AddCards(TakeTop(col, number).0, TakeTop(col, number).1) == col
  {
  }

  /** The top part of a run is a run, and so is what remains below it. */
  lemma TakeTopOfRun(col: Column, number: nat)
    requires number <= |col.cards| && IsRun(col.cards)
    ensures IsRun(TakeTop(col, number).0.cards) && IsRun(TakeTop(col, number).1)
  {
    var k := |col.cards| - number;
    var top := TakeTop(col, number).1;
    forall i | 0 < i < |top|
      ensures top[i].rank + 1 == top[i - 1].rank && IsRed(top[i].color) != IsRed(top[i - 1].color)
    {
      assert top[i] == col.cards[k + i] && top[i - 1] == col.cards[k + i - 1];
    }
  }
}
