/** Sequence helpers shared by the piles: distinctness, reversal, removal at an index,
    integer ranges and the multiset of a sequence of piles. */
module Seqs {

  predicate NoDup<T(==)>(s: seq<T>)
  {
    forall i, j :: 0 <= i < j < |s| ==> s[i] != s[j]
  }

  function Reverse<T>(s: seq<T>): (r: seq<T>)
    ensures |r| == |s|
  {
    if |s| == 0 then [] else Reverse(s[1..]) + [s[0]]
  }

  lemma {:induction false} ReverseIndex<T>(s: seq<T>)
    ensures forall i :: 0 <= i < |s| ==> Reverse(s)[i] == s[|s| - 1 - i]
    decreases |s|
  {
    if |s| > 0 {
      ReverseIndex(s[1..]);
    }
  }

  lemma ReverseInvolution<T>(s: seq<T>)
    ensures Reverse(Reverse(s)) == s
  {
    ReverseIndex(s);
    ReverseIndex(Reverse(s));
  }

  /** `s` with the element at position `k` taken out, as Python's `list.pop(k)` leaves it. */
  function RemoveAt<T>(s: seq<T>, k: nat): (r: seq<T>)
    requires k < |s|
    ensures |r| == |s| - 1
    ensures forall j :: 0 <= j < k ==> r[j] == s[j]
    ensures forall j :: k <= j < |r| ==> r[j] == s[j + 1]
    ensures multiset(r) + multiset{s[k]} == multiset(s)
  {
    assert s == s[..k] + [s[k]] + s[k + 1..];
    s[..k] + s[k + 1..]
  }

  /** Removing an element keeps a sequence duplicate-free, and the removed element is gone. */
  lemma RemoveAtNoDup<T>(s: seq<T>, k: nat)
    requires NoDup(s) && k < |s|
    ensures NoDup(RemoveAt(s, k))
    ensures forall x :: x in RemoveAt(s, k) ==> x in s && x != s[k]
  {
    var r := RemoveAt(s, k);
    forall i, j | 0 <= i < j < |r|
      ensures r[i] != r[j]
    {
      assert r[i] == s[if i < k then i else i + 1] && r[j] == s[if j < k then j else j + 1];
    }
    forall x | x in r
      ensures x in s && x != s[k]
    {
      var i :| 0 <= i < |r| && r[i] == x;
      assert r[i] == s[if i < k then i else i + 1];
    }
  }

  /** In a duplicate-free sequence an element does not occur again after its position. */
  lemma NotInSuffix<T>(s: seq<T>, j: nat, t: nat)
    requires NoDup(s) && j < t <= |s|
    ensures s[j] !in s[t..]
  {
    forall i | t <= i < |s|
      ensures s[j] != s[i]
    {
    }
  }

  /** A duplicate-free sequence split in two has no element on both sides. */
  lemma SplitDisjoint<T>(s: seq<T>, k: nat)
    requires NoDup(s) && k <= |s|
    ensures forall x :: x in s[..k] ==> x !in s[k..]
  {
    forall x | x in s[..k]
      ensures x !in s[k..]
    {
      var j :| 0 <= j < k && s[..k][j] == x;
      NotInSuffix(s, j, k);
    }
  }

  /** The integers lo, lo + 1, ..., hi - 1, like Python's `range(lo, hi)`. */
  function Range(lo: int, hi: int): (r: seq<int>)
    ensures |r| == if lo <= hi then hi - lo else 0
    ensures forall i :: 0 <= i < |r| ==> r[i] == lo + i
    decreases hi - lo
  {
    if lo >= hi then [] else [lo] + Range(lo + 1, hi)
  }

  function Min(a: int, b: int): int
  {
    if a <= b then a else b
  }

  /** A sequence is duplicate-free exactly when no element has multiplicity above one. */
  lemma {:induction false} NoDupIffCounts<T>(s: seq<T>)
    ensures NoDup(s) <==> forall x :: multiset(s)[x] <= 1
    decreases |s|
  {
    if |s| > 0 {
      var last := |s| - 1;
      var init := s[..last];
      assert s == init + [s[last]];
      NoDupIffCounts(init);
      if NoDup(s) {
        assert NoDup(init);
        assert s[last] !in init;
        forall x
          ensures multiset(s)[x] <= 1
        {
          assert multiset(s)[x] == multiset(init)[x] + multiset([s[last]])[x];
        }
      } else {
        var i, j :| 0 <= i < j < |s| && s[i] == s[j];
        if j == last {
          assert s[i] in init;
          assert multiset(s)[s[j]] == multiset(init)[s[j]] + 1;
        } else {
          assert !NoDup(init) by { assert init[i] == init[j]; }
          var x :| multiset(init)[x] > 1;
          assert multiset(s)[x] == multiset(init)[x] + multiset([s[last]])[x];
        }
      }
    }
  }

  /** The multiset of all elements of a sequence of piles. */
  function BagOf<T>(piles: seq<seq<T>>): multiset<T>
    decreases |piles|
  {
    if |piles| == 0 then multiset{} else BagOf(piles[..|piles| - 1]) + multiset(piles[|piles| - 1])
  }

  /** Piles whose bag fits in a bag without repeats repeat no element, within a pile or across
      two piles. */
  lemma PilesWithinSet<T>(piles: seq<seq<T>>, bound: multiset<T>)
    requires BagOf(piles) <= bound && forall x :: bound[x] <= 1
    ensures forall i :: 0 <= i < |piles| ==> NoDup(piles[i])
    ensures forall i, j, x :: 0 <= i < |piles| && 0 <= j < |piles| && i != j && x in piles[i] ==> x !in piles[j]
  {
    forall i | 0 <= i < |piles|
      ensures NoDup(piles[i])
    {
      BagOfParts(piles, i, i);
      forall x
        ensures multiset(piles[i])[x] <= 1
      {
        assert multiset(piles[i])[x] <= BagOf(piles)[x] <= bound[x];
      }
      NoDupIffCounts(piles[i]);
    }
    forall i, j, x | 0 <= i < |piles| && 0 <= j < |piles| && i != j && x in piles[i]
      ensures x !in piles[j]
    {
      BagOfParts(piles, i, j);
      assert (multiset(piles[i]) + multiset(piles[j]))[x] <= BagOf(piles)[x] <= bound[x];
    }
  }

  /** An element of the bag lies in one of the piles. */
  lemma {:induction false} BagOfMember<T>(piles: seq<seq<T>>, x: T)
    requires x in BagOf(piles)
    ensures exists i :: 0 <= i < |piles| && x in piles[i]
    decreases |piles|
  {
    var last := |piles| - 1;
    if x !in multiset(piles[last]) {
      BagOfMember(piles[..last], x);
      var i :| 0 <= i < last && x in piles[..last][i];
      assert piles[..last][i] == piles[i];
    }
  }

  /** Replacing one pile changes the bag by exactly that pile's difference. */
  lemma {:induction false} BagOfUpdate<T>(piles: seq<seq<T>>, i: nat, p: seq<T>)
    requires i < |piles|
    ensures BagOf(piles[i := p]) + multiset(piles[i]) == BagOf(piles) + multiset(p)
    decreases |piles|
  {
    var last := |piles| - 1;
    var q := piles[i := p];
    if i < last {
      assert BagOf(q[..last]) + multiset(piles[i]) == BagOf(piles[..last]) + multiset(p) by {
        assert q[..last] == piles[..last][i := p];
        assert piles[..last][i] == piles[i];
        BagOfUpdate(piles[..last], i, p);
      }
      assert BagOf(q) == BagOf(q[..last]) + multiset(piles[last]) by {
        assert q[last] == piles[last];
      }
      assert BagOf(piles) == BagOf(piles[..last]) + multiset(piles[last]);
      var a, b := BagOf(q[..last]), BagOf(piles[..last]);
      assert (a + multiset(piles[last])) + multiset(piles[i]) == (a + multiset(piles[i])) + multiset(piles[last]);
      assert (b + multiset(p)) + multiset(piles[last]) == (b + multiset(piles[last])) + multiset(p);
    } else {
      assert q[..last] == piles[..last];
      assert BagOf(q) == BagOf(q[..last]) + multiset(p);
    }
  }

  /** A pile that gains `extra` on top adds exactly `extra` to the bag. */
  lemma PileGrow<T>(piles: seq<seq<T>>, i: nat, p: seq<T>, extra: seq<T>)
    requires i < |piles| && p == piles[i] + extra
    ensures BagOf(piles[i := p]) == BagOf(piles) + multiset(extra)
  {
    BagOfUpdate(piles, i, p);
    Cancel(BagOf(piles[i := p]), BagOf(piles), multiset(piles[i]), multiset(p), multiset(extra));
  }

  /** A pile that loses `extra` from its top takes exactly `extra` out of the bag. */
  lemma PileShrink<T>(piles: seq<seq<T>>, i: nat, p: seq<T>, extra: seq<T>)
    requires i < |piles| && piles[i] == p + extra
    ensures BagOf(piles) == BagOf(piles[i := p]) + multiset(extra)
  {
    BagOfUpdate(piles, i, p);
    Cancel(BagOf(piles), BagOf(piles[i := p]), multiset(p), multiset(piles[i]), multiset(extra));
  }

  lemma Cancel<T>(a: multiset<T>, b: multiset<T>, p: multiset<T>, q: multiset<T>, x: multiset<T>)
    requires a + p == b + q && q == p + x
    ensures a == b + x
  {
    assert forall t :: a[t] + p[t] == b[t] + p[t] + x[t] by {
      forall t ensures a[t] + p[t] == b[t] + p[t] + x[t] {
        assert (a + p)[t] == (b + q)[t];
      }
    }
  }

  /** The first `n` elements popped off the end of `s`, in the order they come off. */
  function Popped<T>(s: seq<T>, n: nat): (r: seq<T>)
    requires n <= |s|
    ensures |r| == n && forall i :: 0 <= i < n ==> r[i] == s[|s| - 1 - i]
  {
    if n == 0 then [] else Popped(s, n - 1) + [s[|s| - n]]
  }

  /** What was popped and what is left make up the whole sequence. */
  lemma {:induction false} PoppedCensus<T>(s: seq<T>, n: nat)
    requires n <= |s|
    ensures multiset(Popped(s, n)) + multiset(s[..|s| - n]) == multiset(s)
  {
    if n == 0 {
      assert s[..|s|] == s;
    } else {
      var k := |s| - n;
      PoppedCensus(s, n - 1);
      assert |s| - (n - 1) == k + 1;
      TakeOneMore(s, k);
      assert Popped(s, n) == Popped(s, n - 1) + [s[k]];
      MoveOne(multiset(Popped(s, n - 1)), multiset(s[..k + 1]), multiset(s[..k]),
        multiset{s[k]}, multiset(Popped(s, n)), multiset(s));
    }
  }

  /** Piles of one element each, taken in pop order from the end of `s`, hold what was popped. */
  lemma {:induction false} BagOfSingletons<T>(piles: seq<seq<T>>, s: seq<T>)
    requires |piles| <= |s| && forall i :: 0 <= i < |piles| ==> piles[i] == [s[|s| - 1 - i]]
    ensures BagOf(piles) == multiset(Popped(s, |piles|))
    decreases |piles|
  {
    var n := |piles|;
    if n > 0 {
      var init, x := piles[..n - 1], s[|s| - n];
      assert BagOf(piles) == BagOf(init) + multiset{x} by {
        assert piles[n - 1] == [x];
      }
      BagOfSingletons(init, s);
      assert multiset(Popped(s, n)) == multiset(Popped(s, n - 1)) + multiset{x} by {
        assert Popped(s, n) == Popped(s, n - 1) + [x];
      }
    }
  }

  /** One more element taken from the front of a sequence adds that element to its multiset. */
  lemma TakeOneMore<T>(s: seq<T>, k: nat)
    requires k < |s|
    ensures multiset(s[..k + 1]) == multiset(s[..k]) + multiset{s[k]}
  {
    assert s[..k + 1] == s[..k] + [s[k]];
  }

  /** Moving `x` from one bag `l` to another `b0` keeps their sum. */
  lemma MoveOne<T>(b0: multiset<T>, l: multiset<T>, s: multiset<T>, x: multiset<T>, b1: multiset<T>, w: multiset<T>)
    requires b0 + l == w && l == s + x && b1 == b0 + x
    ensures b1 + s == w
  {
  }

  /** One pile is part of the bag; two different piles together are part of it too. */
  lemma {:induction false} BagOfParts<T>(piles: seq<seq<T>>, i: nat, j: nat)
    requires i < |piles| && j < |piles|
    ensures multiset(piles[i]) <= BagOf(piles)
    ensures i != j ==> multiset(piles[i]) + multiset(piles[j]) <= BagOf(piles)
    decreases |piles|
  {
    var last := |piles| - 1;
    if i != last && j != last {
      BagOfParts(piles[..last], i, j);
    } else if i == last && j != last {
      BagOfParts(piles[..last], j, j);
    } else if i != last && j == last {
      BagOfParts(piles[..last], i, i);
    }
  }

  lemma {:induction false} BagOfSize<T>(piles: seq<seq<T>>)
    ensures |BagOf(piles)| == SumSizes(piles)
    decreases |piles|
  {
    if |piles| > 0 {
      BagOfSize(piles[..|piles| - 1]);
    }
  }

  function SumSizes<T>(piles: seq<seq<T>>): nat
    decreases |piles|
  {
    if |piles| == 0 then 0 else SumSizes(piles[..|piles| - 1]) + |piles[|piles| - 1]|
  }

  /** The counting loop `for n in lo..hi: if q(n): best = n`, resumed at `n` with `best` so far:
      it ends on the last count that passes `q`. */
  function LastFrom(q: int -> bool, hi: int, n: int, best: int): (r: int)
    ensures r == best || n <= r <= hi
    decreases hi + 1 - n
  {
    if n > hi then best else LastFrom(q, hi, n + 1, if q(n) then n else best)
  }

  /** Whatever the loop settles on, other than its start value, passes `q`. */
  lemma {:induction false} LastFromPasses(q: int -> bool, hi: int, n: int, best: int)
    ensures LastFrom(q, hi, n, best) != best ==> q(LastFrom(q, hi, n, best))
    decreases hi + 1 - n
  {
    if n <= hi {
      LastFromPasses(q, hi, n + 1, if q(n) then n else best);
    }
  }

  /** No count the loop visits above the one it settles on passes `q`. */
  lemma {:induction false} LastFromMaximal(q: int -> bool, hi: int, n: int, best: int, m: int)
    requires best < n <= m <= hi && LastFrom(q, hi, n, best) < m
    ensures !q(m)
    decreases hi + 1 - n
  {
    if n < m {
      LastFromMaximal(q, hi, n + 1, if q(n) then n else best, m);
    }
  }

  /** The loop only looks at `q` on the counts it visits: two tests that agree there give the
      same result. */
  lemma {:induction false} LastFromAgree(q1: int -> bool, q2: int -> bool, hi: int, n: int, best: int)
    requires forall m :: n <= m <= hi ==> q1(m) == q2(m)
    ensures LastFrom(q1, hi, n, best) == LastFrom(q2, hi, n, best)
    decreases hi + 1 - n
  {
    if n <= hi {
      LastFromAgree(q1, q2, hi, n + 1, if q1(n) then n else best);
    }
  }

  /** The elements of a sequence as a set. */
  function Elements<T(!new)>(s: seq<T>): (r: set<T>)
    ensures forall x :: x in r <==> x in s
  {
    set x | x in s
  }

  /** A duplicate-free sequence has as many elements as its set. */
  lemma {:induction false} DistinctSize<T(!new)>(s: seq<T>)
    requires NoDup(s)
    ensures |Elements(s)| == |s|
    decreases |s|
  {
    if |s| > 0 {
      var init := s[..|s| - 1];
      DistinctSize(init);
      assert Elements(s) == Elements(init) + {s[|s| - 1]};
      assert s[|s| - 1] !in Elements(init);
    }
  }

  /** A subset is no larger than its superset, and strictly smaller when it misses an element. */
  lemma SubsetSize<T>(a: set<T>, b: set<T>, x: T)
    requires a <= b && x in b && x !in a
    ensures |a| < |b|
  {
    assert b == a + (b - a);
    assert x in b - a;
  }

  /** When a subset of a duplicate-free sequence's elements is as large as the sequence, it holds
      every element; when it is smaller, some element is missing from it. */
  lemma CoverOrMiss<T(!new)>(keys: set<T>, s: seq<T>)
    requires NoDup(s) && keys <= Elements(s)
    ensures |keys| >= |s| ==> forall x :: x in s ==> x in keys
    ensures |keys| < |s| ==> exists x :: x in s && x !in keys
  {
    DistinctSize(s);
    if x :| x in s && x !in keys {
      SubsetSize(keys, Elements(s), x);
    } else {
      assert Elements(s) <= keys;
      assert |Elements(s)| <= |keys| by { SubsetLe(Elements(s), keys); }
    }
  }

  lemma SubsetLe<T>(a: set<T>, b: set<T>)
    requires a <= b
    ensures |a| <= |b|
  {
    assert b == a + (b - a);
  }
}
