/** The structural part of the stochastic Monte Carlo tree search: selection, expansion,
    backpropagation and the tree-building loop with its early stop. The UCB score, the random
    choices, the random card draws and the playout rewards are parameters. */
module Mcts {
  import opened Wrappers
  import opened Seqs
  import opened SearchTree

  /** What select answers: the node to expand and the action to expand it by, or NO_ACTION at a
      position with no legal action. */
  datatype Selection = Selection(node: nat, action: int)

  /** The legal actions that have no child list yet, in legal order. */
  function Unsampled(legal: seq<int>, children: map<int, seq<nat>>): (u: seq<int>)
    ensures forall a :: a in u <==> a in legal && a !in children
  {
    if |legal| == 0 then []
    else
      var last := legal[|legal| - 1];
      Unsampled(legal[..|legal| - 1], children) + (if last in children then [] else [last])
  }

  /** The position of the first action with the highest score among the first `n`, as the loop
      over the legal actions with a strict comparison finds it. */
  function BestIndex(legal: seq<int>, score: int -> real, n: nat): (k: nat)
    requires 0 < n <= |legal|
    ensures k < n
    ensures forall j :: 0 <= j < n ==> score(legal[j]) <= score(legal[k])
    ensures forall j :: 0 <= j < k ==> score(legal[j]) < score(legal[k])
  {
    if n == 1 then 0
    else
      var k := BestIndex(legal, score, n - 1);
      if score(legal[n - 1]) > score(legal[k]) then n - 1 else k
  }

  /** The action select takes once every legal action of node `node` has children: the first
      legal action with the highest `ucb` score. */
  function BestAction<G>(n: Node<G>, node: nat, ucb: (nat, int) -> real): (a: int)
    requires n.legal != []
    ensures a in n.legal
    ensures forall b :: b in n.legal ==> ucb(node, b) <= ucb(node, a)
    ensures exists k ::
      && 0 <= k < |n.legal| && n.legal[k] == a
      && (forall j :: 0 <= j < k ==> ucb(node, n.legal[j]) < ucb(node, a))
  {
    var k := BestIndex(n.legal, b => ucb(node, b), |n.legal|);
    n.legal[k]
  }

  /** Action `a` of node `n` may receive one more child: it has none yet, or fewer than its cap
      allows. */
  predicate Expandable<G>(api: Game<G>, n: Node<G>, a: int, width: int)
  {
    a !in n.children || NbChildren(n, a) != MaxChildren(api, n, a, width)
  }

  /** Selection from `node`. An unsampled legal action is chosen first (the `pick` oracle stands
      for the uniform random index); a position with no legal action answers NO_ACTION; otherwise
      the action with the best `ucb` score is taken, and when its children reach the cap the
      selection goes on from one of them. */
  function Select<G>(api: Game<G>, t: Tree<G>, width: int, node: nat, ucb: (nat, int) -> real,
                     pick: (nat, nat) -> nat): (s: Selection)
    requires TreeWF(api, t) && node < |t.nodes|
    ensures s.node < |t.nodes| && Below(t, s.node, node)
    ensures s.action == NO_ACTION <==> t.nodes[s.node].legal == []
    ensures s.action != NO_ACTION ==>
      s.action in t.nodes[s.node].legal && Expandable(api, t.nodes[s.node], s.action, width)
    ensures (exists a :: a in t.nodes[node].legal && a !in t.nodes[node].children) ==>
      s.node == node && s.action !in t.nodes[node].children
    ensures s.node != node ==>
      exists a :: a in t.nodes[node].children && NbChildren(t.nodes[node], a) == MaxChildren(api, t.nodes[node], a, width)
    ensures var n := t.nodes[node];
      n.legal != [] && (forall a :: a in n.legal ==> a in n.children) ==>
        var a := BestAction(n, node, ucb);
        if NbChildren(n, a) == MaxChildren(api, n, a, width) then
          s.node != node && exists c :: c in n.children[a] && Below(t, s.node, c)
        else
          s == Selection(node, a)
    decreases |t.nodes| - node
  {
    var n := t.nodes[node];
    assert NodeWF(api, t, node);
    assert n.children.Keys <= Elements(n.legal) by {
      forall a | a in n.children.Keys
        ensures a in n.legal
      {
        assert a in n.children;
      }
    }
    CoverOrMiss(n.children.Keys, n.legal);
    if |n.children.Keys| < |n.legal| then
      var u := Unsampled(n.legal, n.children);
      Selection(node, u[pick(node, |u|) % |u|])
    else if |n.legal| == 0 then
      Selection(node, NO_ACTION)
    else
      var a := BestAction(n, node, ucb);
      var cap := MaxChildren(api, n, a, width);
      if |n.children[a]| == cap then
        assert ListLinked(t, node, a);
        var next := n.children[a][pick(node, cap) % cap];
        var s := Select(api, t, width, next, ucb, pick);
        BelowTrans(t, s.node, next, node);
        BelowBound(t, s.node, next);
        s
      else
        Selection(node, a)
  }

  /** Expansion: the position reached by playing `a` from node `node` (with random draw `draw`)
      becomes a new last node, listed as a child of `node` under `a`. */
  function Expand<G>(api: Game<G>, t: Tree<G>, node: nat, a: int, draw: nat): (r: Tree<G>)
    requires node < |t.nodes| && a in t.nodes[node].legal
    ensures |r.nodes| == |t.nodes| + 1
    ensures r.nodes[|t.nodes|] == NewNode(api, api.play(t.nodes[node].game, a, draw), Some(node), a)
    ensures r.nodes[node] == AddChild(t.nodes[node], |t.nodes|, a)
    ensures forall i :: 0 <= i < |t.nodes| && i != node ==> r.nodes[i] == t.nodes[i]
    ensures SameLinks(t, r, |t.nodes|)
    ensures Linked(t) ==> Linked(r)
  {
    var child := NewNode(api, api.play(t.nodes[node].game, a, draw), Some(node), a);
    Tree(t.nodes[node := AddChild(t.nodes[node], |t.nodes|, a)] + [child])
  }

  /** Expansion keeps the tree's invariant when the new position's legal actions are well formed. */
  lemma ExpandKeepsWF<G>(api: Game<G>, t: Tree<G>, node: nat, a: int, draw: nat)
    requires TreeWF(api, t) && node < |t.nodes| && a in t.nodes[node].legal
    requires LegalWF(api.legal(api.play(t.nodes[node].game, a, draw)))
    ensures TreeWF(api, Expand(api, t, node, a, draw))
  {
    var r := Expand(api, t, node, a, draw);
    var m := |t.nodes|;
    forall i | 0 <= i < |r.nodes|
      ensures NodeWF(api, r, i)
    {
      if i < m {
        assert NodeWF(api, t, i);
        forall b | b in r.nodes[i].children
          ensures ListLinked(r, i, b)
        {
          if i == node && b == a {
            if a in t.nodes[i].children {
              assert ListLinked(t, i, a);
            }
          } else {
            assert ListLinked(t, i, b);
          }
        }
      }
    }
  }

  /** The new node sits one level below the node it was expanded from, and no other depth
      changes. */
  lemma ExpandDepth<G>(api: Game<G>, t: Tree<G>, node: nat, a: int, draw: nat)
    requires Linked(t) && node < |t.nodes| && a in t.nodes[node].legal
    ensures Depth(Expand(api, t, node, a, draw), |t.nodes|) == Depth(t, node) + 1
    ensures forall i :: 0 <= i < |t.nodes| ==> Depth(Expand(api, t, node, a, draw), i) == Depth(t, i)
  {
    var r := Expand(api, t, node, a, draw);
    forall i | 0 <= i < |t.nodes|
      ensures Depth(r, i) == Depth(t, i)
    {
      DepthStable(t, r, |t.nodes|, i);
    }
  }

  /** Backpropagation: the playout reward is recorded at `j` and at every ancestor of `j`, and
      nowhere else. */
  function Backpropagate<G>(t: Tree<G>, j: nat, reward: real): (r: Tree<G>)
    requires Linked(t) && j < |t.nodes|
    ensures |r.nodes| == |t.nodes| && SameLinks(t, r, |t.nodes|) && Linked(r)
    ensures forall i :: 0 <= i < |t.nodes| ==>
      r.nodes[i] == if Below(t, j, i) then UpdateNode(t.nodes[i], reward) else t.nodes[i]
    decreases j
  {
    var t1 := t.(nodes := t.nodes[j := UpdateNode(t.nodes[j], reward)]);
    if t.nodes[j].parent.None? then
      t1
    else
      var p := t.nodes[j].parent.value;
      var r := Backpropagate(t1, p, reward);
      BelowAbove(t, t1, j, p);
      r
  }

  /** In a tree `t1` with the links of `t`, the ancestors of `j`'s parent are the ancestors of `j`
      other than `j` itself. */
  lemma BelowAbove<G>(t: Tree<G>, t1: Tree<G>, j: nat, p: nat)
    requires Linked(t) && j < |t.nodes| && t.nodes[j].parent == Some(p)
    requires |t1.nodes| == |t.nodes| && SameLinks(t, t1, |t.nodes|)
    ensures Linked(t1) && p < |t1.nodes|
    ensures forall i :: Below(t1, p, i) <==> Below(t, j, i) && i != j
  {
    forall i
      ensures Below(t1, p, i) <==> Below(t, j, i) && i != j
    {
      BelowStable(t, t1, |t.nodes|, p, i);
      BelowBound(t, p, i);
    }
  }

  /** The totals of the playouts that passed through node `i`, when the playout of the iteration
      that created node `j` (0 < j < n) was worth `rewards[j]`. */
  function Through<G>(t: Tree<G>, i: nat, rewards: seq<real>, n: nat): Stats
    requires Linked(t) && n <= |t.nodes| && n <= |rewards|
  {
    if n == 0 then NO_STATS
    else
      var s := Through(t, i, rewards, n - 1);
      if n - 1 != ROOT && Below(t, n - 1, i) then s.Add(rewards[n - 1]) else s
  }

  /** Every node's totals are those of the playouts through it: one per node in its subtree (the
      root excepted, which no playout starts from), with that node's playout reward. */
  predicate Accounted<G>(t: Tree<G>, rewards: seq<real>)
    requires Linked(t)
  {
    |rewards| == |t.nodes| && forall i :: 0 <= i < |t.nodes| ==> t.nodes[i].stats == Through(t, i, rewards, |t.nodes|)
  }

  lemma {:induction false} ThroughStable<G>(t: Tree<G>, u: Tree<G>, i: nat, rt: seq<real>, ru: seq<real>, n: nat)
    requires Linked(t) && Linked(u) && SameLinks(t, u, n) && n <= |rt| && n <= |ru| && rt[..n] == ru[..n]
    ensures Through(t, i, rt, n) == Through(u, i, ru, n)
  {
    if n > 0 {
      assert rt[..n - 1] == ru[..n - 1] && rt[n - 1] == ru[n - 1] by {
        assert rt[..n - 1] == rt[..n][..n - 1] && ru[..n - 1] == ru[..n][..n - 1];
        assert rt[n - 1] == rt[..n][n - 1] && ru[n - 1] == ru[..n][n - 1];
      }
      ThroughStable(t, u, i, rt, ru, n - 1);
      BelowStable(t, u, n, n - 1, i);
    }
  }

  /** No playout of the first `n` nodes passes through a node created later. */
  lemma {:induction false} ThroughLater<G>(t: Tree<G>, i: nat, rewards: seq<real>, n: nat)
    requires Linked(t) && n <= |t.nodes| && n <= |rewards| && n <= i
    ensures Through(t, i, rewards, n) == NO_STATS
  {
    if n > 0 {
      ThroughLater(t, i, rewards, n - 1);
      BelowBound(t, n - 1, i);
    }
  }

  /** A node below which some playout started has been visited. */
  lemma {:induction false} ThroughVisited<G>(t: Tree<G>, i: nat, j: nat, rewards: seq<real>, n: nat)
    requires Linked(t) && n <= |t.nodes| && n <= |rewards| && 0 < j < n && Below(t, j, i)
    ensures Through(t, i, rewards, n).visits > 0
  {
    if j < n - 1 {
      ThroughVisited(t, i, j, rewards, n - 1);
    }
  }

  /** Every action of a node holds at most its cap of children. */
  predicate Capped<G>(api: Game<G>, t: Tree<G>, width: int)
  {
    forall i, a :: 0 <= i < |t.nodes| && a in t.nodes[i].children ==>
      |t.nodes[i].children[a]| <= MaxChildren(api, t.nodes[i], a, width)
  }

  /** Backpropagation changes only totals, so it keeps the tree's invariant. */
  lemma BackpropagateKeepsWF<G>(api: Game<G>, t: Tree<G>, j: nat, reward: real)
    requires TreeWF(api, t) && j < |t.nodes|
    ensures TreeWF(api, Backpropagate(t, j, reward))
  {
    var r := Backpropagate(t, j, reward);
    assert forall i :: 0 <= i < |t.nodes| ==> r.nodes[i] == t.nodes[i].(stats := r.nodes[i].stats);
    forall i | 0 <= i < |r.nodes|
      ensures NodeWF(api, r, i)
    {
      assert NodeWF(api, t, i);
      forall b | b in r.nodes[i].children
        ensures ListLinked(r, i, b)
      {
        assert ListLinked(t, i, b);
      }
    }
  }

  /** Growing the tree by one node and propagating that node's playout reward keeps every node's
      totals equal to those of the playouts through it. */
  lemma GrowAccounted<G>(api: Game<G>, t: Tree<G>, node: nat, a: int, draw: nat, reward: real, rewards: seq<real>)
    requires Linked(t) && node < |t.nodes| && a in t.nodes[node].legal && Accounted(t, rewards)
    ensures Accounted(Backpropagate(Expand(api, t, node, a, draw), |t.nodes|, reward), rewards + [reward])
  {
    var m := |t.nodes|;
    var t1 := Expand(api, t, node, a, draw);
    var t2 := Backpropagate(t1, m, reward);
    var rw := rewards + [reward];
    assert rw[..m] == rewards[..m];
    assert SameLinks(t2, t, m);
    forall i | 0 <= i < m + 1
      ensures t2.nodes[i].stats == Through(t2, i, rw, m + 1)
    {
      var before := if i < m then t.nodes[i].stats else NO_STATS;
      assert Through(t2, i, rw, m) == before by {
        ThroughStable(t2, t, i, rw, rewards, m);
        if i == m {
          ThroughLater(t, i, rewards, m);
        }
      }
      assert t1.nodes[i].stats == before;
      var passes := Below(t2, m, i);
      assert passes == Below(t1, m, i) by {
        BelowStable(t2, t1, m + 1, m, i);
      }
      assert Through(t2, i, rw, m + 1) == if passes then before.Add(reward) else before by {
        assert rw[m] == reward;
      }
    }
  }

  /** Expanding an expandable action keeps every action within its cap when the width is
      positive; backpropagation does not touch children. */
  lemma GrowCapped<G>(api: Game<G>, t: Tree<G>, node: nat, a: int, draw: nat, reward: real, width: int)
    requires Linked(t) && node < |t.nodes| && a in t.nodes[node].legal
    requires Capped(api, t, width) && width >= 1 && Expandable(api, t.nodes[node], a, width)
    ensures Capped(api, Backpropagate(Expand(api, t, node, a, draw), |t.nodes|, reward), width)
  {
    var m := |t.nodes|;
    var t1 := Expand(api, t, node, a, draw);
    var t2 := Backpropagate(t1, m, reward);
    forall i, b | 0 <= i < |t2.nodes| && b in t2.nodes[i].children
      ensures |t2.nodes[i].children[b]| <= MaxChildren(api, t2.nodes[i], b, width)
    {
      assert t2.nodes[i].children == t1.nodes[i].children && t2.nodes[i].game == t1.nodes[i].game;
      if i == node && b == a {
        assert |t1.nodes[i].children[b]| == NbChildren(t.nodes[i], a) + 1;
      } else {
        assert t1.nodes[i].children[b] == t.nodes[i].children[b];
      }
    }
  }

  /** One grown node keeps the search loop's invariant. */
  lemma GrowKeeps<G(!new)>(api: Game<G>, t: Tree<G>, rewards: seq<real>, node: nat, a: int, draw: nat, reward: real, width: int)
    requires GameWF(api) && TreeWF(api, t) && Accounted(t, rewards)
    requires node < |t.nodes| && a in t.nodes[node].legal && Expandable(api, t.nodes[node], a, width)
    requires width >= 1 ==> Capped(api, t, width)
    ensures var r := Backpropagate(Expand(api, t, node, a, draw), |t.nodes|, reward);
      TreeWF(api, r) && Accounted(r, rewards + [reward]) && (width >= 1 ==> Capped(api, r, width))
      && r.nodes[ROOT].game == t.nodes[ROOT].game && |r.nodes| == |t.nodes| + 1
  {
    var grown := Expand(api, t, node, a, draw);
    assert LegalWF(api.legal(api.play(t.nodes[node].game, a, draw)));
    ExpandKeepsWF(api, t, node, a, draw);
    BackpropagateKeepsWF(api, grown, |t.nodes|, reward);
    GrowAccounted(api, t, node, a, draw, reward, rewards);
    if width >= 1 {
      GrowCapped(api, t, node, a, draw, reward, width);
    }
  }

  /** The root's totals count one playout per node below it. */
  lemma {:induction false} ThroughRoot<G>(t: Tree<G>, rewards: seq<real>, n: nat)
    requires Linked(t) && 0 < n <= |t.nodes| && n <= |rewards|
    ensures Through(t, ROOT, rewards, n).visits == n - 1
  {
    if n > 1 {
      ThroughRoot(t, rewards, n - 1);
      BelowBound(t, n - 1, ROOT);
    }
  }

  /** Where the score needs them to be defined, the totals are positive: once every legal action
      of a node has a child, each of those children and the node itself have been visited, so
      the score's divisions by visit counts and its logarithm of the node's visits are defined. */
  lemma UcbDefined<G>(api: Game<G>, t: Tree<G>, rewards: seq<real>, node: nat)
    requires TreeWF(api, t) && Accounted(t, rewards) && node < |t.nodes|
    requires forall a :: a in t.nodes[node].legal ==> a in t.nodes[node].children
    ensures forall a :: a in t.nodes[node].legal ==> |t.nodes[node].children[a]| > 0
    ensures forall a, c :: a in t.nodes[node].legal && c in t.nodes[node].children[a] ==>
      c < |t.nodes| && t.nodes[c].stats.visits > 0
    ensures t.nodes[node].legal != [] ==> t.nodes[node].stats.visits > 0
  {
    assert NodeWF(api, t, node);
    forall a, c | a in t.nodes[node].legal && c in t.nodes[node].children[a]
      ensures c < |t.nodes| && t.nodes[c].stats.visits > 0
    {
      ChildVisited(api, t, rewards, node, a, c);
    }
    if t.nodes[node].legal != [] {
      var a := t.nodes[node].legal[0];
      assert ListLinked(t, node, a);
      ChildVisited(api, t, rewards, node, a, t.nodes[node].children[a][0]);
    }
  }

  /** A child and its parent have both been visited. */
  lemma ChildVisited<G>(api: Game<G>, t: Tree<G>, rewards: seq<real>, node: nat, a: int, c: nat)
    requires TreeWF(api, t) && Accounted(t, rewards) && node < |t.nodes|
    requires a in t.nodes[node].children && c in t.nodes[node].children[a]
    ensures c < |t.nodes| && t.nodes[c].stats.visits > 0 && t.nodes[node].stats.visits > 0
  {
    assert NodeWF(api, t, node);
    assert ListLinked(t, node, a);
    var n := |t.nodes|;
    ThroughVisited(t, c, c, rewards, n);
    assert Below(t, c, node);
    ThroughVisited(t, node, c, rewards, n);
  }

  /** The score handed to one iteration's selection: the UCB function on the current tree. */
  function ScoreOn<G>(ucb: (Tree<G>, nat, int) -> real, t: Tree<G>): (nat, int) -> real
  {
    (i: nat, a: int) => ucb(t, i, a)
  }

  /** The random indices of iteration `k`. */
  function PicksOf(pick: (nat, nat, nat) -> nat, k: nat): (nat, nat) -> nat
  {
    (i: nat, n: nat) => pick(k, i, n)
  }

  /** The tree-building loop of the search: up to `nbTrajectories` iterations from a root for
      `game`, stopping early as soon as selection finds a terminal position. Iteration `k` uses
      the random indices `pick(k, _, _)`, the random draw `draws(k)` and the playout value
      `simulate(k, _)`; `rewards[j]` is the playout reward propagated from node `j`. */
  method TreeSearch<G(!new)>(api: Game<G>, game: G, nbTrajectories: nat, width: int,
                             ucb: (Tree<G>, nat, int) -> real, pick: (nat, nat, nat) -> nat,
                             draws: nat -> nat, simulate: (nat, G) -> real)
    returns (t: Tree<G>, rewards: seq<real>, completed: nat)
    requires GameWF(api)
    ensures TreeWF(api, t) && Accounted(t, rewards)
    ensures t.nodes[ROOT].game == game && completed <= nbTrajectories && |t.nodes| == completed + 1
    ensures t.nodes[ROOT].stats.visits == completed
    ensures completed < nbTrajectories ==>
      Select(api, t, width, ROOT, ScoreOn(ucb, t), PicksOf(pick, completed)).action == NO_ACTION
    ensures width >= 1 ==> Capped(api, t, width)
  {
    t := NewTree(api, game);
    rewards := [0.0];
    completed := 0;
    while completed < nbTrajectories
      invariant TreeWF(api, t) && Accounted(t, rewards)
      invariant t.nodes[ROOT].game == game && completed <= nbTrajectories && |t.nodes| == completed + 1
      invariant width >= 1 ==> Capped(api, t, width)
    {
      var score, picks := ScoreOn(ucb, t), PicksOf(pick, completed);
      var s := Select(api, t, width, ROOT, score, picks);
      if s.action == NO_ACTION {
        break;
      }
      var grown := Expand(api, t, s.node, s.action, draws(completed));
      var reward := simulate(completed, grown.nodes[|t.nodes|].game);
      GrowKeeps(api, t, rewards, s.node, s.action, draws(completed), reward, width);
      t := Backpropagate(grown, |t.nodes|, reward);
      rewards := rewards + [reward];
      completed := completed + 1;
    }
    ThroughRoot(t, rewards, |t.nodes|);
  }
}
