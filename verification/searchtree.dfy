/** The nodes of the stochastic search tree: per-action child lists, visit and reward totals and
    the per-action sampling cap. The tree is an arena: nodes name their parent and children by
    index, and the root is node 0. */
module SearchTree {
  import opened Wrappers
  import opened Seqs

  /** The searched game, seen only through the three calls the tree makes on it: the keys of its
      legal actions, whether an action draws a random card, and the position an action leads to
      once the random draw `d` that resolves it is fixed. */
  datatype Game<!G> = Game(legal: G -> seq<int>, chance: (G, int) -> bool, play: (G, int, nat) -> G)

  /** The action of the root, and select's answer at a position with no legal action. */
  const NO_ACTION: int := -1

  /** A legal-action list as the game hands it out: the distinct keys of its action table, none
      of them the no-action marker. */
  predicate LegalWF(legal: seq<int>)
  {
    NoDup(legal) && NO_ACTION !in legal
  }

  /** The game's promise about every position. */
  ghost predicate GameWF<G(!new)>(api: Game<G>)
  {
    forall g :: LegalWF(api.legal(g))
  }

  /** Number of playouts through a node, their total reward and total squared reward. */
  datatype Stats = Stats(visits: nat, reward: real, sqrReward: real)
  {
    /** The totals after one more playout worth `r`. */
    function Add(r: real): Stats
    {
      Stats(visits + 1, reward + r, sqrReward + r * r)
    }
  }

  const NO_STATS: Stats := Stats(0, 0.0, 0.0)

  datatype Node<G> = Node(
    parent: Option<nat>,
    children: map<int, seq<nat>>,
    game: G,
    stats: Stats,
    action: int,
    legal: seq<int>)

  /** A fresh node for `game`, reached from `parent` by `action`. */
  function NewNode<G>(api: Game<G>, game: G, parent: Option<nat>, action: int): (n: Node<G>)
    ensures n.parent == parent && n.game == game && n.action == action
    ensures n.legal == api.legal(game)
    ensures n.stats.visits == 0 && n.stats.reward == 0.0 && n.stats.sqrReward == 0.0
    ensures forall a :: NbChildren(n, a) == 0
  {
    Node(parent, map[], game, NO_STATS, action, api.legal(game))
  }

  /** The children sampled so far under action `a`. */
  function ChildList<G>(n: Node<G>, a: int): seq<nat>
  {
    if a in n.children then n.children[a] else []
  }

  function NbChildren<G>(n: Node<G>, a: int): (k: nat)
    ensures a !in n.children ==> k == 0
    ensures a in n.children ==> k == |n.children[a]|
  {
    |ChildList(n, a)|
  }

  /** Appends `child` to the list of action `a`, creating the list if needed. */
  function AddChild<G>(n: Node<G>, child: nat, a: int): (r: Node<G>)
    ensures r == n.(children := r.children)
    ensures a in r.children && r.children[a] == ChildList(n, a) + [child]
    ensures r.children.Keys == n.children.Keys + {a}
    ensures forall b :: b != a ==> ChildList(r, b) == ChildList(n, b)
    ensures NbChildren(r, a) == NbChildren(n, a) + 1
  {
    n.(children := n.children[a := ChildList(n, a) + [child]])
  }

  /** Records one playout worth `reward` through the node. */
  function UpdateNode<G>(n: Node<G>, reward: real): (r: Node<G>)
    ensures r == n.(stats := r.stats)
    ensures r.stats.visits == n.stats.visits + 1
    ensures r.stats.reward - n.stats.reward == reward
    ensures r.stats.sqrReward - n.stats.sqrReward == reward * reward
  {
    n.(stats := n.stats.Add(reward))
  }

  function Sum(rs: seq<real>): real
  {
    if |rs| == 0 then 0.0 else Sum(rs[..|rs| - 1]) + rs[|rs| - 1]
  }

  function SumSquares(rs: seq<real>): real
  {
    if |rs| == 0 then 0.0 else SumSquares(rs[..|rs| - 1]) + rs[|rs| - 1] * rs[|rs| - 1]
  }

  /** The node after one update per reward of `rs`, in order. */
  function UpdateAll<G>(n: Node<G>, rs: seq<real>): Node<G>
  {
    if |rs| == 0 then n else UpdateNode(UpdateAll(n, rs[..|rs| - 1]), rs[|rs| - 1])
  }

  /** The totals mean what their names say: after the updates of `rs` a fresh node counts |rs|
      visits, the sum of the rewards and the sum of their squares. */
  lemma {:induction false} UpdateAllTotals<G>(n: Node<G>, rs: seq<real>)
    requires n.stats == NO_STATS
    ensures UpdateAll(n, rs) == n.(stats := Stats(|rs|, Sum(rs), SumSquares(rs)))
  {
    if |rs| > 0 {
      UpdateAllTotals(n, rs[..|rs| - 1]);
    }
  }

  /** How many children action `a` may have: `width` for an action that draws a random card, one
      for a deterministic action. */
  function MaxChildren<G>(api: Game<G>, n: Node<G>, a: int, width: int): (cap: int)
    ensures cap == width || cap == 1
    ensures cap == width <==> api.chance(n.game, a) || width == 1
  {
    if api.chance(n.game, a) then width else 1
  }

  datatype Tree<G> = Tree(nodes: seq<Node<G>>)

  const ROOT: nat := 0

  /** Every node but the root has a parent created before it. */
  predicate Linked<G>(t: Tree<G>)
  {
    |t.nodes| > 0 && t.nodes[ROOT].parent.None?
    && forall i :: 0 < i < |t.nodes| ==> t.nodes[i].parent.Some? && t.nodes[i].parent.value < i
  }

  /** The children of node `i` under action `a` are later nodes whose parent is `i` and whose
      action is `a`; a list exists only once it holds a child. */
  predicate ListLinked<G>(t: Tree<G>, i: nat, a: int)
    requires i < |t.nodes| && a in t.nodes[i].children
  {
    var kids := t.nodes[i].children[a];
    |kids| > 0
    && forall k :: 0 <= k < |kids| ==>
      i < kids[k] < |t.nodes| && t.nodes[kids[k]].parent == Some(i) && t.nodes[kids[k]].action == a
  }

  predicate NodeWF<G>(api: Game<G>, t: Tree<G>, i: nat)
    requires i < |t.nodes|
  {
    var n := t.nodes[i];
    n.legal == api.legal(n.game) && LegalWF(n.legal)
    && forall a :: a in n.children ==> a in n.legal && ListLinked(t, i, a)
  }

  /** The search tree's invariant. */
  predicate TreeWF<G>(api: Game<G>, t: Tree<G>)
  {
    Linked(t) && forall i :: 0 <= i < |t.nodes| ==> NodeWF(api, t, i)
  }

  /** A tree holding only the root of `game`. */
  function NewTree<G>(api: Game<G>, game: G): (t: Tree<G>)
    ensures Linked(t) && |t.nodes| == 1 && t.nodes[ROOT].game == game
    ensures LegalWF(api.legal(game)) ==> TreeWF(api, t)
  {
    Tree([NewNode(api, game, None, NO_ACTION)])
  }

  /** `i` is `j` or one of its ancestors. */
  predicate Below<G>(t: Tree<G>, j: nat, i: nat)
    requires Linked(t) && j < |t.nodes|
    decreases j
  {
    j == i || (t.nodes[j].parent.Some? && Below(t, t.nodes[j].parent.value, i))
  }

  /** An ancestor is never created after its descendant, and the root is above every node. */
  lemma {:induction false} BelowBound<G>(t: Tree<G>, j: nat, i: nat)
    requires Linked(t) && j < |t.nodes|
    ensures Below(t, j, i) ==> i <= j
    ensures Below(t, j, ROOT)
    decreases j
  {
    if t.nodes[j].parent.Some? {
      BelowBound(t, t.nodes[j].parent.value, i);
    }
  }

  lemma {:induction false} BelowTrans<G>(t: Tree<G>, x: nat, y: nat, z: nat)
    requires Linked(t) && x < |t.nodes| && y < |t.nodes|
    requires Below(t, x, y) && Below(t, y, z)
    ensures Below(t, x, z)
    decreases x
  {
    if x != y {
      BelowTrans(t, t.nodes[x].parent.value, y, z);
    }
  }

  /** Trees agreeing on the parents of their first `n` nodes. */
  predicate SameLinks<G>(t: Tree<G>, u: Tree<G>, n: nat)
  {
    n <= |t.nodes| && n <= |u.nodes| && forall j :: 0 <= j < n ==> t.nodes[j].parent == u.nodes[j].parent
  }

  lemma {:induction false} BelowStable<G>(t: Tree<G>, u: Tree<G>, n: nat, j: nat, i: nat)
    requires Linked(t) && Linked(u) && SameLinks(t, u, n) && j < n
    ensures Below(t, j, i) == Below(u, j, i)
    decreases j
  {
    if t.nodes[j].parent.Some? {
      BelowStable(t, u, n, t.nodes[j].parent.value, i);
    }
  }

  /** Distance from a node to the root. */
  function Depth<G>(t: Tree<G>, i: nat): (d: nat)
    requires Linked(t) && i < |t.nodes|
    ensures d == 0 <==> i == ROOT
    ensures d <= i
    decreases i
  {
    if t.nodes[i].parent.None? then 0 else 1 + Depth(t, t.nodes[i].parent.value)
  }

  lemma {:induction false} DepthStable<G>(t: Tree<G>, u: Tree<G>, n: nat, j: nat)
    requires Linked(t) && Linked(u) && SameLinks(t, u, n) && j < n
    ensures Depth(t, j) == Depth(u, j)
    decreases j
  {
    if t.nodes[j].parent.Some? {
      DepthStable(t, u, n, t.nodes[j].parent.value);
    }
  }

  datatype DepthError = ParentIsNone

  /** `depth` as written: its branches are swapped, so the root asks its missing parent for its
      depth and every other node answers 0. */
  function DepthAsWritten<G>(t: Tree<G>, i: nat): (r: Result<nat, DepthError>)
    requires Linked(t) && i < |t.nodes|
    ensures r.Err? <==> i == ROOT
    ensures r.Ok? ==> r.value == 0
  {
    if t.nodes[i].parent.None? then Err(ParentIsNone) else Ok(0)
  }

  /** The written depth is wrong at every node: the root fails and every other node is at
      least one step from the root. */
  lemma DepthAsWrittenDisagrees<G>(t: Tree<G>, i: nat)
    requires Linked(t) && i < |t.nodes|
    ensures DepthAsWritten(t, i) != Ok(Depth(t, i))
  {
  }
}
