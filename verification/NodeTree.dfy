/** The tree of pools as linked objects (node_base.go): linking a new node under a parent,
    and collecting the tree in depth-first order while numbering it (topology_builder.go).
    The nil node, the parent of every top node, is null here. */
module NodeTree {
  import opened Text
  import Pools

  class Node {
    var id: int
    var depth: int
    var parent: Node?
    var children: seq<Node>

    /** init: no number and no links but the parent. */
    constructor (p: Node?)
      ensures id == -1 && depth == 0 && parent == p && children == []
    {
      id, depth, parent, children := -1, 0, p, [];
    }

    /** Append the nodes that are not children yet, without touching their parents. */
    method AddChildren(nodes: seq<Node>)
      modifies this`children
      ensures children == Extended(old(children), nodes)
    {
      for i := 0 to |nodes|
        invariant children == Extended(old(children), nodes[..i])
      {
        assert nodes[..i + 1][..i] == nodes[..i];
        if nodes[i] !in children {
          children := children + [nodes[i]];
        }
      }
      assert nodes[..|nodes|] == nodes;
    }

    method LinkParent(p: Node?)
      modifies this`parent, this`depth, (if p == null then {} else {p})`children
      ensures parent == p && depth == (if p == null then 0 else old(p.depth) + 1)
      ensures p != null ==> p.children == if this in old(p.children) then old(p.children) else old(p.children) + [this]
    {
      parent := p;
      if p != null {
        p.AddChildren([this]);
        assert Extended(old(p.children), [this][..0]) == old(p.children);
      }
      depth := if p == null then 0 else p.depth + 1;
    }
  }

  function Extended(children: seq<Node>, nodes: seq<Node>): seq<Node> {
    if nodes == [] then children
    else
      var n := |nodes| - 1;
      var init := Extended(children, nodes[..n]);
      if nodes[n] in init then init else init + [nodes[n]]
  }

  /** The old children stay in front, every given node is there, and none comes twice. */
  lemma {:induction false} ExtendedMeaning(children: seq<Node>, nodes: seq<Node>, x: Node)
    ensures children <= Extended(children, nodes)
    ensures x in Extended(children, nodes) <==> x in children || x in nodes
    ensures NoRepeats(children) ==> NoRepeats(Extended(children, nodes))
  {
    if nodes != [] {
      var n := |nodes| - 1;
      ExtendedMeaning(children, nodes[..n], x);
      assert nodes == nodes[..n] + [nodes[n]];
    }
  }

  /** Parents and children agree, every child appears once, and a node's depth is one more
      than its parent's. */
  ghost predicate Linked(nodes: set<Node>)
    reads nodes`depth, nodes`parent, nodes`children
  {
    forall n :: n in nodes ==> LinkedNode(n, nodes)
  }

  ghost predicate LinkedNode(n: Node, nodes: set<Node>)
    requires n in nodes
    reads nodes`depth, nodes`parent, nodes`children
  {
    && (n.parent == null ==> n.depth == 0)
    && (n.parent != null ==> n.parent in nodes && n.depth == n.parent.depth + 1 && n in n.parent.children)
    && (forall i :: 0 <= i < |n.children| ==> n.children[i] in nodes && n.children[i].parent == n)
    && (forall i, j :: 0 <= i < j < |n.children| ==> n.children[i] != n.children[j])
  }

  /** What every node constructor does: make a node and link it under its parent, if any. */
  method NewNode(p: Node?, ghost nodes: set<Node>) returns (n: Node)
    requires Linked(nodes) && (p != null ==> p in nodes)
    modifies (if p == null then {} else {p})`children
    ensures fresh(n) && n.parent == p && n.children == [] && n.depth == (if p == null then 0 else p.depth + 1)
    ensures p != null ==> p.children == old(p.children) + [n]
    ensures Linked(nodes + {n})
  {
    n := new Node(p);
    if p != null {
      assert forall i :: 0 <= i < |p.children| ==> p.children[i] in nodes;
      n.LinkParent(p);
    }
    forall m | m in nodes ensures LinkedNode(m, nodes + {n}) {
      assert old(LinkedNode(m, nodes));
      assert m.parent == old(m.parent) && m.depth == old(m.depth);
      assert m.parent != null ==> old(m.parent.children) <= m.parent.children;
      assert m != p ==> m.children == old(m.children);
    }
  }

  // ---------- depth-first order ----------

  /** The links of a set of nodes at one moment; numbering does not change them. */
  datatype Shape = Shape(parent: map<Node, Node?>, depth: map<Node, int>, children: map<Node, seq<Node>>)

  ghost function ShapeOf(nodes: set<Node>): Shape
    reads nodes`depth, nodes`parent, nodes`children
  {
    Shape(map n | n in nodes :: n.parent, map n | n in nodes :: n.depth, map n | n in nodes :: n.children)
  }

  /** Linked, on a shape whose depths do not exceed top. */
  ghost predicate Tree(t: Shape, top: nat) { Sized(t, top) && Links(t) }

  ghost predicate Sized(t: Shape, top: nat) {
    && t.parent.Keys == t.depth.Keys == t.children.Keys
    && forall n :: n in t.depth ==> 0 <= t.depth[n] <= top
  }

  ghost predicate Links(t: Shape)
    requires t.parent.Keys == t.depth.Keys == t.children.Keys
  {
    forall n {:trigger Up(n, t)} {:trigger Down(n, t)} :: n in t.depth ==> Up(n, t) && Down(n, t)
  }

  /** Below the top, n is a child of its parent, which is one level higher. */
  ghost predicate Up(n: Node, t: Shape)
    requires t.parent.Keys == t.depth.Keys == t.children.Keys && n in t.depth
  {
    t.depth[n] > 0 ==>
      t.parent[n] in t.depth && t.depth[n] == t.depth[t.parent[n]] + 1 && n in t.children[t.parent[n]]
  }

  /** The children of n have n as their parent and are one level lower, each listed once. */
  ghost predicate Down(n: Node, t: Shape)
    requires t.parent.Keys == t.depth.Keys == t.children.Keys && n in t.depth
  {
    && AtLevel(t.children[n], t.depth[n] + 1, t)
    && (forall i :: 0 <= i < |t.children[n]| ==> t.parent[t.children[n][i]] == n)
    && NoRepeats(t.children[n])
  }

  ghost predicate AtLevel(s: seq<Node>, level: int, t: Shape)
    requires t.parent.Keys == t.depth.Keys
  {
    forall i :: 0 <= i < |s| ==> s[i] in t.depth && t.depth[s[i]] == level
  }

  ghost predicate NoRepeats(s: seq<Node>) { forall i, j :: 0 <= i < j < |s| ==> s[i] != s[j] }

  lemma {:induction false} LinkedTree(nodes: set<Node>, top: nat)
    requires Linked(nodes) && forall n :: n in nodes ==> 0 <= n.depth <= top
    ensures Tree(ShapeOf(nodes), top)
  {
    var t := ShapeOf(nodes);
    forall n | n in nodes ensures Up(n, t) && Down(n, t) {
      assert LinkedNode(n, nodes);
      forall i | 0 <= i < |n.children| ensures t.depth[n.children[i]] == n.depth + 1 {
        assert LinkedNode(n.children[i], nodes);
      }
    }
  }

  /** The nodes under n, n first, in the order the collection visits them. */
  ghost function Subtree(n: Node, t: Shape, top: nat): seq<Node>
    requires Tree(t, top) && n in t.depth
    decreases top - t.depth[n] + 1, 0
  {
    assert Down(n, t);
    [n] + Forest(t.children[n], t.depth[n] + 1, t, top)
  }

  ghost function Forest(roots: seq<Node>, level: nat, t: Shape, top: nat): seq<Node>
    requires Tree(t, top) && level <= top + 1 && AtLevel(roots, level, t)
    decreases top - level + 1, |roots| + 1
  {
    if roots == [] then []
    else
      Forest(roots[..|roots| - 1], level, t, top) + Subtree(roots[|roots| - 1], t, top)
  }

  /** The ancestor of m at the given depth, m itself at its own depth. */
  ghost function AncestorAt(m: Node, depth: nat, t: Shape, top: nat): (a: Node)
    requires Tree(t, top) && m in t.depth && depth <= t.depth[m]
    ensures a in t.depth && t.depth[a] == depth
    decreases t.depth[m]
  {
    assert Up(m, t);
    if depth == t.depth[m] then m else AncestorAt(t.parent[m], depth, t, top)
  }

  ghost predicate Below(m: Node, n: Node, t: Shape, top: nat)
    requires Tree(t, top)
  {
    m in t.depth && n in t.depth && t.depth[n] <= t.depth[m] && AncestorAt(m, t.depth[n], t, top) == n
  }

  ghost predicate BelowAny(m: Node, roots: seq<Node>, t: Shape, top: nat)
    requires Tree(t, top)
  {
    exists i :: 0 <= i < |roots| && Below(m, roots[i], t, top)
  }

  /** MAIN: the depth-first order of a node lists exactly the nodes below it, each once. */
  lemma {:induction false} SubtreeMeaning(n: Node, t: Shape, top: nat)
    requires Tree(t, top) && n in t.depth
    ensures forall m :: m in Subtree(n, t, top) <==> Below(m, n, t, top)
    ensures NoRepeats(Subtree(n, t, top))
    decreases top - t.depth[n] + 1, 0
  {
    assert Down(n, t);
    hide Links, Below, BelowAny;
    var children, level := t.children[n], t.depth[n] + 1;
    ForestMeaning(children, level, t, top);
    forall m: Node ensures Below(m, n, t, top) <==> m == n || BelowAny(m, children, t, top) {
      BelowStep(m, n, t, top);
    }
    NotBelowDeeper(n, children, level, t, top);
    NoRepeatsJoin([n], Forest(children, level, t, top));
  }

  /** A node is not below any deeper one. */
  lemma {:induction false} NotBelowDeeper(n: Node, roots: seq<Node>, level: nat, t: Shape, top: nat)
    requires Tree(t, top) && n in t.depth && t.depth[n] < level && AtLevel(roots, level, t)
    ensures !BelowAny(n, roots, t, top)
  {
    hide Links, AncestorAt;
  }

  lemma {:induction false} ForestMeaning(roots: seq<Node>, level: nat, t: Shape, top: nat)
    requires Tree(t, top) && level <= top + 1 && NoRepeats(roots) && AtLevel(roots, level, t)
    ensures forall m :: m in Forest(roots, level, t, top) <==> BelowAny(m, roots, t, top)
    ensures NoRepeats(Forest(roots, level, t, top))
    decreases top - level + 1, |roots| + 1
  {
    hide Links, Subtree, Below, BelowAny;
    if roots == [] {
      NoRoots(level, t, top);
    } else {
      var n := |roots| - 1;
      ForestMeaning(roots[..n], level, t, top);
      SubtreeMeaning(roots[n], t, top);
      forall m: Node
        ensures BelowAny(m, roots, t, top) <==> BelowAny(m, roots[..n], t, top) || Below(m, roots[n], t, top)
        ensures !(BelowAny(m, roots[..n], t, top) && Below(m, roots[n], t, top))
      {
        BelowLast(m, roots, level, t, top);
      }
      forall m | m in Forest(roots[..n], level, t, top) ensures m !in Subtree(roots[n], t, top) {
        assert BelowAny(m, roots[..n], t, top);
      }
      NoRepeatsJoin(Forest(roots[..n], level, t, top), Subtree(roots[n], t, top));
    }
  }

  lemma {:induction false} NoRoots(level: nat, t: Shape, top: nat)
    requires Tree(t, top) && level <= top + 1
    ensures forall m :: m !in Forest([], level, t, top) && !BelowAny(m, [], t, top)
  {
    hide Links;
  }

  /** A node is below one of several roots of one level either by the last or by an earlier
      one, never by both. */
  lemma {:induction false} BelowLast(m: Node, roots: seq<Node>, level: nat, t: Shape, top: nat)
    requires Tree(t, top) && roots != [] && NoRepeats(roots) && AtLevel(roots, level, t)
    ensures var n := |roots| - 1;
            && (BelowAny(m, roots, t, top) <==> BelowAny(m, roots[..n], t, top) || Below(m, roots[n], t, top))
            && !(BelowAny(m, roots[..n], t, top) && Below(m, roots[n], t, top))
  {
    hide Links, Below;
    var n := |roots| - 1;
    forall i | 0 <= i < n && Below(m, roots[i], t, top)
      ensures BelowAny(m, roots[..n], t, top) && !Below(m, roots[n], t, top)
    {
      assert roots[..n][i] == roots[i];
      OnePath(m, roots[i], roots[n], t, top);
    }
  }

  lemma {:induction false} NoRepeatsJoin(a: seq<Node>, b: seq<Node>)
    requires NoRepeats(a) && NoRepeats(b) && forall m :: m in a ==> m !in b
    ensures NoRepeats(a + b)
  {
    forall i, j | 0 <= i < j < |a + b| ensures (a + b)[i] != (a + b)[j] {
      if i < |a| && j >= |a| {
        assert (a + b)[i] in a && (a + b)[j] in b;
      }
    }
  }

  lemma {:induction false} BelowStep(m: Node, n: Node, t: Shape, top: nat)
    requires Tree(t, top) && n in t.depth
    ensures Below(m, n, t, top) <==> m == n || BelowAny(m, t.children[n], t, top)
  {
    assert Down(n, t);
    hide Links, Below;
    var children := t.children[n];
    forall i | 0 <= i < |children| && Below(m, children[i], t, top) ensures Below(m, n, t, top) {
      BelowChild(m, n, i, t, top);
    }
    if m == n {
      BelowSelf(n, t, top);
    } else if Below(m, n, t, top) {
      var i := TowardChild(m, n, t, top);
    }
  }

  lemma {:induction false} BelowSelf(n: Node, t: Shape, top: nat)
    requires Tree(t, top) && n in t.depth
    ensures Below(n, n, t, top)
  {
    hide Links;
  }

  lemma {:induction false} BelowChild(m: Node, n: Node, i: nat, t: Shape, top: nat)
    requires Tree(t, top) && n in t.depth && i < |t.children[n]| && Below(m, t.children[n][i], t, top)
    ensures Below(m, n, t, top)
  {
    assert Down(n, t);
    hide Links, AncestorAt;
    AncestorStep(m, t.depth[n], t, top);
  }

  lemma {:induction false} TowardChild(m: Node, n: Node, t: Shape, top: nat) returns (i: nat)
    requires Tree(t, top) && Below(m, n, t, top) && m != n
    ensures i < |t.children[n]| && Below(m, t.children[n][i], t, top)
  {
    NotAtOwnDepth(m, n, t, top);
    AncestorStep(m, t.depth[n], t, top);
    var c := AncestorAt(m, t.depth[n] + 1, t, top);
    assert Up(c, t);
    hide Links, AncestorAt;
    i :| 0 <= i < |t.children[n]| && t.children[n][i] == c;
  }

  lemma {:induction false} NotAtOwnDepth(m: Node, n: Node, t: Shape, top: nat)
    requires Tree(t, top) && Below(m, n, t, top) && m != n
    ensures t.depth[n] < t.depth[m]
  {
    hide Links;
  }

  lemma {:induction false} AncestorStep(m: Node, depth: nat, t: Shape, top: nat)
    requires Tree(t, top) && m in t.depth && depth < t.depth[m]
    ensures AncestorAt(m, depth, t, top) == t.parent[AncestorAt(m, depth + 1, t, top)]
    decreases t.depth[m]
  {
    assert Up(m, t);
    hide Links;
    if depth + 1 < t.depth[m] {
      AncestorStep(t.parent[m], depth, t, top);
    }
  }

  /** MAIN: collecting a tree appends its nodes in depth-first order, numbers them one after
      the other, touches no other number and no link, and finds the greatest depth. */
  method CollectNodes(n: Node, pools: seq<Node>, count: nat, deepest: int,
                      ghost nodes: set<Node>, ghost t: Shape, ghost top: nat)
    returns (pools': seq<Node>, count': nat, deepest': int)
    requires n in nodes && t == ShapeOf(nodes) && Tree(t, top)
    modifies nodes`id
    ensures pools' == pools + Subtree(n, t, top) && count' == count + |Subtree(n, t, top)|
    ensures forall i :: 0 <= i < |Subtree(n, t, top)| ==> Subtree(n, t, top)[i].id == count + i
    ensures forall m :: m in nodes && m !in Subtree(n, t, top) ==> m.id == old(m.id)
    ensures IsDeepest(Subtree(n, t, top), t, deepest, deepest')
    decreases top - t.depth[n] + 1
  {
    hide Links, Subtree, Forest, ShapeOf, Visited, IsDeepest, Tree;
    ShapeAt(n, nodes);
    pools' := pools + [n];
    n.id := count;
    count' := count + 1;
    deepest' := if deepest < n.depth then n.depth else deepest;
    ghost var done := [n];
    FirstVisit(n, t, top);
    for i := 0 to |n.children|
      invariant n.children == t.children[n]
      invariant done == Visited(n, i, t, top)
      invariant pools' == pools + done && count' == count + |done|
      invariant forall j :: 0 <= j < |done| ==> done[j].id == count + j
      invariant forall m :: m in nodes && m !in done ==> m.id == old(m.id)
      invariant IsDeepest(done, t, deepest, deepest')
    {
      NextVisit(n, i, t, top);
      ghost var before := deepest';
      pools', count', deepest' := CollectNodes(n.children[i], pools', count', deepest', nodes, t, top);
      DeepestJoin(done, Subtree(n.children[i], t, top), t, deepest, before, deepest');
      done := done + Subtree(n.children[i], t, top);
    }
  }

  lemma {:induction false} ShapeAt(n: Node, nodes: set<Node>)
    requires n in nodes
    ensures var t := ShapeOf(nodes);
            && t.parent.Keys == t.depth.Keys == t.children.Keys == nodes
            && n.depth == t.depth[n] && n.children == t.children[n]
  {
  }

  /** n and the subtrees of its first i children. */
  ghost function Visited(n: Node, i: nat, t: Shape, top: nat): seq<Node>
    requires Tree(t, top) && n in t.depth && i <= |t.children[n]|
  {
    assert Down(n, t);
    [n] + Forest(t.children[n][..i], t.depth[n] + 1, t, top)
  }

  ghost predicate IsDeepest(s: seq<Node>, t: Shape, before: int, after: int) {
    && before <= after
    && (forall m :: m in s ==> m in t.depth && t.depth[m] <= after)
    && (after == before || exists m :: m in s && m in t.depth && t.depth[m] == after)
  }

  lemma {:induction false} DeepestJoin(a: seq<Node>, b: seq<Node>, t: Shape, x: int, y: int, z: int)
    requires IsDeepest(a, t, x, y) && IsDeepest(b, t, y, z)
    ensures IsDeepest(a + b, t, x, z)
  {
  }

  lemma {:induction false} FirstVisit(n: Node, t: Shape, top: nat)
    requires Tree(t, top) && n in t.depth
    ensures forall x, y :: IsDeepest([n], t, x, y) <==> x <= y && t.depth[n] <= y && (y == x || y == t.depth[n])
    ensures Visited(n, 0, t, top) == [n] && Visited(n, |t.children[n]|, t, top) == Subtree(n, t, top)
  {
    assert t.children[n][..|t.children[n]|] == t.children[n];
  }

  /** The next child's subtree continues the order and is new to it. */
  lemma {:induction false} NextVisit(n: Node, i: nat, t: Shape, top: nat)
    requires Tree(t, top) && n in t.depth && i < |t.children[n]|
    ensures var child := t.children[n][i];
            && child in t.depth && t.depth[child] == t.depth[n] + 1 && t.depth[child] <= top
            && Visited(n, i + 1, t, top) == Visited(n, i, t, top) + Subtree(child, t, top)
            && (forall m :: m in Visited(n, i, t, top) ==> m in t.depth && m !in Subtree(child, t, top))
            && forall m :: m in Subtree(child, t, top) ==> m in t.depth
  {
    assert Down(n, t);
    hide Links, Subtree, Below, BelowAny;
    var children, level := t.children[n], t.depth[n] + 1;
    var init, child := children[..i], children[i];
    assert children[..i + 1] == init + [child];
    ForestSnoc(init, child, level, t, top);
    ForestMeaning(init, level, t, top);
    SubtreeMeaning(child, t, top);
    NotBelowDeeper(n, children[..i + 1], level, t, top);
    forall m: Node
      ensures BelowAny(m, children[..i + 1], t, top) <==> BelowAny(m, init, t, top) || Below(m, child, t, top)
      ensures !(BelowAny(m, init, t, top) && Below(m, child, t, top))
      ensures BelowAny(m, children[..i + 1], t, top) ==> m in t.depth
    {
      BelowLast(m, children[..i + 1], level, t, top);
      BelowIsThere(m, children[..i + 1], t, top);
    }
    forall m | m in Subtree(child, t, top) ensures m in t.depth && m != n && !BelowAny(m, init, t, top) {
      assert Below(m, child, t, top);
    }
    forall m | m in Forest(init, level, t, top) ensures m in t.depth && m !in Subtree(child, t, top) {
      assert BelowAny(m, init, t, top);
    }
  }

  lemma {:induction false} BelowIsThere(m: Node, roots: seq<Node>, t: Shape, top: nat)
    requires Tree(t, top)
    ensures BelowAny(m, roots, t, top) ==> m in t.depth
  {
    hide Links, AncestorAt;
  }

  lemma {:induction false} ForestSnoc(init: seq<Node>, last: Node, level: nat, t: Shape, top: nat)
    requires Tree(t, top) && level <= top + 1 && AtLevel(init + [last], level, t) && AtLevel(init, level, t)
    requires last in t.depth
    ensures Forest(init + [last], level, t, top) == Forest(init, level, t, top) + Subtree(last, t, top)
  {
    hide Links, Subtree;
    assert (init + [last])[..|init|] == init;
  }

  /** A node is below at most one node of a given depth, and only below nodes no deeper. */
  lemma {:induction false} OnePath(m: Node, a: Node, b: Node, t: Shape, top: nat)
    requires Tree(t, top) && Below(m, a, t, top) && b in t.depth && t.depth[a] == t.depth[b]
    ensures m in t.depth && t.depth[a] <= t.depth[m] && (Below(m, b, t, top) ==> a == b)
  {
    hide Links, AncestorAt;
  }

  // ---------- the pools that selection works on ----------

  /** What selection knows of a node besides its place in the tree. */
  datatype Facts = Facts(id: int, score: Pools.Score, allocatable: int, numaIDs: seq<int>)

  /** The node as selection sees it: with its chain of parents. */
  ghost function PoolOf(n: Node, t: Shape, top: nat, facts: map<Node, Facts>): Pools.Pool
    requires Tree(t, top) && n in t.depth && facts.Keys == t.depth.Keys
    decreases t.depth[n]
  {
    var f := facts[n];
    assert Up(n, t);
    var parent := if t.depth[n] == 0 then None else Some(PoolOf(t.parent[n], t, top, facts));
    Pools.Pool(f.id, t.depth[n], f.score, f.allocatable, f.numaIDs, parent)
  }

  ghost function PoolsOf(s: seq<Node>, t: Shape, top: nat, facts: map<Node, Facts>): (r: seq<Pools.Pool>)
    requires Tree(t, top) && facts.Keys == t.depth.Keys && forall n :: n in s ==> n in t.depth
    ensures |r| == |s| && forall i :: 0 <= i < |s| ==> r[i] == PoolOf(s[i], t, top, facts)
  {
    hide Links;
    seq(|s|, i requires 0 <= i < |s| => PoolOf(s[i], t, top, facts))
  }

  /** MAIN: the pools collected and numbered from a root meet what selection asks for: ids
      are distinct, the root is among them, and so is the parent of every other pool, one
      level higher. */
  lemma {:induction false} CollectedPools(root: Node, t: Shape, top: nat, facts: map<Node, Facts>, count: int)
    requires Tree(t, top) && root in t.depth && facts.Keys == t.depth.Keys
    requires forall i :: 0 <= i < |Subtree(root, t, top)| ==>
               Subtree(root, t, top)[i] in facts && facts[Subtree(root, t, top)[i]].id == count + i
    ensures var pools := PoolsOf(Subtree(root, t, top), t, top, facts);
            && Pools.DistinctIds(pools)
            && PoolOf(root, t, top, facts) in pools
            && forall p :: p in pools && p != PoolOf(root, t, top, facts) ==>
                 p.parent.Some? && p.parent.value in pools && p.parent.value.depth + 1 == p.depth
  {
    hide Links, Subtree, AncestorAt;
    var all := Subtree(root, t, top);
    var pools := PoolsOf(all, t, top, facts);
    SubtreeMeaning(root, t, top);
    BelowSelf(root, t, top);
    forall i, j | 0 <= i < |pools| && 0 <= j < |pools| && pools[i].id == pools[j].id ensures i == j {
      assert all[i] in facts && all[j] in facts;
    }
    var k :| 0 <= k < |all| && all[k] == root;
    assert pools[k] in pools;
    forall p | p in pools && p != pools[k]
      ensures p.parent.Some? && p.parent.value in pools && p.parent.value.depth + 1 == p.depth
    {
      var i :| 0 <= i < |pools| && pools[i] == p;
      assert all[i] in all;
      ParentBelow(all[i], root, t, top);
      var j :| 0 <= j < |all| && all[j] == t.parent[all[i]];
      assert pools[j] in pools;
    }
  }

  lemma {:induction false} ParentBelow(m: Node, n: Node, t: Shape, top: nat)
    requires Tree(t, top) && Below(m, n, t, top) && m != n
    ensures t.depth[m] > 0 && t.parent[m] in t.depth
    ensures Below(t.parent[m], n, t, top) && t.depth[t.parent[m]] + 1 == t.depth[m]
  {
    NotAtOwnDepth(m, n, t, top);
    assert Up(m, t);
    hide Links;
  }
}
