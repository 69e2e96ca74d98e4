/** Which TopDown reports are accepted (devkit_topdown_parser.go), in terms of the forest they
    draw. */
module TopdownReports {
  import opened Text
  import opened TopdownNames
  import opened Topdown
  import opened TopdownForest
  import opened TopdownRoundTrip

  // ---------- the sum of the roots ----------

  function RootTotal(forest: seq<Tree>): real {
    if forest == [] then 0.0 else forest[0].value + RootTotal(forest[1..])
  }

  /** The values of the entries with that many segments. */
  function DepthTotal(entries: seq<Entry>, depth: nat): real {
    if entries == [] then 0.0
    else
      var last := entries[|entries| - 1];
      DepthTotal(entries[..|entries| - 1], depth) + if |last.segments| == depth then last.value else 0.0
  }

  lemma {:induction false} DepthTotalJoins(a: seq<Entry>, b: seq<Entry>, depth: nat)
    ensures DepthTotal(a + b, depth) == DepthTotal(a, depth) + DepthTotal(b, depth)
  {
    if b == [] {
      assert a + b == a;
    } else {
      assert (a + b)[..|a + b| - 1] == a + b[..|b| - 1];
      DepthTotalJoins(a, b[..|b| - 1], depth);
    }
  }

  lemma {:induction false} DeeperAddsNothing(entries: seq<Entry>, depth: nat)
    requires forall i :: 0 <= i < |entries| ==> |entries[i].segments| > depth
    ensures DepthTotal(entries, depth) == 0.0
  {
    if entries != [] {
      DeeperAddsNothing(entries[..|entries| - 1], depth);
    }
  }

  lemma {:induction false} FlattenedTotal(forest: seq<Tree>, above: seq<string>)
    ensures DepthTotal(Flatten(forest, above), |above| + 1) == RootTotal(forest)
  {
    if forest != [] {
      var t, rest := forest[0], forest[1..];
      FlattenedTotal(rest, above);
      FirstTotal(t, above);
      DepthTotalJoins(FlattenTree(t, above), Flatten(rest, above), |above| + 1);
    }
  }

  lemma {:induction false} FirstTotal(t: Tree, above: seq<string>)
    ensures DepthTotal(FlattenTree(t, above), |above| + 1) == t.value
  {
    hide FlattenTree;
    var tree := FlattenTree(t, above);
    var below := tree[1..];
    assert tree == [tree[0]] + below;
    BelowIsDeeper(t, above, below);
    DeeperAddsNothing(below, |above| + 1);
    DepthTotalJoins([tree[0]], below, |above| + 1);
    OneTotal(tree[0], |above| + 1);
  }

  lemma {:induction false} BelowIsDeeper(t: Tree, above: seq<string>, below: seq<Entry>)
    requires below == Flatten(t.children, above + [t.name])
    ensures forall i :: 0 <= i < |below| ==> |below[i].segments| > |above| + 1
    ensures forall i :: 0 <= i < |below| && |below[i].segments| > |above| + 1 ==>
              below[i].segments[|above| + 1] in Names(t.children)
    ensures forall k :: 0 <= k < |t.children| ==> above + [t.name] + [t.children[k].name] in SegmentsOf(below)
  {
    RootsShow(t.children, above + [t.name]);
    forall i | 0 <= i < |below|
      ensures |below[i].segments| > |above| + 1 && below[i].segments[|above| + 1] in Names(t.children)
    {
      assert SegmentsOf(below)[i] == below[i].segments;
    }
  }

  lemma {:induction false} OneTotal(e: Entry, depth: nat)
    ensures DepthTotal([e], depth) == if |e.segments| == depth then e.value else 0.0
  {
    assert [e][..0] == [];
  }

  lemma {:induction false} TopTotalIs(entries: seq<Entry>)
    ensures TopTotal(NodesOf(CellsOf(entries), SegmentsOf(entries))) == DepthTotal(entries, 1)
  {
    hide Join;
    if entries != [] {
      var n := |entries| - 1;
      TopTotalIs(entries[..n]);
      var nodes := NodesOf(CellsOf(entries), SegmentsOf(entries));
      assert nodes[..n] == NodesOf(CellsOf(entries[..n]), SegmentsOf(entries[..n]));
    }
  }

  // ---------- the children of a root ----------

  predicate HasChild(forest: seq<Tree>, root: string, child: string) {
    exists i :: 0 <= i < |forest| && forest[i].name == root && child in Names(forest[i].children)
  }

  lemma {:induction false} TreeShowsChild(t: Tree, above: seq<string>, root: string, child: string)
    ensures above + [root, child] in SegmentsOf(FlattenTree(t, above)) <==> t.name == root && child in Names(t.children)
  {
    hide FlattenTree, Flatten;
    var own, path := above + [t.name], above + [root, child];
    var tree := FlattenTree(t, above);
    var below := tree[1..];
    BelowIsDeeper(t, above, below);
    TreeStartsWithName(t, above);
    if path in SegmentsOf(tree) {
      ShownIsChild(t, above, root, child, tree);
    }
    if t.name == root && child in Names(t.children) {
      var k :| 0 <= k < |t.children| && Names(t.children)[k] == child;
      assert own + [t.children[k].name] == path;
      var i :| 0 <= i < |below| && SegmentsOf(below)[i] == path;
      assert tree[i + 1] == below[i] && SegmentsOf(tree)[i + 1] == path;
    }
  }

  lemma {:induction false} ShownIsChild(t: Tree, above: seq<string>, root: string, child: string, tree: seq<Entry>)
    requires tree != [] && tree[0].segments == above + [t.name] && tree[1..] == Flatten(t.children, above + [t.name])
    requires forall i :: 0 <= i < |tree| ==> |above| < |tree[i].segments| && tree[i].segments[|above|] == t.name
    requires above + [root, child] in SegmentsOf(tree)
    ensures t.name == root && child in Names(t.children)
  {
    hide Flatten;
    var path, below := above + [root, child], tree[1..];
    var i :| 0 <= i < |tree| && SegmentsOf(tree)[i] == path;
    assert tree[i].segments == path;
    assert path[|above|] == t.name;
    BelowIsDeeper(t, above, below);
    assert |tree[0].segments| == |above| + 1;
    assert below[i - 1].segments == path && path[|above| + 1] == child;
  }

  lemma {:induction false} ForestShowsChild(forest: seq<Tree>, root: string, child: string)
    ensures [root, child] in SegmentsOf(Flatten(forest, [])) <==> HasChild(forest, root, child)
  {
    hide FlattenTree;
    if forest == [] {
      assert Flatten(forest, []) == [];
    } else {
      var t, rest := forest[0], forest[1..];
      ForestShowsChild(rest, root, child);
      TreeShowsChild(t, [], root, child);
      assert [] + [root, child] == [root, child];
      SegmentsCons(forest, []);
      hide Flatten;
      if HasChild(forest, root, child) {
        var i :| 0 <= i < |forest| && forest[i].name == root && child in Names(forest[i].children);
        assert i > 0 ==> rest[i - 1] == forest[i];
      }
      if HasChild(rest, root, child) {
        var i :| 0 <= i < |rest| && rest[i].name == root && child in Names(rest[i].children);
        assert forest[i + 1] == rest[i];
      }
    }
  }

  predicate AllGood(entries: seq<Entry>) {
    forall i :: 0 <= i < |entries| ==> GoodSegments(entries[i].segments)
  }

  lemma {:induction false} PathShows(entries: seq<Entry>, root: string, child: string)
    requires AllGood(entries)
    requires GoodSegments([root, child])
    ensures var nodes := NodesOf(CellsOf(entries), SegmentsOf(entries));
            (exists i :: 0 <= i < |nodes| && nodes[i].path == root + "." + child) <==>
              [root, child] in SegmentsOf(entries)
  {
    hide Join, GoodSegments;
    var nodes := NodesOf(CellsOf(entries), SegmentsOf(entries));
    JoinTwo(root, child, '.');
    forall i | 0 <= i < |nodes|
      ensures nodes[i].path == root + "." + child <==> SegmentsOf(entries)[i] == [root, child]
    {
      if nodes[i].path == Join([root, child], '.') {
        PathInjective(entries[i].segments, [root, child]);
      }
    }
    if [root, child] in SegmentsOf(entries) {
      var i :| 0 <= i < |entries| && SegmentsOf(entries)[i] == [root, child];
      assert nodes[i].path == root + "." + child;
    }
  }

  lemma {:induction false} AcceptedSegmentsGood(forest: seq<Tree>, rows: seq<Row>)
    requires Table(rows, Flatten(forest, [])) && SiblingsDistinct(forest)
    ensures AllGood(Flatten(forest, []))
  {
    hide Flatten, Table, SiblingsDistinct, GoodSegments, ParseRows, Segments;
    var entries := Flatten(forest, []);
    DrawThenParse(forest, rows);
    AcceptedIffStructural(rows);
    FlattenChained(forest, []);
    ChainedDeep(entries);
    TableReadsBack(rows, entries);
    ChainedAllSegments(entries);
    forall i | 0 <= i < |entries| ensures GoodSegments(entries[i].segments) {
      OwnSegments(CellsOf(entries), i);
      assert AllSegments(CellsOf(entries))[i] == SegmentsOf(entries)[i];
    }
  }

  lemma {:induction false} ChainedDeep(entries: seq<Entry>)
    requires Chained(entries, [])
    ensures forall i :: 0 <= i < |entries| ==> |entries[i].segments| >= 1
  {
  }

  /** MAIN: the report that draws a forest is accepted exactly when no two siblings share a
      name, the roots are named as the four classes, their values sum to 99.5 up to 100.5,
      and Backend Bound has both its children. */
  lemma {:induction false} ReportAcceptedIff(forest: seq<Tree>, rows: seq<Row>)
    requires Table(rows, Flatten(forest, []))
    ensures ParseTree(rows).Ok? <==>
              && SiblingsDistinct(forest)
              && (set t | t in Names(forest)) == {"retiring", "bad_speculation", "frontend_bound", "backend_bound"}
              && 99.5 <= RootTotal(forest) <= 100.5
              && HasChild(forest, "backend_bound", "core_bound")
              && HasChild(forest, "backend_bound", "memory_bound")
  {
    hide Flatten, Table, SiblingsDistinct, ParseRows, Build, TopNames, TopTotal, Names, HasChild, RootTotal;
    hide GoodSegments, AllGood;
    var entries := Flatten(forest, []);
    var nodes := NodesOf(CellsOf(entries), SegmentsOf(entries));
    DrawThenParse(forest, rows);
    if SiblingsDistinct(forest) {
      RootNames(forest);
      TopTotalIs(entries);
      FlattenedTotal(forest, []);
      AcceptedSegmentsGood(forest, rows);
      ChildPath(forest, "backend_bound", "core_bound");
      ChildPath(forest, "backend_bound", "memory_bound");
      SomeNode(nodes);
      ValidIff(nodes);
    }
  }

  lemma {:induction false} ChildPath(forest: seq<Tree>, root: string, child: string)
    requires AllGood(Flatten(forest, []))
    requires root != "" && child != "" && '.' !in root && '.' !in child
    ensures var nodes := NodesOf(CellsOf(Flatten(forest, [])), SegmentsOf(Flatten(forest, [])));
            HasPath(nodes, root + "." + child) <==> HasChild(forest, root, child)
  {
    hide HasChild, GoodSegments, AllGood;
    TwoWords(root, child);
    PathShows(Flatten(forest, []), root, child);
    ForestShowsChild(forest, root, child);
  }

  predicate HasPath(nodes: seq<Node>, path: string) {
    exists i :: 0 <= i < |nodes| && nodes[i].path == path
  }

  lemma {:induction false} ValidIff(nodes: seq<Node>)
    ensures Validate(nodes).None? <==>
              && TopNames(nodes) == {"retiring", "bad_speculation", "frontend_bound", "backend_bound"}
              && 99.5 <= TopTotal(nodes) <= 100.5
              && HasPath(nodes, "backend_bound" + "." + "core_bound")
              && HasPath(nodes, "backend_bound" + "." + "memory_bound")
  {
    hide TopNames, TopTotal;
    assert "backend_bound" + "." + "core_bound" == "backend_bound.core_bound";
    assert "backend_bound" + "." + "memory_bound" == "backend_bound.memory_bound";
  }

  lemma {:induction false} SomeNode(nodes: seq<Node>)
    ensures Validate(nodes).None? ==> nodes != []
  {
    if nodes == [] {
      NoTopNames();
      assert "retiring" in TOP_LEVEL;
    }
  }

  lemma {:induction false} TwoWords(a: string, b: string)
    requires a != "" && b != "" && '.' !in a && '.' !in b
    ensures GoodSegments([a, b])
  {
  }
}
