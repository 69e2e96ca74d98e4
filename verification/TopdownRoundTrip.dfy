/** Forests and their preorder tables: the TopDown parser is the inverse of drawing
    (devkit_topdown_parser.go). */
module TopdownRoundTrip {
  import opened Text
  import opened TopdownNames
  import opened Topdown
  import opened TopdownForest

  datatype Tree = Tree(name: string, value: real, preferred: string, children: seq<Tree>)

  /** A node of a forest together with the names on the way to it, its own included. */
  datatype Entry = Entry(segments: seq<string>, value: real, preferred: string)

  function FlattenTree(t: Tree, above: seq<string>): (r: seq<Entry>)
    ensures |r| >= 1 && r[0] == Entry(above + [t.name], t.value, t.preferred)
    ensures r[1..] == Flatten(t.children, above + [t.name])
    decreases t
  {
    [Entry(above + [t.name], t.value, t.preferred)] + Flatten(t.children, above + [t.name])
  }

  /** Preorder. */
  function Flatten(forest: seq<Tree>, above: seq<string>): seq<Entry>
    decreases forest
  {
    if forest == [] then [] else FlattenTree(forest[0], above) + Flatten(forest[1..], above)
  }

  function CellOf(e: Entry): Cell {
    Cell(if e.segments == [] then "" else e.segments[|e.segments| - 1], |e.segments|, Some(e.value), e.preferred)
  }

  function CellsOf(entries: seq<Entry>): (r: seq<Cell>)
    ensures |r| == |entries| && forall i :: 0 <= i < |entries| ==> r[i] == CellOf(entries[i])
  {
    seq(|entries|, i requires 0 <= i < |entries| => CellOf(entries[i]))
  }

  function SegmentsOf(entries: seq<Entry>): (r: seq<seq<string>>)
    ensures |r| == |entries| && forall i :: 0 <= i < |entries| ==> r[i] == entries[i].segments
  {
    seq(|entries|, i requires 0 <= i < |entries| => entries[i].segments)
  }

  // ---------- preorder lists ----------

  /** e may directly follow prev in a preorder list. */
  predicate Follows(prev: Entry, e: Entry) {
    && 1 <= |e.segments| <= |prev.segments| + 1
    && e.segments[..|e.segments| - 1] == prev.segments[..|e.segments| - 1]
  }

  /** A preorder list of a forest hanging below "above". */
  predicate Chained(entries: seq<Entry>, above: seq<string>) {
    && (forall i :: 0 <= i < |entries| ==> |above| < |entries[i].segments| && above <= entries[i].segments)
    && (entries != [] ==> |entries[0].segments| == |above| + 1)
    && (forall i :: 0 < i < |entries| ==> Follows(entries[i - 1], entries[i]))
  }

  lemma {:induction false} ChainedAppend(a: seq<Entry>, b: seq<Entry>, above: seq<string>)
    requires Chained(a, above) && Chained(b, above)
    ensures Chained(a + b, above)
  {
    var all := a + b;
    forall i | 0 < i < |all| ensures Follows(all[i - 1], all[i]) {
      if i < |a| {
        assert Follows(a[i - 1], a[i]);
      } else if i == |a| {
        assert all[i] == b[0];
      } else {
        assert Follows(b[i - |a| - 1], b[i - |a|]);
      }
    }
  }

  lemma {:induction false} TreeChained(t: Tree, above: seq<string>)
    ensures Chained(FlattenTree(t, above), above)
    decreases t
  {
    var own := above + [t.name];
    var below := Flatten(t.children, own);
    FlattenChained(t.children, own);
    var all := FlattenTree(t, above);
    assert forall i :: 0 < i < |all| ==> all[i] == below[i - 1];
    forall i | 0 < i < |all| ensures Follows(all[i - 1], all[i]) && above <= all[i].segments {
      assert own <= below[i - 1].segments;
      if i > 1 {
        assert Follows(below[i - 2], below[i - 1]);
      } else {
        assert below[0].segments[..|own|] == own;
      }
    }
  }

  lemma {:induction false} FlattenChained(forest: seq<Tree>, above: seq<string>)
    ensures Chained(Flatten(forest, above), above)
    decreases forest
  {
    if forest != [] {
      TreeChained(forest[0], above);
      FlattenChained(forest[1..], above);
      ChainedAppend(FlattenTree(forest[0], above), Flatten(forest[1..], above), above);
    }
  }

  /** Reading a preorder list row by row gives every row its own segments. */
  lemma {:induction false} ChainedSegments(entries: seq<Entry>, i: nat)
    requires Chained(entries, []) && i < |entries|
    ensures GoodLevels(CellsOf(entries))
    ensures Segments(CellsOf(entries), i) == entries[i].segments
  {
    var cells := CellsOf(entries);
    forall k | 0 <= k < |cells| ensures LevelFits(cells, k) {
      if k > 0 {
        assert Follows(entries[k - 1], entries[k]);
      }
    }
    var e := entries[i].segments;
    assert e == e[..|e| - 1] + [e[|e| - 1]];
    if |e| > 1 {
      assert i > 0 && Follows(entries[i - 1], entries[i]);
      ChainedSegments(entries, i - 1);
      SegmentsNest(cells, i, |e| - 1);
    }
  }

  lemma {:induction false} ChainedAllSegments(entries: seq<Entry>)
    requires Chained(entries, [])
    ensures GoodLevels(CellsOf(entries)) && AllSegments(CellsOf(entries)) == SegmentsOf(entries)
  {
    hide Segments;
    forall i | 0 <= i < |entries| ensures Segments(CellsOf(entries), i) == entries[i].segments {
      ChainedSegments(entries, i);
    }
    if entries != [] {
      ChainedSegments(entries, 0);
    }
  }

  // ---------- rebuilding the forest ----------

  function RunLength(entries: seq<Entry>, depth: nat): (n: nat)
    ensures n <= |entries|
    ensures forall i :: 0 <= i < n ==> |entries[i].segments| > depth
    ensures n < |entries| ==> |entries[n].segments| <= depth
  {
    if entries == [] || |entries[0].segments| <= depth then 0 else 1 + RunLength(entries[1..], depth)
  }

  /** Group a preorder list into trees: an entry and the deeper entries right behind it. */
  function Build(entries: seq<Entry>, depth: nat): seq<Tree>
    decreases |entries|
  {
    if entries == [] then []
    else
      var n := RunLength(entries[1..], depth + 1);
      var e := entries[0];
      [Tree(CellOf(e).name, e.value, e.preferred, Build(entries[1..1 + n], depth + 1))] + Build(entries[1 + n..], depth)
  }

  lemma {:induction false} RunLengthIs(entries: seq<Entry>, depth: nat, n: nat)
    requires n <= |entries|
    requires forall i :: 0 <= i < n ==> |entries[i].segments| > depth
    requires n < |entries| ==> |entries[n].segments| <= depth
    ensures RunLength(entries, depth) == n
  {
  }

  /** Building from an entry, deeper entries, and a rest that starts no deeper. */
  lemma {:induction false} BuildStep(e: Entry, below: seq<Entry>, after: seq<Entry>, depth: nat)
    requires forall i :: 0 <= i < |below| ==> |below[i].segments| > depth + 1
    requires after != [] ==> |after[0].segments| <= depth + 1
    ensures Build([e] + below + after, depth) ==
            [Tree(CellOf(e).name, e.value, e.preferred, Build(below, depth + 1))] + Build(after, depth)
  {
    var all := [e] + below + after;
    assert all[1..] == below + after;
    RunLengthIs(all[1..], depth + 1, |below|);
    assert all[1..1 + |below|] == below && all[1 + |below|..] == after;
  }

  /** MAIN: the flat list determines the forest. */
  lemma {:induction false} BuildFlatten(forest: seq<Tree>, above: seq<string>)
    ensures Build(Flatten(forest, above), |above|) == forest
    decreases forest
  {
    hide Build;
    if forest == [] {
      BuildNothing(|above|);
    } else {
      var t, rest := forest[0], forest[1..];
      var own := above + [t.name];
      var below, after := Flatten(t.children, own), Flatten(rest, above);
      FlattenChained(t.children, own);
      FlattenChained(rest, above);
      BuildStep(Entry(own, t.value, t.preferred), below, after, |above|);
      assert Flatten(forest, above) == [Entry(own, t.value, t.preferred)] + below + after;
      BuildChildren(t, above);
      BuildFlatten(rest, above);
      assert forest == [t] + rest;
    }
  }

  lemma {:induction false} BuildNothing(depth: nat)
    ensures Build([], depth) == []
  {
  }

  lemma {:induction false} BuildChildren(t: Tree, above: seq<string>)
    ensures Build(Flatten(t.children, above + [t.name]), |above| + 1) == t.children
    decreases t
  {
    hide Build, Flatten;
    BuildFlatten(t.children, above + [t.name]);
  }

  lemma {:induction false} RunBelow(entries: seq<Entry>, above: seq<string>, n: nat, i: nat)
    requires Chained(entries, above) && n < |entries| && i <= n
    requires forall k :: 0 < k <= n ==> |entries[k].segments| > |above| + 1
    ensures entries[0].segments <= entries[i].segments
  {
    if i > 0 {
      RunBelow(entries, above, n, i - 1);
      assert Follows(entries[i - 1], entries[i]);
      var len := |above| + 1;
      assert entries[i].segments[..len] == entries[i].segments[..|entries[i].segments| - 1][..len];
      assert entries[i - 1].segments[..len] == entries[i - 1].segments[..|entries[i].segments| - 1][..len];
      assert entries[i - 1].segments[..len] == entries[0].segments;
    }
  }

  lemma {:induction false} ChainBelow(entries: seq<Entry>, above: seq<string>, n: nat)
    requires Chained(entries, above) && n < |entries|
    requires forall k :: 0 < k <= n ==> |entries[k].segments| > |above| + 1
    ensures Chained(entries[1..1 + n], entries[0].segments)
  {
    var below := entries[1..1 + n];
    forall i | 0 <= i < |below|
      ensures entries[0].segments <= below[i].segments && |entries[0].segments| < |below[i].segments|
    {
      RunBelow(entries, above, n, i + 1);
    }
    if below != [] {
      assert Follows(entries[0], entries[1]);
    }
    forall i | 0 < i < |below| ensures Follows(below[i - 1], below[i]) {
      assert Follows(entries[i], entries[i + 1]);
    }
  }

  lemma {:induction false} ChainAfter(entries: seq<Entry>, above: seq<string>, m: nat)
    requires Chained(entries, above) && m <= |entries|
    requires m < |entries| ==> |entries[m].segments| <= |above| + 1
    ensures Chained(entries[m..], above)
  {
    var after := entries[m..];
    forall i | 0 < i < |after| ensures Follows(after[i - 1], after[i]) {
      assert Follows(entries[m + i - 1], entries[m + i]);
    }
  }

  lemma {:induction false} SplitChain(entries: seq<Entry>, above: seq<string>)
    requires Chained(entries, above) && entries != []
    ensures var n := RunLength(entries[1..], |above| + 1);
            && Chained(entries[1..1 + n], entries[0].segments)
            && Chained(entries[1 + n..], above)
  {
    hide Chained;
    var n := RunLength(entries[1..], |above| + 1);
    forall k | 0 < k <= n ensures |entries[k].segments| > |above| + 1 {
      assert entries[k] == entries[1..][k - 1];
    }
    if 1 + n < |entries| {
      assert entries[1 + n] == entries[1..][n];
    }
    ChainBelow(entries, above, n);
    ChainAfter(entries, above, 1 + n);
  }

  /** MAIN: every preorder list is the flat list of a forest. */
  lemma {:induction false} FlattenBuild(entries: seq<Entry>, above: seq<string>)
    requires Chained(entries, above)
    ensures Flatten(Build(entries, |above|), above) == entries
    decreases |entries|
  {
    hide Chained, Build, Flatten, CellOf, RunLength;
    if entries == [] {
      BuildNothing(|above|);
      FlattenNothing(above);
    } else {
      var n := RunLength(entries[1..], |above| + 1);
      var e := entries[0];
      var below, after := entries[1..1 + n], entries[1 + n..];
      SplitChain(entries, above);
      FirstSegments(entries, above);
      FlattenBuild(below, e.segments);
      FlattenBuild(after, above);
      var t := Tree(CellOf(e).name, e.value, e.preferred, Build(below, |above| + 1));
      BuildSplits(entries, |above|);
      FlattenCons(t, Build(after, |above|), above);
      assert entries == [e] + below + after;
    }
  }

  lemma {:induction false} FlattenNothing(above: seq<string>)
    ensures Flatten([], above) == []
  {
  }

  lemma {:induction false} BuildSplits(entries: seq<Entry>, depth: nat)
    requires entries != []
    ensures var n, e := RunLength(entries[1..], depth + 1), entries[0];
            Build(entries, depth) ==
            [Tree(CellOf(e).name, e.value, e.preferred, Build(entries[1..1 + n], depth + 1))]
            + Build(entries[1 + n..], depth)
  {
  }

  lemma {:induction false} FirstSegments(entries: seq<Entry>, above: seq<string>)
    requires Chained(entries, above) && entries != []
    ensures entries[0].segments == above + [CellOf(entries[0]).name]
  {
  }

  lemma {:induction false} FlattenCons(t: Tree, rest: seq<Tree>, above: seq<string>)
    ensures Flatten([t] + rest, above) ==
            [Entry(above + [t.name], t.value, t.preferred)] + Flatten(t.children, above + [t.name])
            + Flatten(rest, above)
  {
    assert ([t] + rest)[1..] == rest;
  }

  // ---------- distinct siblings ----------

  function Names(forest: seq<Tree>): (r: seq<string>)
    ensures |r| == |forest| && forall i :: 0 <= i < |forest| ==> r[i] == forest[i].name
  {
    seq(|forest|, i requires 0 <= i < |forest| => forest[i].name)
  }

  ghost predicate SiblingsDistinct(forest: seq<Tree>)
    decreases forest, 1
  {
    Distinct(Names(forest)) && forall i :: 0 <= i < |forest| ==> ChildrenDistinct(forest[i])
  }

  ghost predicate ChildrenDistinct(t: Tree)
    decreases t
  {
    SiblingsDistinct(t.children)
  }

  lemma {:induction false} DistinctAppend<T>(a: seq<T>, b: seq<T>)
    ensures Distinct(a + b) <==>
              Distinct(a) && Distinct(b) && forall i, j :: 0 <= i < |a| && 0 <= j < |b| ==> a[i] != b[j]
  {
    var c := a + b;
    if Distinct(c) {
      forall i, j | 0 <= i < j < |a| ensures a[i] != a[j] { assert c[i] != c[j]; }
      forall i, j | 0 <= i < j < |b| ensures b[i] != b[j] { assert c[|a| + i] != c[|a| + j]; }
      forall i, j | 0 <= i < |a| && 0 <= j < |b| ensures a[i] != b[j] { assert c[i] != c[|a| + j]; }
    }
  }

  /** Below "above", a forest's segments continue with the name of one of its roots, and
      every root is there. */
  lemma {:induction false} RootsShow(forest: seq<Tree>, above: seq<string>)
    ensures var s := SegmentsOf(Flatten(forest, above));
            && (forall i :: 0 <= i < |s| ==> |above| < |s[i]| && s[i][|above|] in Names(forest))
            && (forall k :: 0 <= k < |forest| ==> above + [forest[k].name] in s)
    decreases forest
  {
    if forest != [] {
      var t, rest := forest[0], forest[1..];
      var own := above + [t.name];
      RootsShow(rest, above);
      FlattenChained(t.children, own);
      var tree, after := FlattenTree(t, above), Flatten(rest, above);
      var s := SegmentsOf(Flatten(forest, above));
      assert s == SegmentsOf(tree) + SegmentsOf(after);
      forall i | 0 <= i < |s| ensures |above| < |s[i]| && s[i][|above|] in Names(forest) {
        if i < |tree| {
          assert own <= tree[i].segments by { if i > 0 { assert tree[i] == tree[1..][i - 1]; } }
          assert s[i][|above|] == Names(forest)[0];
        } else {
          assert s[i] == SegmentsOf(after)[i - |tree|];
          assert s[i][|above|] in Names(rest);
          var k :| 0 <= k < |rest| && Names(rest)[k] == s[i][|above|];
          assert Names(forest)[k + 1] == s[i][|above|];
        }
      }
      forall k | 0 <= k < |forest| ensures above + [forest[k].name] in s {
        if k == 0 {
          assert s[0] == own;
        } else {
          assert forest[k] == rest[k - 1];
          assert above + [rest[k - 1].name] in SegmentsOf(after);
        }
      }
    }
  }

  lemma {:induction false} SegmentsCons(forest: seq<Tree>, above: seq<string>)
    requires forest != []
    ensures SegmentsOf(Flatten(forest, above)) ==
            SegmentsOf(FlattenTree(forest[0], above)) + SegmentsOf(Flatten(forest[1..], above))
  {
  }

  lemma {:induction false} SiblingsCons(forest: seq<Tree>)
    requires forest != []
    ensures SiblingsDistinct(forest) <==>
              ChildrenDistinct(forest[0]) && SiblingsDistinct(forest[1..]) && forest[0].name !in Names(forest[1..])
  {
    hide ChildrenDistinct, Distinct;
    var t, rest := forest[0], forest[1..];
    assert Names(forest) == [t.name] + Names(rest);
    DistinctAppend([t.name], Names(rest));
    OneIsDistinct(t.name);
    forall i | 0 < i < |forest| ensures forest[i] == rest[i - 1] {
    }
    if SiblingsDistinct(forest) {
      forall i | 0 <= i < |rest| ensures ChildrenDistinct(rest[i]) {
        assert ChildrenDistinct(forest[i + 1]);
      }
    }
  }

  lemma {:induction false} OneIsDistinct<T>(x: T)
    ensures Distinct([x])
  {
  }

  lemma {:induction false} NoTreesDistinct(above: seq<string>)
    ensures Distinct(SegmentsOf(Flatten([], above))) && SiblingsDistinct([])
  {
  }

  /** Two neighbouring subtrees share a segment list exactly when their roots share a name. */
  lemma {:induction false} TreeVersusRest(t: Tree, rest: seq<Tree>, above: seq<string>)
    ensures var tree, after := SegmentsOf(FlattenTree(t, above)), SegmentsOf(Flatten(rest, above));
            (forall i, j :: 0 <= i < |tree| && 0 <= j < |after| ==> tree[i] != after[j]) <==> t.name !in Names(rest)
  {
    hide Flatten;
    var tree, after := SegmentsOf(FlattenTree(t, above)), SegmentsOf(Flatten(rest, above));
    RootsShow(rest, above);
    TreeStartsWithName(t, above);
    if t.name in Names(rest) {
      var k :| 0 <= k < |rest| && Names(rest)[k] == t.name;
      assert above + [rest[k].name] in after;
      assert tree[0] in after;
      var j :| 0 <= j < |after| && after[j] == tree[0];
    }
  }

  /** The segments of a flattened forest are distinct exactly when siblings are. */
  lemma {:induction false} DistinctIffSiblings(forest: seq<Tree>, above: seq<string>)
    ensures Distinct(SegmentsOf(Flatten(forest, above))) <==> SiblingsDistinct(forest)
    decreases forest
  {
    hide Flatten, FlattenTree, SiblingsDistinct, ChildrenDistinct, Distinct;
    if forest == [] {
      NoTreesDistinct(above);
    } else {
      var t, rest := forest[0], forest[1..];
      SegmentsCons(forest, above);
      DistinctAppend(SegmentsOf(FlattenTree(t, above)), SegmentsOf(Flatten(rest, above)));
      TreeDistinct(t, above);
      DistinctIffSiblings(rest, above);
      TreeVersusRest(t, rest, above);
      SiblingsCons(forest);
    }
  }

  lemma {:induction false} TreeStartsWithName(t: Tree, above: seq<string>)
    ensures forall i :: 0 <= i < |FlattenTree(t, above)| ==>
              var s := SegmentsOf(FlattenTree(t, above))[i]; |above| < |s| && s[|above|] == t.name
  {
    var own := above + [t.name];
    FlattenChained(t.children, own);
    var tree := FlattenTree(t, above);
    forall i | 0 <= i < |tree| ensures own <= tree[i].segments {
      if i > 0 {
        assert tree[i] == tree[1..][i - 1];
      }
    }
  }

  lemma {:induction false} TreeDistinct(t: Tree, above: seq<string>)
    ensures Distinct(SegmentsOf(FlattenTree(t, above))) <==> ChildrenDistinct(t)
    decreases t
  {
    hide Flatten, SiblingsDistinct, Distinct, Chained;
    var own := above + [t.name];
    var below := SegmentsOf(Flatten(t.children, own));
    DistinctIffSiblings(t.children, own);
    FlattenChained(t.children, own);
    ChainedIsDeeper(Flatten(t.children, own), own);
    assert SegmentsOf(FlattenTree(t, above)) == [own] + below;
    DistinctAppend([own], below);
    OneIsDistinct(own);
  }

  lemma {:induction false} ChainedIsDeeper(entries: seq<Entry>, above: seq<string>)
    requires Chained(entries, above)
    ensures forall j :: 0 <= j < |entries| ==> SegmentsOf(entries)[j] != above
  {
  }

  // ---------- the round trip ----------

  ghost predicate NamesNormal(entries: seq<Entry>) {
    forall i :: 0 <= i < |entries| ==> CellOf(entries[i]).name != "" && IsNormalName(CellOf(entries[i]).name)
  }

  /** The row draws a raw name that stands for the given one, with any drawing characters
      before the mark. */
  ghost predicate DrawsName(namePart: string, name: string, level: nat) {
    exists raw :: TEE !in raw && CORNER !in raw && Stands(raw, name) && Draws(namePart, raw, level)
  }

  /** The rows draw the entries, one each. */
  ghost predicate Table(rows: seq<Row>, entries: seq<Entry>) {
    && |rows| == |entries|
    && forall i :: 0 <= i < |rows| ==>
         && DrawsName(rows[i].namePart, CellOf(entries[i]).name, |entries[i].segments|)
         && rows[i].value == Some(entries[i].value) && rows[i].preferred == entries[i].preferred
  }

  /** Names that are normal already may be drawn as they are. */
  lemma {:induction false} NormalNameDraws(namePart: string, name: string, level: nat)
    requires IsNormalName(name) && name != "" && Draws(namePart, name, level)
    ensures DrawsName(namePart, name, level)
  {
    hide Stands, Draws;
    NormalStands(name);
  }

  lemma {:induction false} TableReadsBack(rows: seq<Row>, entries: seq<Entry>)
    requires Table(rows, entries)
    requires forall i :: 0 <= i < |entries| ==> |entries[i].segments| >= 1
    ensures ReadRows(rows) == CellsOf(entries) && NamesNormal(entries)
  {
    hide Draws, NormalizeName, NameAndLevel, IsNormalName, Stands, TrimSpace;
    forall i | 0 <= i < |rows|
      ensures ReadRow(rows[i]) == CellOf(entries[i])
      ensures CellOf(entries[i]).name != "" && IsNormalName(CellOf(entries[i]).name)
    {
      var name, level := CellOf(entries[i]).name, |entries[i].segments|;
      var raw :| TEE !in raw && CORNER !in raw && Stands(raw, name) && Draws(rows[i].namePart, raw, level);
      DrawnRowReadsBack(rows[i].namePart, raw, level);
      StandsIsRead(raw, name);
    }
  }

  /** MAIN: drawing a forest, under raw names that stand for its names, and parsing the table
      succeeds exactly when no two siblings share a name, and then the forest is recovered
      from the parsed rows. */
  lemma {:induction false} DrawThenParse(forest: seq<Tree>, rows: seq<Row>)
    requires Table(rows, Flatten(forest, []))
    ensures ParseRows(rows).Ok? <==> SiblingsDistinct(forest)
    ensures ParseRows(rows).Ok? ==>
              var entries := Flatten(forest, []);
              && ParseRows(rows).value == NodesOf(CellsOf(entries), SegmentsOf(entries))
              && Build(entries, 0) == forest
  {
    hide ParseRows, Segments, Distinct, Table, NamesNormal, Build, SiblingsDistinct;
    var entries := Flatten(forest, []);
    FlattenChained(forest, []);
    TableReadsBack(rows, entries);
    ChainedAllSegments(entries);
    DistinctIffSiblings(forest, []);
    AcceptedIffStructural(rows);
    NormalCellsGood(entries);
    BuildFlatten(forest, []);
  }

  lemma {:induction false} NormalCellsGood(entries: seq<Entry>)
    requires NamesNormal(entries)
    ensures CellsGood(CellsOf(entries))
  {
    forall i | 0 <= i < |entries| ensures GoodName(CellsOf(entries)[i].name) {
      assert IsNormalName(CellOf(entries[i]).name);
    }
  }

  /** The entries of an accepted table. */
  function EntriesOf(cells: seq<Cell>): (r: seq<Entry>)
    ensures |r| == |cells|
  {
    seq(|cells|, i requires 0 <= i < |cells| =>
      Entry(Segments(cells, i), if cells[i].value.Some? then cells[i].value.value else 0.0, cells[i].preferred))
  }

  /** MAIN: conversely, every accepted table is the table of a forest with distinct
      siblings: its rows read as that forest's preorder. */
  lemma {:induction false} ParseThenBuild(rows: seq<Row>) returns (forest: seq<Tree>)
    requires ParseRows(rows).Ok?
    ensures SiblingsDistinct(forest)
    ensures Flatten(forest, []) == EntriesOf(ReadRows(rows))
    ensures ParseRows(rows).value == NodesOf(CellsOf(Flatten(forest, [])), SegmentsOf(Flatten(forest, [])))
  {
    hide ParseRows, ReadRow, SiblingsDistinct, Distinct, Build;
    var cells := ReadRows(rows);
    var entries := EntriesOf(cells);
    AcceptedIffStructural(rows);
    AcceptedChained(cells);
    forest := Build(entries, 0);
    FlattenBuild(entries, []);
    DistinctIffSiblings(forest, []);
    assert SegmentsOf(entries) == AllSegments(cells);
  }

  lemma {:induction false} AcceptedChained(cells: seq<Cell>)
    requires Structural(cells)
    ensures Chained(EntriesOf(cells), []) && CellsOf(EntriesOf(cells)) == cells
  {
    var entries := EntriesOf(cells);
    forall i | 0 <= i < |cells|
      ensures |entries[i].segments| == cells[i].level >= 1 && CellOf(entries[i]) == cells[i]
    {
      OwnSegments(cells, i);
      assert LevelFits(cells, i);
    }
    forall i | 0 < i < |cells| ensures Follows(entries[i - 1], entries[i]) {
      assert LevelFits(cells, i);
      if cells[i].level > 1 {
        SegmentsNest(cells, i, cells[i].level - 1);
      }
    }
    if cells != [] {
      assert LevelFits(cells, 0);
    }
  }

  // ---------- accepted reports ----------

  /** MAIN: an accepted report has exactly four roots, named as the four top-level classes. */
  lemma {:induction false} FourRoots(rows: seq<Row>) returns (forest: seq<Tree>)
    requires ParseTree(rows).Ok?
    ensures ParseTree(rows).value == NodesOf(CellsOf(Flatten(forest, [])), SegmentsOf(Flatten(forest, [])))
    ensures |forest| == 4 && (set t | t in Names(forest)) == TOP_LEVEL
  {
    hide ParseRows, Flatten, NodesOf, SegmentsOf, CellsOf, SiblingsDistinct, TopNames, TopTotal, EntriesOf, ReadRows;
    AcceptedIsValid(rows);
    forest := ParseThenBuild(rows);
    RootNames(forest);
    NamesCount(forest);
    assert |TOP_LEVEL| == 4;
  }

  lemma {:induction false} AcceptedIsValid(rows: seq<Row>)
    requires ParseTree(rows).Ok?
    ensures ParseRows(rows).Ok? && ParseRows(rows).value == ParseTree(rows).value
    ensures TopNames(ParseRows(rows).value) == TOP_LEVEL
  {
    hide ParseRows, TopNames, TopTotal;
  }

  lemma {:induction false} NamesCount(forest: seq<Tree>)
    requires SiblingsDistinct(forest)
    ensures |set t | t in Names(forest)| == |forest|
  {
    DistinctCount(Names(forest));
  }

  lemma {:induction false} DistinctCount(names: seq<string>)
    requires Distinct(names)
    ensures |set t | t in names| == |names|
  {
    if names != [] {
      var n := |names| - 1;
      assert names == names[..n] + [names[n]];
      DistinctSnoc(names[..n], names[n]);
      DistinctCount(names[..n]);
      assert (set t | t in names) == (set t | t in names[..n]) + {names[n]};
    }
  }

  /** The level-1 nodes of a flattened forest carry exactly the names of its roots. */
  lemma {:induction false} RootNames(forest: seq<Tree>)
    ensures var entries := Flatten(forest, []);
            TopNames(NodesOf(CellsOf(entries), SegmentsOf(entries))) == set t | t in Names(forest)
  {
    hide Flatten, Names;
    var top: seq<string> := [];
    var entries := Flatten(forest, top);
    RootsShow(forest, top);
    forall i | 0 <= i < |entries|
      ensures 0 < |SegmentsOf(entries)[i]| && SegmentsOf(entries)[i][0] in Names(forest)
    {
      assert SegmentsOf(entries)[i][|top|] in Names(forest);
    }
    forall k | 0 <= k < |forest| ensures [] + [Names(forest)[k]] in SegmentsOf(entries) {
      assert top + [forest[k].name] in SegmentsOf(entries);
    }
    LevelOneNames(entries, Names(forest));
  }

  lemma {:induction false} LevelOneNames(entries: seq<Entry>, names: seq<string>)
    requires forall i :: 0 <= i < |entries| ==> 0 < |SegmentsOf(entries)[i]| && SegmentsOf(entries)[i][0] in names
    requires forall k :: 0 <= k < |names| ==> [] + [names[k]] in SegmentsOf(entries)
    ensures TopNames(NodesOf(CellsOf(entries), SegmentsOf(entries))) == set t | t in names
  {
    hide Join;
    var nodes := NodesOf(CellsOf(entries), SegmentsOf(entries));
    forall x | x in TopNames(nodes) ensures x in names {
      var i :| 0 <= i < |nodes| && nodes[i].level == 1 && nodes[i].name == x;
      assert SegmentsOf(entries)[i][0] in names;
    }
    forall x | x in names ensures x in TopNames(nodes) {
      var k :| 0 <= k < |names| && names[k] == x;
      assert [] + [names[k]] in SegmentsOf(entries);
      var i :| 0 <= i < |entries| && SegmentsOf(entries)[i] == [] + [x];
      assert entries[i].segments == [x];
      assert nodes[i].name == x && nodes[i].level == 1;
    }
  }
}
