/** What the TopDown parser accepts and what it recovers: the row sequences it takes are
    exactly the preorder drawings of forests (devkit_topdown_parser.go). */
module TopdownForest {
  import opened Text
  import opened TopdownNames
  import opened Topdown

  // ---------- acceptance, stated on rows alone ----------

  /** The segments of row i: those of the nearest earlier row one level up, then its own
      name.  Nothing here refers to a stack. */
  function Segments(cells: seq<Cell>, i: nat): (r: seq<string>)
    requires i < |cells|
    decreases i, 1
  {
    (if cells[i].level <= 1 then [] else Nearest(cells, i, cells[i].level - 1)) + [cells[i].name]
  }

  /** The segments of the last row at the given level among the first n. */
  function Nearest(cells: seq<Cell>, n: nat, level: nat): seq<string>
    requires n <= |cells|
    decreases n, 0
  {
    if n == 0 then []
    else if cells[n - 1].level == level then Segments(cells, n - 1)
    else Nearest(cells, n - 1, level)
  }

  predicate GoodName(name: string) { name != "" && '.' !in name }

  /** The first level is 1 and no level exceeds the one before by more than 1. */
  predicate GoodLevels(cells: seq<Cell>) {
    forall i :: 0 <= i < |cells| ==> LevelFits(cells, i)
  }

  predicate LevelFits(cells: seq<Cell>, i: nat)
    requires i < |cells|
  {
    1 <= cells[i].level <= if i == 0 then 1 else cells[i - 1].level + 1
  }

  lemma {:induction false} GoodLevelsSnoc(cells: seq<Cell>, cell: Cell)
    ensures GoodLevels(cells + [cell]) <==>
              GoodLevels(cells) && 1 <= cell.level <= if cells == [] then 1 else cells[|cells| - 1].level + 1
  {
    var all, n := cells + [cell], |cells|;
    forall i | 0 <= i < n ensures LevelFits(all, i) <==> LevelFits(cells, i) {
      assert all[i] == cells[i];
      assert i > 0 ==> all[i - 1] == cells[i - 1];
    }
    assert all[n] == cell && (n > 0 ==> all[n - 1] == cells[n - 1]);
    if GoodLevels(all) {
      assert LevelFits(all, n);
      forall i | 0 <= i < n ensures LevelFits(cells, i) {
        assert LevelFits(all, i);
      }
    }
  }

  predicate CellsGood(cells: seq<Cell>) {
    forall i :: 0 <= i < |cells| ==> GoodName(cells[i].name) && cells[i].value.Some?
  }

  /** The segments of all rows. */
  function AllSegments(cells: seq<Cell>): (r: seq<seq<string>>)
    ensures |r| == |cells|
    ensures forall i :: 0 <= i < |cells| ==> r[i] == Segments(cells, i)
  {
    seq(|cells|, i requires 0 <= i < |cells| => Segments(cells, i))
  }

  ghost predicate Distinct<T>(s: seq<T>) {
    forall i, j :: 0 <= i < j < |s| ==> s[i] != s[j]
  }

  lemma {:induction false} DistinctSnoc<T>(s: seq<T>, x: T)
    ensures Distinct(s + [x]) <==> Distinct(s) && x !in s
  {
    var t := s + [x];
    if Distinct(t) {
      forall i, j | 0 <= i < j < |s| ensures s[i] != s[j] {
        assert t[i] != t[j];
      }
      forall i | 0 <= i < |s| ensures s[i] != x {
        assert t[i] != t[|s|];
      }
    }
  }

  ghost predicate Structural(cells: seq<Cell>) {
    CellsGood(cells) && GoodLevels(cells) && Distinct(AllSegments(cells))
  }

  predicate GoodSegments(segments: seq<string>) {
    segments != [] && forall i :: 0 <= i < |segments| ==> GoodName(segments[i])
  }

  /** The dotted path is injective on segment lists. */
  lemma {:induction false} PathInjective(a: seq<string>, b: seq<string>)
    requires GoodSegments(a) && GoodSegments(b) && Join(a, '.') == Join(b, '.')
    ensures a == b
  {
    JoinInjective(a, b, '.');
  }

  lemma {:induction false} AllSegmentsSnoc(cells: seq<Cell>, cell: Cell)
    ensures AllSegments(cells + [cell]) == AllSegments(cells) + [Segments(cells + [cell], |cells|)]
  {
    hide Segments;
    var all, n := cells + [cell], |cells|;
    assert all[..n] == cells;
    var before, after := AllSegments(cells), AllSegments(all);
    forall i | 0 <= i < n ensures after[i] == before[i] {
      SegmentsLocal(all, n, i);
    }
    assert after == before + [after[n]];
  }

  lemma {:induction false} SegmentsLocal(cells: seq<Cell>, n: nat, i: nat)
    requires i < n <= |cells|
    ensures Segments(cells[..n], i) == Segments(cells, i)
    decreases i, 1
  {
    if cells[i].level > 1 {
      NearestLocal(cells, n, i, cells[i].level - 1);
    }
  }

  lemma {:induction false} NearestLocal(cells: seq<Cell>, n: nat, m: nat, level: nat)
    requires m <= n <= |cells|
    ensures Nearest(cells[..n], m, level) == Nearest(cells, m, level)
    decreases m, 0
  {
    if m > 0 {
      if cells[m - 1].level == level {
        SegmentsLocal(cells, n, m - 1);
      } else {
        NearestLocal(cells, n, m - 1, level);
      }
    }
  }

  /** With good levels, the last row's segments extend those of the nearest row at every
      smaller level, and there are as many as its level. */
  lemma {:induction false} SegmentsNest(cells: seq<Cell>, n: nat, level: nat)
    requires GoodLevels(cells) && 1 <= n <= |cells| && 1 <= level <= cells[n - 1].level
    ensures |Segments(cells, n - 1)| == cells[n - 1].level
    ensures Nearest(cells, n, level) == Segments(cells, n - 1)[..level]
    decreases n
  {
    var i := n - 1;
    var own := cells[i].level;
    assert LevelFits(cells, i);
    if own > 1 {
      SegmentsNest(cells, i, own - 1);
      if level < own {
        SegmentsNest(cells, i, level);
        assert Segments(cells, i)[..level] == Segments(cells, i - 1)[..level];
      }
    }
    if level == own {
      assert Segments(cells, i)[..own] == Segments(cells, i);
    }
  }

  lemma {:induction false} SegmentsGood(cells: seq<Cell>, i: nat)
    requires i < |cells| && forall k :: 0 <= k <= i ==> GoodName(cells[k].name)
    ensures GoodSegments(Segments(cells, i))
    decreases i, 1
  {
    if cells[i].level > 1 {
      NearestGood(cells, i, cells[i].level - 1);
    }
  }

  lemma {:induction false} NearestGood(cells: seq<Cell>, n: nat, level: nat)
    requires n <= |cells| && forall k :: 0 <= k < n ==> GoodName(cells[k].name)
    ensures Nearest(cells, n, level) == [] || GoodSegments(Nearest(cells, n, level))
    decreases n, 0
  {
    if n > 0 {
      if cells[n - 1].level == level {
        SegmentsGood(cells, n - 1);
      } else {
        NearestGood(cells, n - 1, level);
      }
    }
  }

  function NodeOf(cell: Cell, segments: seq<string>): Node {
    Node(cell.name, Join(segments, '.'), cell.level, cell.preferred, if cell.value.Some? then cell.value.value else 0.0)
  }

  function NodesOf(cells: seq<Cell>, segments: seq<seq<string>>): (r: seq<Node>)
    requires |cells| == |segments|
    ensures |r| == |cells| && forall i :: 0 <= i < |cells| ==> r[i] == NodeOf(cells[i], segments[i])
  {
    seq(|cells|, i requires 0 <= i < |cells| => NodeOf(cells[i], segments[i]))
  }

  function PathsOf(segments: seq<seq<string>>): set<string> {
    set i | 0 <= i < |segments| :: Join(segments[i], '.')
  }

  lemma {:induction false} PathsOfSnoc(segments: seq<seq<string>>, x: seq<string>)
    ensures PathsOf(segments + [x]) == PathsOf(segments) + {Join(x, '.')}
  {
    hide Join;
    var all := segments + [x];
    forall p | p in PathsOf(segments) + {Join(x, '.')} ensures p in PathsOf(all) {
      if p in PathsOf(segments) {
        var i :| 0 <= i < |segments| && Join(segments[i], '.') == p;
        assert all[i] == segments[i];
      } else {
        assert all[|segments|] == x;
      }
    }
  }

  lemma {:induction false} PathIsNew(segments: seq<seq<string>>, x: seq<string>)
    requires GoodSegments(x) && forall i :: 0 <= i < |segments| ==> GoodSegments(segments[i])
    ensures Join(x, '.') in PathsOf(segments) <==> x in segments
  {
    hide Join, GoodSegments;
    if Join(x, '.') in PathsOf(segments) {
      var i :| 0 <= i < |segments| && Join(segments[i], '.') == Join(x, '.');
      PathInjective(segments[i], x);
    }
  }

  /** What the parser holds after accepting some rows. */
  ghost predicate Holds(cells: seq<Cell>, p: Progress) {
    var segments := AllSegments(cells);
    && p.nodes == NodesOf(cells, segments)
    && p.paths == PathsOf(segments)
    && p.stack == if cells == [] then [] else segments[|cells| - 1]
  }

  lemma {:induction false} HoldsStep(cells: seq<Cell>, cell: Cell, p: Progress)
    requires Structural(cells) && Holds(cells, p)
    ensures Structural(cells + [cell]) <==> Step(p, cell).Ok?
    ensures Step(p, cell).Ok? ==> Holds(cells + [cell], Step(p, cell).value)
  {
    hide Segments, GoodLevels, Distinct, Join;
    var n, all := |cells|, cells + [cell];
    var segments, x := AllSegments(cells), Segments(all, n);
    StackIsSegments(cells, cell, p);
    AllSegmentsSnoc(cells, cell);
    DistinctSnoc(segments, x);
    PathsOfSnoc(segments, x);
    GoodLevelsSnoc(cells, cell);
    CellsGoodSnoc(cells, cell);
    if GoodName(cell.name) && 1 <= cell.level <= |p.stack| + 1 {
      assert x == p.stack[..cell.level - 1] + [cell.name];
      forall i | 0 <= i < n ensures GoodSegments(segments[i]) {
        SegmentsGood(cells, i);
      }
      PathIsNew(segments, x);
      assert NodesOf(all, segments + [x]) == NodesOf(cells, segments) + [NodeOf(cell, x)];
    }
  }

  lemma {:induction false} CellsGoodSnoc(cells: seq<Cell>, cell: Cell)
    ensures CellsGood(cells + [cell]) <==> CellsGood(cells) && GoodName(cell.name) && cell.value.Some?
  {
    var all := cells + [cell];
    assert all[|cells|] == cell && forall i :: 0 <= i < |cells| ==> all[i] == cells[i];
  }

  lemma {:induction false} StackIsSegments(cells: seq<Cell>, cell: Cell, p: Progress)
    requires Structural(cells) && Holds(cells, p)
    ensures |p.stack| == if cells == [] then 0 else cells[|cells| - 1].level
    ensures GoodSegments(p.stack) || p.stack == []
    ensures 1 <= cell.level <= |p.stack| + 1 ==>
              Segments(cells + [cell], |cells|) == p.stack[..cell.level - 1] + [cell.name]
  {
    var n := |cells|;
    var all := cells + [cell];
    if n > 0 {
      assert LevelFits(cells, n - 1);
      SegmentsNest(cells, n, cells[n - 1].level);
      SegmentsGood(cells, n - 1);
      if 1 < cell.level <= |p.stack| + 1 {
        SegmentsNest(cells, n, cell.level - 1);
        assert all[..n] == cells;
        NearestLocal(all, n, n, cell.level - 1);
      }
    }
  }

  lemma {:induction false} StructuralInit(cells: seq<Cell>, cell: Cell)
    ensures Structural(cells + [cell]) ==> Structural(cells)
  {
    hide Segments, Distinct, GoodLevels, CellsGood;
    AllSegmentsSnoc(cells, cell);
    DistinctSnoc(AllSegments(cells), Segments(cells + [cell], |cells|));
    GoodLevelsSnoc(cells, cell);
    CellsGoodSnoc(cells, cell);
  }

  lemma {:induction false} AcceptedPrefix(cells: seq<Cell>)
    ensures StepAll(EMPTY, cells).Ok? <==> Structural(cells)
    ensures StepAll(EMPTY, cells).Ok? ==> Holds(cells, StepAll(EMPTY, cells).value)
  {
    hide Step, Segments;
    if cells == [] {
      assert StepAll(EMPTY, cells) == Ok(EMPTY);
      assert PathsOf([]) == {};
    } else {
      var n := |cells| - 1;
      var init := cells[..n];
      AcceptedPrefix(init);
      assert cells == init + [cells[n]];
      StepAllSnoc(EMPTY, init, cells[n]);
      StructuralInit(init, cells[n]);
      if Structural(init) {
        HoldsStep(init, cells[n], StepAll(EMPTY, init).value);
      }
    }
  }

  /** MAIN: a row sequence is accepted structurally exactly when the first level is 1, every
      level is at most the previous one plus 1, all names are non-empty after
      normalisation, all percentages are numbers and all paths are distinct; and then the
      nodes are the rows with the paths of their nearest ancestors. */
  lemma {:induction false} AcceptedIffStructural(rows: seq<Row>)
    ensures ParseRows(rows).Ok? <==> Structural(ReadRows(rows))
    ensures ParseRows(rows).Ok? ==>
              ParseRows(rows).value == NodesOf(ReadRows(rows), AllSegments(ReadRows(rows)))
  {
    hide Structural, ReadRow;
    AcceptedPrefix(ReadRows(rows));
  }

  /** MAIN: an accepted node's path has exactly as many segments as its level, and its
      parent's path is the path of an earlier node. */
  lemma {:induction false} AcceptedPaths(rows: seq<Row>, i: nat) returns (segments: seq<string>, parent: nat)
    requires ParseRows(rows).Ok? && i < |rows|
    ensures i < |ParseRows(rows).value|
    ensures var node := ParseRows(rows).value[i];
            && Split(node.path, '.') == segments && |segments| == node.level
            && (node.level > 1 ==>
                  parent < i && ParseRows(rows).value[parent].path == Join(segments[..node.level - 1], '.'))
  {
    hide ReadRows, Join, Split, ParseRows, Segments;
    var cells := ReadRows(rows);
    AcceptedIffStructural(rows);
    segments := Segments(cells, i);
    OwnSegments(cells, i);
    SplitOfGood(segments);
    parent := 0;
    if cells[i].level > 1 {
      parent := ParentRow(cells, i);
    }
  }

  lemma {:induction false} SplitOfGood(segments: seq<string>)
    requires GoodSegments(segments)
    ensures Split(Join(segments, '.'), '.') == segments
  {
    SplitJoin(segments, '.');
  }

  lemma {:induction false} OwnSegments(cells: seq<Cell>, i: nat)
    requires Structural(cells) && i < |cells|
    ensures |Segments(cells, i)| == cells[i].level && GoodSegments(Segments(cells, i))
  {
    assert LevelFits(cells, i);
    SegmentsNest(cells, i + 1, cells[i].level);
    SegmentsGood(cells, i);
  }

  /** Every row below level 1 has an earlier row holding its parent path. */
  lemma {:induction false} ParentRow(cells: seq<Cell>, i: nat) returns (j: nat)
    requires Structural(cells) && i < |cells| && cells[i].level > 1
    ensures |Segments(cells, i)| == cells[i].level
    ensures j < i && Segments(cells, j) == Segments(cells, i)[..cells[i].level - 1]
  {
    assert LevelFits(cells, i);
    SegmentsNest(cells, i + 1, cells[i].level);
    SegmentsNest(cells, i, cells[i].level - 1);
    j := NearestRow(cells, i, cells[i].level - 1);
  }

  lemma {:induction false} NearestRow(cells: seq<Cell>, n: nat, level: nat) returns (j: nat)
    requires n <= |cells| && Nearest(cells, n, level) != []
    ensures j < n && Segments(cells, j) == Nearest(cells, n, level)
  {
    if cells[n - 1].level == level {
      j := n - 1;
    } else {
      j := NearestRow(cells, n - 1, level);
    }
  }
}
