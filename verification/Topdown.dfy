/** Rebuilding the TopDown forest from indented rows (devkit_topdown_parser.go). */
module Topdown {
  import opened Text
  import opened Sets
  import opened TopdownNames

  /** A matched table row: the drawn name, the percentage (None when it is no float64),
      and the preferred event, "" for "--". */
  datatype Row = Row(namePart: string, value: Option<real>, preferred: string)

  /** A row after its name part has been read. */
  datatype Cell = Cell(name: string, level: nat, value: Option<real>, preferred: string)

  function ReadRow(row: Row): (cell: Cell)
    ensures cell.level >= 1
  {
    var (rawName, level) := NameAndLevel(row.namePart);
    Cell(NormalizeName(rawName), level, row.value, row.preferred)
  }

  function ReadRows(rows: seq<Row>): (cells: seq<Cell>)
    ensures |cells| == |rows|
    ensures forall i :: 0 <= i < |rows| ==> cells[i] == ReadRow(rows[i]) && cells[i].level >= 1
  {
    seq(|rows|, i requires 0 <= i < |rows| => ReadRow(rows[i]))
  }

  datatype Node = Node(name: string, path: string, level: nat, preferred: string, value: real)

  datatype Error =
    | EmptyName | SeparatorInName | LevelJump | DuplicatePath | BadPercentage | NoNodes
    | IncompleteTopLevel | SumOutOfRange | IncompleteBackend

  datatype Result<+T> = Ok(value: T) | Err(error: Error)

  /** The parser's variables: open segments, nodes so far, paths so far. */
  datatype Progress = Progress(stack: seq<string>, nodes: seq<Node>, paths: set<string>)

  const EMPTY := Progress([], [], {})

  function Step(p: Progress, cell: Cell): Result<Progress> {
    if cell.name == "" then Err(EmptyName)
    else if '.' in cell.name then Err(SeparatorInName)
    else if |p.stack| < cell.level - 1 || cell.level == 0 then Err(LevelJump)
    else
      var segments := p.stack[..cell.level - 1] + [cell.name];
      var path := Join(segments, '.');
      if path in p.paths then Err(DuplicatePath)
      else if cell.value.None? then Err(BadPercentage)
      else
        var node := Node(cell.name, path, cell.level, cell.preferred, cell.value.value);
        Ok(Progress(segments, p.nodes + [node], p.paths + {path}))
  }

  function StepAll(p: Progress, cells: seq<Cell>): Result<Progress>
    decreases cells
  {
    if cells == [] then Ok(p)
    else
      var next := Step(p, cells[0]);
      if next.Err? then next else StepAll(next.value, cells[1..])
  }

  lemma {:induction false} StepAllAppend(p: Progress, a: seq<Cell>, b: seq<Cell>)
    ensures var first := StepAll(p, a);
            StepAll(p, a + b) == if first.Err? then first else StepAll(first.value, b)
    decreases a
  {
    hide Step;
    if a == [] {
      assert a + b == b;
    } else {
      assert (a + b)[0] == a[0] && (a + b)[1..] == a[1..] + b;
      var next := Step(p, a[0]);
      if next.Ok? {
        StepAllAppend(next.value, a[1..], b);
      }
    }
  }

  lemma {:induction false} StepAllSnoc(p: Progress, cells: seq<Cell>, cell: Cell)
    ensures var first := StepAll(p, cells);
            StepAll(p, cells + [cell]) == if first.Err? then first else Step(first.value, cell)
  {
    hide Step;
    StepAllAppend(p, cells, [cell]);
    assert [cell][1..] == [];
  }

  // ---------- validation of the finished table ----------

  const TOP_LEVEL: set<string> := {"bad_speculation", "frontend_bound", "retiring", "backend_bound"}

  function TopNames(nodes: seq<Node>): set<string> {
    set i | 0 <= i < |nodes| && nodes[i].level == 1 :: nodes[i].name
  }

  function TopTotal(nodes: seq<Node>): real {
    if nodes == [] then 0.0
    else
      var last := nodes[|nodes| - 1];
      TopTotal(nodes[..|nodes| - 1]) + if last.level == 1 then last.value else 0.0
  }

  function Validate(nodes: seq<Node>): Option<Error> {
    if TopNames(nodes) != TOP_LEVEL then Some(IncompleteTopLevel)
    else if TopTotal(nodes) < 99.5 || TopTotal(nodes) > 100.5 then Some(SumOutOfRange)
    else if !(exists i :: 0 <= i < |nodes| && nodes[i].path == "backend_bound.core_bound")
         || !(exists i :: 0 <= i < |nodes| && nodes[i].path == "backend_bound.memory_bound")
    then Some(IncompleteBackend)
    else None
  }

  function ParseRows(rows: seq<Row>): Result<seq<Node>> {
    var p := StepAll(EMPTY, ReadRows(rows));
    if p.Err? then Err(p.error) else Ok(p.value.nodes)
  }

  function ParseTree(rows: seq<Row>): Result<seq<Node>> {
    var parsed := ParseRows(rows);
    if parsed.Err? then parsed
    else if parsed.value == [] then Err(NoNodes)
    else if Validate(parsed.value).Some? then Err(Validate(parsed.value).value)
    else parsed
  }

  // ---------- the code's own loops ----------

  lemma {:induction false} StepOneMore(cells: seq<Cell>, i: nat)
    requires i < |cells| && StepAll(EMPTY, cells[..i]).Ok?
    ensures StepAll(EMPTY, cells[..i + 1]) == Step(StepAll(EMPTY, cells[..i]).value, cells[i])
    ensures StepAll(EMPTY, cells[..i + 1]).Err? ==> StepAll(EMPTY, cells) == StepAll(EMPTY, cells[..i + 1])
  {
    hide Step;
    assert cells[..i + 1] == cells[..i] + [cells[i]] && cells == cells[..i + 1] + cells[i + 1..];
    StepAllSnoc(EMPTY, cells[..i], cells[i]);
    StepAllAppend(EMPTY, cells[..i + 1], cells[i + 1..]);
  }

  /** The loop body: pop the stack to the parent, check the path, append the node. */
  method HandleRow(stack: seq<string>, nodes: seq<Node>, paths: set<string>, cell: Cell) returns (r: Result<Progress>)
    requires cell.level >= 1
    ensures r == Step(Progress(stack, nodes, paths), cell)
  {
    if cell.name == "" {
      return Err(EmptyName);
    }
    if '.' in cell.name {
      return Err(SeparatorInName);
    }
    if |stack| < cell.level - 1 {
      return Err(LevelJump);
    }
    var parents := stack[..cell.level - 1];
    var path := Join(parents + [cell.name], '.');
    if path in paths {
      return Err(DuplicatePath);
    }
    if cell.value.None? {
      return Err(BadPercentage);
    }
    var node := Node(cell.name, path, cell.level, cell.preferred, cell.value.value);
    return Ok(Progress(parents + [cell.name], nodes + [node], paths + {path}));
  }

  method ParseTopdownTree(rows: seq<Row>) returns (r: Result<seq<Node>>)
    ensures r == ParseTree(rows)
  {
    hide Step;
    ghost var cells := ReadRows(rows);
    var stack: seq<string> := [];
    var nodes: seq<Node> := [];
    var paths: set<string> := {};
    for i := 0 to |rows|
      invariant StepAll(EMPTY, cells[..i]) == Ok(Progress(stack, nodes, paths))
    {
      StepOneMore(cells, i);
      var step := HandleRow(stack, nodes, paths, ReadRow(rows[i]));
      if step.Err? {
        return Err(step.error);
      }
      stack, nodes, paths := step.value.stack, step.value.nodes, step.value.paths;
    }
    assert cells[..|rows|] == cells;
    if nodes == [] {
      return Err(NoNodes);
    }
    var problem := ValidateTopdownTree(nodes);
    if problem.Some? {
      return Err(problem.value);
    }
    return Ok(nodes);
  }

  method SumTopLevel(nodes: seq<Node>) returns (topNames: set<string>, topTotal: real)
    ensures topNames == TopNames(nodes) && topTotal == TopTotal(nodes)
  {
    hide TopNames, TopTotal;
    topNames, topTotal := {}, 0.0;
    NoTopNames();
    for i := 0 to |nodes|
      invariant topNames == TopNames(nodes[..i])
      invariant topTotal == TopTotal(nodes[..i])
    {
      assert nodes[..i + 1] == nodes[..i] + [nodes[i]];
      TopNamesSnoc(nodes[..i], nodes[i]);
      if nodes[i].level == 1 {
        topNames := topNames + {nodes[i].name};
        topTotal := topTotal + nodes[i].value;
      }
    }
    assert nodes[..|nodes|] == nodes;
  }

  method ValidateTopdownTree(nodes: seq<Node>) returns (problem: Option<Error>)
    ensures problem == Validate(nodes)
  {
    var topNames, topTotal := SumTopLevel(nodes);
    if |topNames| != |TOP_LEVEL| {
      return Some(IncompleteTopLevel);
    }
    if exists name :: name in TOP_LEVEL && name !in topNames {
      return Some(IncompleteTopLevel);
    }
    SubsetOfSameSize(TOP_LEVEL, topNames);
    if topTotal < 99.5 || topTotal > 100.5 {
      return Some(SumOutOfRange);
    }
    var paths: set<string> := {};
    for i := 0 to |nodes|
      invariant forall p :: p in paths <==> exists j :: 0 <= j < i && nodes[j].path == p
    {
      paths := paths + {nodes[i].path};
    }
    if "backend_bound.core_bound" !in paths || "backend_bound.memory_bound" !in paths {
      return Some(IncompleteBackend);
    }
    return None;
  }

  lemma {:induction false} NoTopNames()
    ensures TopNames([]) == {} && TopTotal([]) == 0.0
  {
  }

  lemma {:induction false} TopNamesSnoc(nodes: seq<Node>, node: Node)
    ensures TopNames(nodes + [node]) == TopNames(nodes) + if node.level == 1 then {node.name} else {}
    ensures TopTotal(nodes + [node]) == TopTotal(nodes) + if node.level == 1 then node.value else 0.0
  {
    var all := nodes + [node];
    assert all[..|nodes|] == nodes;
    forall x | x in TopNames(nodes) + (if node.level == 1 then {node.name} else {}) ensures x in TopNames(all) {
      if x in TopNames(nodes) {
        var i :| 0 <= i < |nodes| && nodes[i].level == 1 && nodes[i].name == x;
        assert all[i] == nodes[i];
      } else {
        assert all[|nodes|] == node;
      }
    }
  }

  lemma {:induction false} SubsetOfSameSize(a: set<string>, b: set<string>)
    requires a <= b && |a| == |b|
    ensures a == b
  {
    if a != b {
      CardinalityStrict(a, b);
    }
  }
}
