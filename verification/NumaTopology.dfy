/** From a cpuset text to a NUMA node (sysfs/cpuinfo.go). */
module NumaTopology {
  import opened Text
  import Cpuset

  function Wrap32(x: int): (r: int)
    ensures -0x8000_0000 <= r < 0x8000_0000 && (x - r) % 0x1_0000_0000 == 0
  {
    (x + 0x8000_0000) % 0x1_0000_0000 - 0x8000_0000
  }

  /** The CPUs of one comma-separated part; a part that does not parse contributes none. */
  function PartCpus(part: string): seq<int> {
    if '-' !in part then
      var cpu := ParseInt(part, Decimal);
      if cpu.None? then [] else [cpu.value]
    else
      var bounds := Split(part, '-');
      if |bounds| < 2 then []
      else
        var start, end := ParseInt(bounds[0], Decimal), ParseInt(bounds[1], Decimal);
        if start.None? || end.None? then [] else Cpuset.Range(start.value, end.value)
  }

  function PartsCpus(parts: seq<string>): seq<int> {
    if parts == [] then [] else PartsCpus(parts[..|parts| - 1]) + PartCpus(parts[|parts| - 1])
  }

  function ParseCpusetCpus(cpuset: string): seq<int> {
    PartsCpus(Split(cpuset, ','))
  }

  /** What a part says: one CPU, or all CPUs from the first bound to the second; anything
      behind a second minus sign is not looked at. */
  function PartSays(part: string): seq<int> {
    match Cut(part, '-')
    case None => if Spelled(part).None? then [] else [Spelled(part).value]
    case Some((left, right)) =>
      var second := match Cut(right, '-') case None => right case Some((middle, _)) => middle;
      if Spelled(left).None? || Spelled(second).None? then []
      else Cpuset.Consecutive(Spelled(left).value, Spelled(second).value)
  }

  lemma {:induction false} PartMeaning(part: string)
    ensures PartCpus(part) == PartSays(part)
  {
    hide ParseInt, Spelled, Split, Cut, Cpuset.Range, Cpuset.Consecutive;
    CutMeaning(part, '-');
    if '-' !in part {
      ParseMeaning(part);
    } else {
      var (left, right) := Cut(part, '-').value;
      SplitPrefix(left, right, '-');
      CutMeaning(right, '-');
      if '-' !in right {
        SplitPrefix(right, "", '-');
      } else {
        SplitPrefix(Cut(right, '-').value.0, Cut(right, '-').value.1, '-');
      }
      var second := Split(right, '-')[0];
      assert Split(part, '-')[0] == left && Split(part, '-')[1] == second;
      ParseMeaning(left);
      ParseMeaning(second);
      if Spelled(left).Some? && Spelled(second).Some? {
        Cpuset.RangeIsConsecutive(Spelled(left).value, Spelled(second).value);
      }
    }
  }

  ghost predicate SomePartSays(parts: seq<string>, c: int) {
    exists i :: 0 <= i < |parts| && c in PartSays(parts[i])
  }

  /** MAIN: a text lists exactly the CPUs one of its comma-separated parts says. */
  lemma {:induction false} TextMeaning(cpuset: string, c: int)
    ensures c in ParseCpusetCpus(cpuset) <==> SomePartSays(Split(cpuset, ','), c)
  {
    PartsMeaning(Split(cpuset, ','), c);
  }

  lemma {:induction false} PartsMeaning(parts: seq<string>, c: int)
    ensures c in PartsCpus(parts) <==> SomePartSays(parts, c)
  {
    hide PartCpus, PartSays;
    if parts != [] {
      var n := |parts| - 1;
      PartsMeaning(parts[..n], c);
      PartMeaning(parts[n]);
      if SomePartSays(parts[..n], c) {
        var i :| 0 <= i < n && c in PartSays(parts[..n][i]);
        assert c in PartSays(parts[i]);
      }
      if SomePartSays(parts, c) {
        var i :| 0 <= i <= n && c in PartSays(parts[i]);
        assert i < n ==> c in PartSays(parts[..n][i]);
      }
    }
  }

  method ParseCpusetCpusLoop(cpuset: string) returns (cpus: seq<int>)
    ensures cpus == ParseCpusetCpus(cpuset)
  {
    var parts := Split(cpuset, ',');
    cpus := [];
    for i := 0 to |parts|
      invariant cpus == PartsCpus(parts[..i])
    {
      assert parts[..i + 1][..i] == parts[..i];
      var one := ParsePart(parts[i]);
      cpus := cpus + one;
    }
    assert parts[..|parts|] == parts;
  }

  method ParsePart(part: string) returns (cpus: seq<int>)
    ensures cpus == PartCpus(part)
  {
    if '-' !in part {
      var cpu := ParseInt(part, Decimal);
      return if cpu.None? then [] else [cpu.value];
    }
    var bounds := Split(part, '-');
    if |bounds| < 2 {
      return [];
    }
    var start, end := ParseInt(bounds[0], Decimal), ParseInt(bounds[1], Decimal);
    if start.None? || end.None? {
      return [];
    }
    cpus := Cpuset.Expand(start.value, end.value);
  }

  /** The smallest and largest element, or -1 and -1. */
  ghost predicate MinMax(cpus: seq<int>, min: int, max: int) {
    if cpus == [] then min == -1 && max == -1
    else min in cpus && max in cpus && forall c | c in cpus :: min <= c <= max
  }

  method FindMinMaxCpus(cpus: seq<int>) returns (min: int, max: int)
    ensures MinMax(cpus, min, max)
  {
    if cpus == [] {
      return -1, -1;
    }
    min, max := cpus[0], cpus[0];
    for i := 0 to |cpus|
      invariant min in cpus && max in cpus
      invariant min <= cpus[0] <= max
      invariant forall j :: 0 <= j < i ==> min <= cpus[j] <= max
    {
      if cpus[i] < min {
        min := cpus[i];
      }
      if cpus[i] > max {
        max := cpus[i];
      }
    }
  }

  /** Both ends, cut to 32 bits, are CPUs of the node. */
  predicate InNode(node: seq<int>, min: int, max: int) {
    Wrap32(min) in node && Wrap32(max) in node
  }

  method AreCpusInNode(node: seq<int>, min: int, max: int) returns (both: bool)
    ensures both == InNode(node, min, max)
  {
    var foundMin, foundMax := false, false;
    for i := 0 to |node|
      invariant foundMin == (Wrap32(min) in node[..i])
      invariant foundMax == (Wrap32(max) in node[..i])
      invariant !(foundMin && foundMax)
    {
      if node[i] == Wrap32(min) {
        foundMin := true;
      }
      if node[i] == Wrap32(max) {
        foundMax := true;
      }
      if foundMin && foundMax {
        return true;
      }
    }
    return false;
  }

  /** k is an answer GetNumaNodeFromCpuSet may give: nodes are visited in any order. */
  ghost predicate Answers(nodes: seq<seq<int>>, cpuset: string, k: int) {
    exists min, max ::
      MinMax(ParseCpusetCpus(cpuset), min, max) &&
      if ParseCpusetCpus(cpuset) == [] then k == -1
      else if k == -1 then forall i :: 0 <= i < |nodes| ==> !InNode(nodes[i], min, max)
      else 0 <= k < |nodes| && InNode(nodes[k], min, max)
  }

  method GetNumaNodeFromCpuSet(nodes: seq<seq<int>>, cpuset: string) returns (k: int)
    ensures Answers(nodes, cpuset, k)
  {
    var cpus := ParseCpusetCpusLoop(cpuset);
    var min, max := FindMinMaxCpus(cpus);
    if cpus == [] {
      return -1;
    }
    for i := 0 to |nodes|
      invariant forall j :: 0 <= j < i ==> !InNode(nodes[j], min, max)
    {
      var both := AreCpusInNode(nodes[i], min, max);
      if both {
        return i;
      }
    }
    return -1;
  }

  // ---------- the layout the policy relies on ----------

  /** Node k owns exactly the CPUs k * size up to (k + 1) * size - 1, all 32-bit ids. */
  ghost predicate Layout(nodes: seq<seq<int>>, size: nat) {
    && size >= 1 && |nodes| * size <= 0x8000_0000
    && forall k :: 0 <= k < |nodes| ==> OwnsBlock(nodes[k], k, size)
  }

  ghost predicate OwnsBlock(node: seq<int>, k: nat, size: nat) {
    forall c :: c in node <==> k * size <= c < k * size + size
  }

  /** The range text the policy prints for node k. */
  function BlockText(k: nat, size: nat): string
    requires size >= 1
  {
    FormatInt(k * size) + ['-'] + FormatInt(k * size + size - 1)
  }

  lemma {:induction false} FormatIsDigits(n: nat)
    ensures '-' !in FormatInt(n) && ',' !in FormatInt(n)
  {
  }

  lemma {:induction false} RangeTextParses(start: nat, end: nat)
    requires start <= MAX_INT64 && end <= MAX_INT64
    ensures ParseCpusetCpus(FormatInt(start) + ['-'] + FormatInt(end)) == Cpuset.Range(start, end)
  {
    hide FormatInt, ParseInt;
    var a, b := FormatInt(start), FormatInt(end);
    var text := a + ['-'] + b;
    FormatIsDigits(start);
    FormatIsDigits(end);
    SplitPrefix(text, "", ',');
    SplitPrefix(a, b, '-');
    SplitPrefix(b, "", '-');
    ParseFormatInt(start);
    ParseFormatInt(end);
    assert '-' in text;
    assert PartsCpus([text]) == PartsCpus([]) + PartCpus(text);
  }

  lemma {:induction false} BlockEnds(cpus: seq<int>, lo: int, hi: int)
    requires lo <= hi && forall c :: c in cpus <==> lo <= c <= hi
    ensures cpus != []
    ensures forall min, max :: MinMax(cpus, min, max) <==> min == lo && max == hi
  {
    assert lo in cpus && hi in cpus;
  }

  lemma {:induction false} OnlyOwner(nodes: seq<seq<int>>, size: nat, k: nat, i: nat)
    requires Layout(nodes, size) && k < |nodes| && i < |nodes|
    ensures InNode(nodes[i], k * size, k * size + size - 1) <==> i == k
  {
    BlockFits(|nodes|, k, size);
    assert OwnsBlock(nodes[i], i, size) && OwnsBlock(nodes[k], k, size);
    if InNode(nodes[i], k * size, k * size + size - 1) {
      BlocksDisjoint(i, k, size);
    }
  }

  /** MAIN: the printed range reads back as exactly node k's CPUs, and every order of
      visiting the nodes finds node k and no other. */
  lemma {:induction false} BlockTextNamesNode(nodes: seq<seq<int>>, size: nat, k: nat, answer: int)
    requires Layout(nodes, size) && k < |nodes|
    ensures forall c :: c in ParseCpusetCpus(BlockText(k, size)) <==> c in nodes[k]
    ensures Answers(nodes, BlockText(k, size), answer) <==> answer == k
  {
    hide ParseCpusetCpus, MinMax, InNode;
    var lo, hi := k * size, k * size + size - 1;
    BlockFits(|nodes|, k, size);
    RangeTextParses(lo, hi);
    var cpus := ParseCpusetCpus(BlockText(k, size));
    assert OwnsBlock(nodes[k], k, size);
    BlockEnds(cpus, lo, hi);
    forall i: nat | i < |nodes| ensures InNode(nodes[i], lo, hi) <==> i == k {
      OnlyOwner(nodes, size, k, i);
    }
    assert MinMax(cpus, lo, hi);
  }

  lemma {:induction false} BlockFits(n: nat, k: nat, size: nat)
    requires k < n && n * size <= 0x8000_0000
    ensures 0 <= k * size && k * size + size <= 0x8000_0000
  {
    assert (k + 1) * size <= n * size;
  }

  lemma {:induction false} BlocksDisjoint(i: nat, k: nat, size: nat)
    requires size >= 1 && i * size <= k * size < i * size + size
    ensures i == k
  {
    assert k * size - i * size == (k - i) * size;
    MultipleIsLarge(k - i, size);
  }

  lemma {:induction false} MultipleIsLarge(d: int, size: nat)
    requires size >= 1
    ensures d >= 1 ==> d * size >= size
    ensures d <= -1 ==> d * size <= 0 - size
  {
    if d >= 1 {
      assert (d - 1) * size >= 0;
    } else if d <= -1 {
      assert (d + 1) * size <= 0;
    }
  }

  /** An unpinned container, whose cpuset text is empty, belongs to no node. */
  lemma {:induction false} NoCpusetNoNode(nodes: seq<seq<int>>, answer: int)
    ensures Answers(nodes, "", answer) <==> answer == -1
  {
    assert PartCpus("") == [];
    assert PartsCpus([""]) == PartsCpus([]) + PartCpus("");
    assert ParseCpusetCpus("") == [];
    assert MinMax([], -1, -1);
  }
}
