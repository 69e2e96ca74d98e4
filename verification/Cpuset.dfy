/** The cpuset texts of the P-core binding agent (plugin/agent.go) and the sibling pairs
    they name (topology/siblings.go). */
module Cpuset {
  import opened Text
  import opened Sorting

  predicate Less(a: int, b: int) { a < b }

  predicate IsCpu(c: int) { 0 <= c <= MAX_INT64 }

  predicate AllCpus(cpus: seq<int>) {
    forall i :: 0 <= i < |cpus| ==> IsCpu(cpus[i])
  }

  /** Every CPU from start to end; empty when start is the larger. */
  function Range(start: int, end: int): (r: seq<int>)
    ensures forall c :: c in r <==> start <= c <= end
    ensures |r| == if start <= end then end - start + 1 else 0
    decreases end - start
  {
    if start > end then [] else Range(start, end - 1) + [end]
  }

  /** strconv.Atoi of a trimmed range bound. */
  function Bound(s: string): (r: Option<int>)
    ensures r.Some? && '-' !in s ==> IsCpu(r.value)
  {
    ParseInt(TrimSpace(s), Decimal)
  }

  function RangeCpus(bounds: seq<string>): (r: Option<seq<int>>)
    requires forall i :: 0 <= i < |bounds| ==> '-' !in bounds[i]
    ensures r.Some? ==> AllCpus(r.value)
  {
    if |bounds| != 2 then None
    else
      var start, end := Bound(bounds[0]), Bound(bounds[1]);
      if start.None? || end.None? then None
      else
        var cpus := Range(start.value, end.value);
        assert forall i :: 0 <= i < |cpus| ==> cpus[i] in cpus;
        Some(cpus)
  }

  /** The CPUs of one item: nothing, one number, or a range.  A minus sign always makes
      the item a range, so no CPU is ever negative. */
  function ItemCpus(item: string): (r: Option<seq<int>>)
    ensures r.Some? ==> AllCpus(r.value)
  {
    if item == "" then Some([])
    else if '-' in item then RangeCpus(Split(item, '-'))
    else
      var cpu := ParseInt(item, Decimal);
      if cpu.None? then None else Some([cpu.value])
  }

  /** Collect the CPUs of all items in order, unless one of them failed. */
  function Gather(results: seq<Option<seq<int>>>): (r: Option<seq<int>>)
    requires forall i :: 0 <= i < |results| && results[i].Some? ==> AllCpus(results[i].value)
    ensures r.Some? ==> AllCpus(r.value)
    ensures r.None? <==> exists i :: 0 <= i < |results| && results[i].None?
  {
    if results == [] then Some([])
    else
      var n := |results| - 1;
      var init := Gather(results[..n]);
      if init.None? || results[n].None? then None
      else
        AllCpusAppend(init.value, results[n].value);
        Some(init.value + results[n].value)
  }

  lemma {:induction false} AllCpusAppend(a: seq<int>, b: seq<int>)
    requires AllCpus(a) && AllCpus(b)
    ensures AllCpus(a + b)
  {
  }

  function ParseItems(items: seq<string>): (r: Option<seq<int>>)
    ensures r.Some? ==> AllCpus(r.value)
  {
    Gather(EachItem(items))
  }

  function EachItem(items: seq<string>): (r: seq<Option<seq<int>>>)
    ensures |r| == |items|
    ensures forall i :: 0 <= i < |items| ==> r[i] == ItemCpus(TrimSpace(items[i]))
    ensures forall i :: 0 <= i < |items| && r[i].Some? ==> AllCpus(r[i].value)
  {
    seq(|items|, i requires 0 <= i < |items| => ItemCpus(TrimSpace(items[i])))
  }

  /** parseCpuset: None stands for its error. */
  function Parse(raw: string): (r: Option<seq<int>>)
    ensures r.Some? ==> AllCpus(r.value)
  {
    ParseTrimmed(TrimSpace(raw))
  }

  function ParseTrimmed(raw: string): (r: Option<seq<int>>)
    ensures r.Some? ==> AllCpus(r.value)
  {
    if raw == "" then Some([]) else ParseItems(Split(raw, ','))
  }

  function PrintAll(cpus: seq<int>): (r: seq<string>)
    ensures |r| == |cpus|
    ensures forall i :: 0 <= i < |cpus| ==> r[i] == FormatInt(cpus[i])
  {
    seq(|cpus|, i requires 0 <= i < |cpus| => FormatInt(cpus[i]))
  }

  /** normalizeCpuset: the sorted list of CPUs, repetitions kept; a text that does not
      parse stands for itself. */
  function NormalForm(raw: string): string {
    NormalOfTrimmed(TrimSpace(raw))
  }

  function NormalOfTrimmed(raw: string): string {
    var cpus := ParseTrimmed(raw);
    if cpus.None? then raw else Join(PrintAll(Sort(Less, cpus.value)), ',')
  }

  lemma {:induction false} NormalFormOf(raw: string, cpus: seq<int>)
    requires Parse(raw) == Some(cpus)
    ensures NormalForm(raw) == Join(PrintAll(Sort(Less, cpus)), ',')
  {
  }

  lemma {:induction false} NormalFormTrims(raw: string)
    ensures NormalForm(TrimSpace(raw)) == NormalForm(raw)
    ensures Parse(TrimSpace(raw)) == Parse(raw)
  {
    TrimSpaceId(TrimSpace(raw));
  }

  // ---------- reading back the normal form ----------

  lemma {:induction false} PrintedItem(c: int)
    requires IsCpu(c)
    ensures var s := FormatInt(c);
            ItemCpus(TrimSpace(s)) == Some([c]) && ',' !in s && s != "" && NoSpace(s)
  {
    ParseFormatInt(c);
    TrimSpaceId(FormatInt(c));
  }

  lemma {:induction false} GatherSingles(cpus: seq<int>)
    requires AllCpus(cpus)
    ensures Gather(seq(|cpus|, i requires 0 <= i < |cpus| => Some([cpus[i]]))) == Some(cpus)
  {
    if cpus != [] {
      var n := |cpus| - 1;
      GatherSingles(cpus[..n]);
      var all := seq(|cpus|, i requires 0 <= i < |cpus| => Some([cpus[i]]));
      assert all[..n] == seq(n, i requires 0 <= i < n => Some([cpus[..n][i]]));
      assert cpus == cpus[..n] + [cpus[n]];
    }
  }

  lemma {:induction false} ParsePrinted(cpus: seq<int>)
    requires AllCpus(cpus)
    ensures ParseItems(PrintAll(cpus)) == Some(cpus)
  {
    hide ItemCpus, TrimSpace, PrintAll, FormatInt, Gather, IsCpu;
    forall i | 0 <= i < |cpus| ensures ItemCpus(TrimSpace(PrintAll(cpus)[i])) == Some([cpus[i]]) {
      PrintedItem(cpus[i]);
    }
    assert EachItem(PrintAll(cpus)) == seq(|cpus|, i requires 0 <= i < |cpus| => Some([cpus[i]]));
    GatherSingles(cpus);
  }

  /** A printed CPU list reads back as the same list. */
  lemma {:induction false} PrintRoundTrip(cpus: seq<int>)
    requires AllCpus(cpus)
    ensures Parse(Join(PrintAll(cpus), ',')) == Some(cpus)
  {
    if cpus != [] {
      var parts := PrintAll(cpus);
      forall i | 0 <= i < |parts| ensures ',' !in parts[i] && parts[i] != "" && NoSpace(parts[i]) {
        PrintedItem(cpus[i]);
      }
      JoinEnds(parts, ',');
      TrimSpaceId(Join(parts, ','));
      SplitJoin(parts, ',');
      ParsePrinted(cpus);
    }
  }

  lemma {:induction false} SortedCpus(cpus: seq<int>)
    requires AllCpus(cpus)
    ensures AllCpus(Sort(Less, cpus)) && multiset(Sort(Less, cpus)) == multiset(cpus)
  {
    SortMultiset(Less, cpus);
    SameElements(Sort(Less, cpus), cpus);
    forall i | 0 <= i < |cpus| ensures IsCpu(Sort(Less, cpus)[i]) {
      var j :| 0 <= j < |cpus| && cpus[j] == Sort(Less, cpus)[i];
    }
  }

  /** The normal form of a readable text reads back as its CPUs in ascending order. */
  lemma {:induction false} NormalFormParses(raw: string)
    requires Parse(raw).Some?
    ensures Parse(NormalForm(raw)) == Some(Sort(Less, Parse(raw).value))
    ensures multiset(Parse(NormalForm(raw)).value) == multiset(Parse(raw).value)
  {
    SortedCpus(Parse(raw).value);
    PrintRoundTrip(Sort(Less, Parse(raw).value));
  }

  lemma {:induction false} SameSorted(a: seq<int>, b: seq<int>)
    ensures multiset(a) == multiset(b) <==> Sort(Less, a) == Sort(Less, b)
  {
    SortMultiset(Less, a);
    SortMultiset(Less, b);
    if multiset(a) == multiset(b) {
      SortSorted(Less, a);
      SortUnique(Less, b, Sort(Less, a));
    }
  }

  /** MAIN: two readable texts have the same normal form exactly when they list the same
      CPUs the same number of times. */
  lemma {:induction false} NormalFormIffSameCpus(a: string, b: string)
    requires Parse(a).Some? && Parse(b).Some?
    ensures NormalForm(a) == NormalForm(b) <==> multiset(Parse(a).value) == multiset(Parse(b).value)
  {
    NormalFormParses(a);
    NormalFormParses(b);
    SameSorted(Parse(a).value, Parse(b).value);
  }

  /** An unreadable text never has the normal form of a readable one. */
  lemma {:induction false} UnreadableDiffers(a: string, b: string)
    requires Parse(a).None? && Parse(b).Some?
    ensures NormalForm(a) != NormalForm(b)
  {
    NormalFormTrims(a);
    NormalFormParses(b);
  }

  // ---------- what a text lists ----------

  /** a, a + 1, ..., b; nothing when a is the larger. */
  function Consecutive(a: int, b: int): seq<int> {
    seq(if a <= b then b - a + 1 else 0, i => a + i)
  }

  /** What an item says: nothing, one CPU, or all CPUs from one to another, with blanks
      allowed around the minus sign; None when it says none of these. */
  function ItemSays(item: string): Option<seq<int>> {
    if item == "" then Some([])
    else
      match Cut(item, '-')
      case None => if Spelled(item).None? then None else Some([Spelled(item).value])
      case Some((left, right)) =>
        var a, b := Spelled(TrimSpace(left)), Spelled(TrimSpace(right));
        if '-' in right || a.None? || b.None? then None else Some(Consecutive(a.value, b.value))
  }

  lemma {:induction false} RangeIsConsecutive(a: int, b: int)
    ensures Range(a, b) == Consecutive(a, b)
    decreases b - a
  {
    if a <= b {
      RangeIsConsecutive(a, b - 1);
    }
  }

  lemma {:induction false} ItemMeaning(item: string)
    ensures ItemCpus(item) == ItemSays(item)
  {
    hide ParseInt, Spelled, TrimSpace, Split, Cut, Range, Consecutive;
    CutMeaning(item, '-');
    if '-' !in item {
      ParseMeaning(item);
    } else {
      var (left, right) := Cut(item, '-').value;
      SplitPrefix(left, right, '-');
      assert Split(item, '-') == [left] + Split(right, '-');
      if '-' !in right {
        SplitPrefix(right, "", '-');
        ParseMeaning(TrimSpace(left));
        ParseMeaning(TrimSpace(right));
        if Bound(left).Some? && Bound(right).Some? {
          RangeIsConsecutive(Bound(left).value, Bound(right).value);
        }
      } else {
        SplitCount(right, '-');
        CountPositive(right, '-');
      }
    }
  }

  lemma {:induction false} CountPositive(s: string, c: char)
    requires c in s
    ensures Count(s, c) >= 1
  {
    if s[0] != c {
      CountPositive(s[1..], c);
    }
  }

  /** The CPUs of the items one after the other, unless one of them is unreadable. */
  function Together(items: seq<string>): Option<seq<int>> {
    if items == [] then Some([])
    else
      var first, rest := ItemSays(TrimSpace(items[0])), Together(items[1..]);
      if first.None? || rest.None? then None else Some(first.value + rest.value)
  }

  lemma {:induction false} TogetherSnoc(items: seq<string>, last: string)
    ensures Together(items + [last]) ==
            if Together(items).None? || ItemSays(TrimSpace(last)).None? then None
            else Some(Together(items).value + ItemSays(TrimSpace(last)).value)
  {
    hide ItemSays, TrimSpace;
    if items == [] {
      assert [] + [last] == [last] && [last][1..] == [];
      var x := ItemSays(TrimSpace(last));
      if x.Some? {
        assert x.value + [] == [] + x.value;
      }
    } else {
      assert (items + [last])[1..] == items[1..] + [last];
      TogetherSnoc(items[1..], last);
      var first, rest, x := ItemSays(TrimSpace(items[0])), Together(items[1..]), ItemSays(TrimSpace(last));
      if first.Some? && rest.Some? && x.Some? {
        assert first.value + (rest.value + x.value) == first.value + rest.value + x.value;
      }
    }
  }

  lemma {:induction false} GatherIsTogether(items: seq<string>)
    ensures ParseItems(items) == Together(items)
  {
    hide ItemCpus, ItemSays, TrimSpace;
    if items != [] {
      var n := |items| - 1;
      GatherIsTogether(items[..n]);
      TogetherSnoc(items[..n], items[n]);
      assert items == items[..n] + [items[n]];
      ItemMeaning(TrimSpace(items[n]));
      assert EachItem(items)[..n] == EachItem(items[..n]);
    }
  }

  /** MAIN: a list of items, with white space around it, lists what its items say, in their
      order, and is unreadable exactly when one of them is. */
  lemma {:induction false} ListMeaning(l: string, items: seq<string>, r: string)
    requires IsBlank(l) && IsBlank(r) && items != [] && forall i :: 0 <= i < |items| ==> ',' !in items[i]
    requires TrimSpace(Join(items, ',')) == Join(items, ',') != ""
    ensures Parse(l + Join(items, ',') + r) == Together(items)
  {
    hide TrimSpace, Join, Split, ParseItems, Together;
    TrimPadded(l, Join(items, ','), r);
    SplitJoin(items, ',');
    GatherIsTogether(items);
  }

  /** MAIN: "a-b", with white space anywhere around the bounds, lists exactly the CPUs from a
      to b, each once. */
  lemma {:induction false} RangeTextParses(l: string, a: int, x: string, y: string, b: int, r: string)
    requires 0 <= a <= b <= MAX_INT64 && IsBlank(l) && IsBlank(x) && IsBlank(y) && IsBlank(r)
    ensures ItemSays(FormatInt(a) + x + "-" + y + FormatInt(b)) == Some(Consecutive(a, b))
    ensures Parse(l + (FormatInt(a) + x + "-" + y + FormatInt(b)) + r) == Some(Consecutive(a, b))
  {
    hide FormatInt, TrimSpace, Cut, Spelled, Consecutive, IsBlank, Parse;
    var left, right := FormatInt(a) + x, y + FormatInt(b);
    var item := FormatInt(a) + x + "-" + y + FormatInt(b);
    assert item == left + ['-'] + right;
    FormatSpells(a);
    FormatSpells(b);
    NoSeparators(x);
    NoSeparators(y);
    CutJoined(left, right, '-');
    TrimPadded("", FormatInt(a), x) by {
      NoBlank();
    }
    TrimPadded(y, FormatInt(b), "") by {
      NoBlank();
    }
    assert "" + FormatInt(a) + x == left && y + FormatInt(b) + "" == right;
    TrimSpaceId(FormatInt(a));
    TrimSpaceId(FormatInt(b));
    assert item[0] == FormatInt(a)[0] && item[|item| - 1] == FormatInt(b)[|FormatInt(b)| - 1];
    TrimSpaceId(item);
    JoinOne(item, ',');
    ListMeaning(l, [item], r);
    assert Together([item][1..]) == Some([]);
    assert Consecutive(a, b) + [] == Consecutive(a, b);
  }

  lemma {:induction false} NoBlank()
    ensures IsBlank("")
  {
  }

  lemma {:induction false} NoSeparators(s: string)
    requires IsBlank(s)
    ensures ',' !in s && '-' !in s
  {
    AsciiSpaces(',');
    AsciiSpaces('-');
  }

  // ---------- sibling pairs ----------

  datatype SiblingPair = SiblingPair(cpu0: int, cpu1: int) {

    predicate Valid() { IsCpu(cpu0) && IsCpu(cpu1) }

    function Cpus(): seq<int> {
      if cpu0 < cpu1 then [cpu0, cpu1] else [cpu1, cpu0]
    }

    function String(): string {
      if cpu0 < cpu1 then FormatInt(cpu0) + [','] + FormatInt(cpu1)
      else FormatInt(cpu1) + [','] + FormatInt(cpu0)
    }
  }

  lemma {:induction false} PairPrints(p: SiblingPair)
    ensures p.String() == Join(PrintAll(p.Cpus()), ',')
  {
    var cpus := p.Cpus();
    assert PrintAll(cpus) == [FormatInt(cpus[0]), FormatInt(cpus[1])];
    assert PrintAll(cpus)[1..] == [FormatInt(cpus[1])];
  }

  lemma {:induction false} PairSorted(p: SiblingPair)
    ensures Sort(Less, p.Cpus()) == p.Cpus()
  {
    SortUnique(Less, p.Cpus(), p.Cpus());
  }

  /** A pair's text lists exactly its two CPUs and is its own normal form. */
  lemma {:induction false} PairIsNormal(p: SiblingPair)
    requires p.Valid()
    ensures Parse(p.String()) == Some(p.Cpus())
    ensures NormalForm(p.String()) == p.String()
  {
    hide NormalForm, Parse, Join, PrintAll, Sort;
    PairPrints(p);
    PrintRoundTrip(p.Cpus());
    PairSorted(p);
    NormalFormOf(p.String(), p.Cpus());
  }

  /** parsePair: the items of a sysfs sibling list, sorted, when there are exactly two. */
  function ParsePair(s: string): Option<SiblingPair> {
    var cpus := ParseItems(Split(s, ','));
    if cpus.None? || |cpus.value| != 2 then None
    else
      var sorted := Sort(Less, cpus.value);
      Some(SiblingPair(sorted[0], sorted[1]))
  }

  /** Printing a pair and reading it back gives the pair in ascending order, and two
      pairs print the same exactly when they hold the same CPUs. */
  lemma {:induction false} PairRoundTrip(p: SiblingPair)
    requires p.Valid()
    ensures ParsePair(p.String()) == Some(SiblingPair(p.Cpus()[0], p.Cpus()[1]))
  {
    var cpus := p.Cpus();
    PairPrints(p);
    forall i | 0 <= i < |cpus| ensures ',' !in PrintAll(cpus)[i] {
      PrintedItem(cpus[i]);
    }
    SplitJoin(PrintAll(cpus), ',');
    ParsePrinted(cpus);
    PairSorted(p);
  }

  /** MAIN: the range text of two neighbouring CPUs, as the kernel may print a pair, has the
      normal form of that pair. */
  lemma {:induction false} PairAsRange(l: string, a: int, r: string)
    requires 0 <= a < MAX_INT64 && IsBlank(l) && IsBlank(r)
    ensures NormalForm(l + (FormatInt(a) + "-" + FormatInt(a + 1)) + r) == SiblingPair(a, a + 1).String()
  {
    hide FormatInt, Parse, NormalForm, PrintAll, Sort, IsBlank, SiblingPair.String, Join;
    var p := SiblingPair(a, a + 1);
    PlainRange(l, a, a + 1, r);
    assert Consecutive(a, a + 1) == p.Cpus();
    NormalFormOf(l + (FormatInt(a) + "-" + FormatInt(a + 1)) + r, p.Cpus());
    PairSorted(p);
    PairPrints(p);
  }

  lemma {:induction false} PlainRange(l: string, a: int, b: int, r: string)
    requires 0 <= a <= b <= MAX_INT64 && IsBlank(l) && IsBlank(r)
    ensures Parse(l + (FormatInt(a) + "-" + FormatInt(b)) + r) == Some(Consecutive(a, b))
  {
    hide FormatInt, Parse, Consecutive;
    assert FormatInt(a) + "" + "-" + "" + FormatInt(b) == FormatInt(a) + "-" + FormatInt(b);
    RangeTextParses(l, a, "", "", b, r);
  }

  // ---------- the code's own loops ----------

  method ParseItem(item: string) returns (r: Option<seq<int>>)
    ensures r == ItemCpus(item)
  {
    if item == "" {
      return Some([]);
    }
    if '-' in item {
      var bounds := Split(item, '-');
      if |bounds| != 2 {
        return None;
      }
      var start, end := Bound(bounds[0]), Bound(bounds[1]);
      if start.None? || end.None? {
        return None;
      }
      var expanded := Expand(start.value, end.value);
      return Some(expanded);
    }
    var cpu := ParseInt(item, Decimal);
    return if cpu.None? then None else Some([cpu.value]);
  }

  method ParseCpuset(raw: string) returns (r: Option<seq<int>>)
    ensures r == Parse(raw)
  {
    hide ItemCpus, TrimSpace, Split;
    if TrimSpace(raw) == "" {
      return Some([]);
    }
    var items := Split(TrimSpace(raw), ',');
    ghost var each := EachItem(items);
    var cpus: seq<int> := [];
    for i := 0 to |items|
      invariant Gather(each[..i]) == Some(cpus)
    {
      var one := ParseItem(TrimSpace(items[i]));
      assert each[..i + 1][..i] == each[..i];
      if one.None? {
        assert each[i].None?;
        return None;
      }
      cpus := cpus + one.value;
    }
    assert each[..|items|] == each;
    return Some(cpus);
  }

  method Expand(start: int, end: int) returns (cpus: seq<int>)
    ensures cpus == Range(start, end)
  {
    cpus := [];
    var cpu := start;
    while cpu <= end
      invariant start <= cpu
      invariant cpu <= end + 1 || cpu == start
      invariant cpus == Range(start, cpu - 1)
    {
      cpus := cpus + [cpu];
      cpu := cpu + 1;
    }
    if start > end {
      assert Range(start, end) == [];
    }
  }

  method PrintCpus(cpus: seq<int>) returns (out: seq<string>)
    ensures out == PrintAll(cpus)
  {
    out := [];
    for i := 0 to |cpus|
      invariant out == PrintAll(cpus[..i])
    {
      assert cpus[..i + 1][..i] == cpus[..i];
      out := out + [FormatInt(cpus[i])];
    }
    assert cpus[..|cpus|] == cpus;
  }

  method NormalizeCpuset(raw: string) returns (normal: string)
    ensures normal == NormalForm(raw)
  {
    var parsed := ParseCpuset(raw);
    if parsed.None? {
      return TrimSpace(raw);
    }
    var cpus := parsed.value;
    var backing := new int[|cpus|](i requires 0 <= i < |cpus| => cpus[i]);
    assert backing[..] == cpus;
    SortSlice(backing, Less);
    var out := PrintCpus(backing[..]);
    return Join(out, ',');
  }
}
