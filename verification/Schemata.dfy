/** Resctrl schemata lines: built by the QoS controller (resctrl_group_manager.go), read
    back by its topology parser (mpam_topology.go) and by the monitor (mpam_util.go). */
module Schemata {
  import opened Text
  import opened Sorting

  datatype Error = EmptyIds | BadWays | BadAssignment | NoIds | LineNotFound | NoKeys

  datatype Result<+T> = Ok(value: T) | Err(error: Error)

  /** The fields are int32 in the code. */
  datatype Config = Config(
    mbhdl: int, mbpri: int, mbmin: int, mb: int, l3pri: int, l3min: int, l3max: int, l3: int)
  {
    predicate Valid() {
      && InInt32(mbhdl) && InInt32(mbpri) && InInt32(mbmin) && InInt32(mb)
      && InInt32(l3pri) && InInt32(l3min) && InInt32(l3max) && InInt32(l3)
    }
  }

  predicate InInt32(n: int) { -0x8000_0000 <= n < 0x8000_0000 }

  predicate InInt64(n: int) { MIN_INT64 <= n <= MAX_INT64 }

  predicate AllInt64(ids: seq<int>) { forall i :: 0 <= i < |ids| ==> InInt64(ids[i]) }

  // ---------- the way mask ----------

  function Pow2(n: nat): (p: nat)
    ensures p >= 1
  {
    if n == 0 then 1 else 2 * Pow2(n - 1)
  }

  /** waysToHexMask: 2 to the ways, minus one, in lower-case hexadecimal. */
  function WaysToHexMask(ways: int): Result<string> {
    if ways < 1 then Err(BadWays) else Ok(Format(Pow2(ways) - 1, Hex))
  }

  predicate HasHexLetter(s: string) {
    exists i :: 0 <= i < |s| && ('a' <= s[i] <= 'f' || 'A' <= s[i] <= 'F')
  }

  /** The integer branch of strToFloat64: a hexadecimal letter switches to base 16.  None is
      its error; the conversion to float64 is not modelled. */
  function ReadInt(text: string): Option<int> {
    var s := TrimSpace(text);
    if s == "" then None else ParseInt(s, if HasHexLetter(s) then Hex else Decimal)
  }

  lemma {:induction false} Pow2Mod16(n: nat)
    requires n >= 4
    ensures Pow2(n) % 16 == 0 && Pow2(n) >= 16
  {
    if n > 4 {
      Pow2Mod16(n - 1);
    } else {
      assert Pow2(4) == 2 * Pow2(3) == 4 * Pow2(2) == 8 * Pow2(1) == 16 * Pow2(0);
    }
  }

  lemma {:induction false} Pow2Monotone(m: nat, n: nat)
    requires m <= n
    ensures 1 <= Pow2(m) <= Pow2(n)
    ensures m < n ==> 2 * Pow2(m) <= Pow2(n)
    decreases n
  {
    if m < n {
      Pow2Monotone(m, n - 1);
    } else if m > 0 {
      Pow2Monotone(m - 1, m - 1);
    }
  }

  lemma {:induction false} Pow2Of63()
    ensures Pow2(63) == MAX_INT64 + 1
  {
    Pow2Square(1, 2);
    Pow2Square(2, 4);
    Pow2Square(4, 16);
    Pow2Square(8, 256);
    Pow2Square(16, 65536);
    Pow2Add(32, 16);
    Pow2Add(48, 8);
    Pow2Add(56, 4);
    Pow2Add(60, 2);
    Pow2Add(62, 1);
  }

  lemma {:induction false} Pow2Add(m: nat, n: nat)
    ensures Pow2(m + n) == Pow2(m) * Pow2(n)
    decreases n
  {
    if n > 0 {
      Pow2Add(m, n - 1);
      assert m + n - 1 == m + (n - 1);
      assert Pow2(m) * (2 * Pow2(n - 1)) == 2 * (Pow2(m) * Pow2(n - 1));
    } else {
      assert Pow2(m) * 1 == Pow2(m);
    }
  }

  lemma {:induction false} Pow2Square(n: nat, v: nat)
    requires n == 1 || Pow2(n) == v
    requires n == 1 ==> v == 2
    ensures Pow2(n) == v && Pow2(2 * n) == v * v
  {
    if n == 1 {
      assert Pow2(1) == 2 * Pow2(0);
    }
    Pow2Add(n, n);
  }

  /** From four ways on, the mask ends in the letter f; below, it is one decimal digit. */
  lemma {:induction false} MaskText(ways: nat)
    requires ways >= 1
    ensures var s := Format(Pow2(ways) - 1, Hex);
            if ways >= 4 then HasHexLetter(s) else !HasHexLetter(s) && AllDigits(s, Decimal)
    ensures ways < 4 ==> Value(Format(Pow2(ways) - 1, Hex), Decimal) == Pow2(ways) - 1
  {
    var n := Pow2(ways) - 1;
    var s := Format(n, Hex);
    if ways >= 4 {
      Pow2Mod16(ways);
      assert n % 16 == 15;
      assert s[|s| - 1] == DigitChar(15);
    } else {
      assert Pow2(1) == 2 && Pow2(2) == 4 && Pow2(3) == 8;
      assert s == [DigitChar(n)] && s[..0] == "";
    }
  }

  /** MAIN: the monitor's base-guessing parse returns 2^w - 1 for every mask of w ways up to
      63, and refuses exactly the wider ones. */
  lemma {:induction false} MaskReadsBack(ways: nat)
    requires ways >= 1
    ensures ReadInt(WaysToHexMask(ways).value) == if ways <= 63 then Some(Pow2(ways) - 1) else None
  {
    hide Pow2, Value, HasHexLetter, TrimSpace, ParseInt, Format;
    var n: nat := Pow2(ways) - 1;
    var s := Format(n, Hex);
    ValueFormat(n, Hex);
    MaskText(ways);
    TrimSpaceId(s);
    ParseDigits(s, if ways >= 4 then Hex else Decimal);
    Pow2Of63();
    if ways <= 63 {
      Pow2Monotone(ways, 63);
    } else {
      Pow2Monotone(63, ways);
    }
  }

  lemma {:induction false} NumberReadsBack(n: int)
    requires InInt64(n)
    ensures ReadInt(FormatInt(n)) == Some(n)
  {
    hide ParseInt, TrimSpace, FormatInt;
    var s := FormatInt(n);
    ParseFormatInt(n);
    TrimSpaceId(s);
    assert !HasHexLetter(s);
  }

  // ---------- building ----------

  /** id=value;id=value;... */
  function Pairs(ids: seq<int>, value: string): (r: seq<string>)
    ensures |r| == |ids| && forall i :: 0 <= i < |ids| ==> r[i] == FormatInt(ids[i]) + ['='] + value
  {
    seq(|ids|, i requires 0 <= i < |ids| => FormatInt(ids[i]) + ['='] + value)
  }

  function Assignment(ids: seq<int>, value: string): Result<string> {
    if ids == [] then Err(EmptyIds) else Ok(Join(Pairs(ids, value), ';'))
  }

  method BuildIDAssignment(ids: seq<int>, value: string) returns (r: Result<string>)
    ensures r == Assignment(ids, value)
    ensures r.Ok? <==> ids != []
  {
    hide FormatInt, Join;
    if ids == [] {
      return Err(EmptyIds);
    }
    var pairs: seq<string> := [];
    for i := 0 to |ids|
      invariant pairs == Pairs(ids, value)[..i]
    {
      pairs := pairs + [FormatInt(ids[i]) + ['='] + value];
    }
    assert Pairs(ids, value)[..|ids|] == Pairs(ids, value);
    return Ok(Join(pairs, ';'));
  }

  /** One line of the file: its key, the domain ids it names, the value each gets. */
  datatype Line = Line(key: string, ids: seq<int>, value: string)

  function LineText(l: Line): string {
    l.key + [':'] + Join(Pairs(l.ids, l.value), ';')
  }

  /** All lines of a configuration, in the order they are written. */
  function AllLines(c: Config, numaIDs: seq<int>, cacheIDs: seq<int>, mask: string): seq<Line> {
    [ Line("MBHDL", numaIDs, FormatInt(c.mbhdl)),
      Line("MBPRI", numaIDs, FormatInt(c.mbpri)),
      Line("L3PRI", cacheIDs, FormatInt(c.l3pri)),
      Line("MBMIN", numaIDs, FormatInt(c.mbmin)),
      Line("L3MIN", cacheIDs, FormatInt(c.l3min)),
      Line("L3MAX", cacheIDs, FormatInt(c.l3max)),
      Line("MB", numaIDs, FormatInt(c.mb)),
      Line("L3", cacheIDs, mask) ]
  }

  lemma {:induction false} LinesPlain(c: Config, numaIDs: seq<int>, cacheIDs: seq<int>, mask: string)
    ensures var lines := AllLines(c, numaIDs, cacheIDs, mask);
            && |lines| == 8
            && forall i :: 0 <= i < 8 ==> PlainKey(lines[i].key) && lines[i].ids in [numaIDs, cacheIDs]
  {
    hide FormatInt;
  }

  predicate PlainKey(key: string) {
    key in ["MBHDL", "MBPRI", "L3PRI", "MBMIN", "L3MIN", "L3MAX", "MB", "L3"]
  }

  lemma {:induction false} PlainKeyChars(key: string)
    requires PlainKey(key)
    ensures |key| >= 2 && NoSpace(key) && ':' !in key && '\n' !in key && key[0] in ['M', 'L']
  {
  }

  /** Keep the lines whose key is supported; None means nothing is known, keep all. */
  function Supported(lines: seq<Line>, supported: Option<set<string>>): (r: seq<Line>)
    ensures forall l :: l in r ==> l in lines
  {
    if lines == [] then []
    else
      var n := |lines| - 1;
      var init := Supported(lines[..n], supported);
      if supported.None? || lines[n].key in supported.value then init + [lines[n]] else init
  }

  function Texts(lines: seq<Line>): (r: seq<string>)
    ensures |r| == |lines| && forall i :: 0 <= i < |lines| ==> r[i] == LineText(lines[i])
  {
    seq(|lines|, i requires 0 <= i < |lines| => LineText(lines[i]))
  }

  function BuildProblem(c: Config, numaIDs: seq<int>, cacheIDs: seq<int>): (r: Option<Error>)
    ensures r.None? <==> numaIDs != [] && cacheIDs != [] && c.l3 >= 1
  {
    if numaIDs == [] then Some(EmptyIds)
    else if c.l3 < 1 then Some(BadWays)
    else if cacheIDs == [] then Some(EmptyIds)
    else None
  }

  function BuiltLines(c: Config, numaIDs: seq<int>, cacheIDs: seq<int>, supported: Option<set<string>>): seq<Line>
    requires c.l3 >= 1
  {
    Supported(AllLines(c, numaIDs, cacheIDs, WaysToHexMask(c.l3).value), supported)
  }

  /** The filter loop: the key is what precedes the first colon. */
  method FilterItems(allItems: seq<string>, supported: Option<set<string>>, ghost lines: seq<Line>)
    returns (items: seq<string>)
    requires allItems == Texts(lines)
    requires forall i :: 0 <= i < |lines| ==> ':' !in lines[i].key
    ensures items == Texts(Supported(lines, supported))
  {
    hide LineText;
    if supported.None? {
      SupportedAll(lines);
      return allItems;
    }
    items := [];
    for i := 0 to |allItems|
      invariant items == Texts(Supported(lines[..i], supported))
    {
      assert lines[..i + 1][..i] == lines[..i];
      KeyOfText(lines[i]);
      var cut := Cut(allItems[i], ':');
      if cut.None? {
        continue;
      }
      if cut.value.0 !in supported.value {
        continue;
      }
      items := items + [allItems[i]];
    }
    assert lines[..|lines|] == lines;
  }

  lemma {:induction false} SupportedAll(lines: seq<Line>)
    ensures Supported(lines, None) == lines
  {
    if lines != [] {
      SupportedAll(lines[..|lines| - 1]);
    }
  }

  lemma {:induction false} KeyOfText(l: Line)
    requires ':' !in l.key
    ensures Cut(LineText(l), ':') == Some((l.key, Join(Pairs(l.ids, l.value), ';')))
  {
    CutJoined(l.key, Join(Pairs(l.ids, l.value), ';'), ':');
  }

  /** Build the assignments of several lines; the first empty id list is the error. */
  method AssignAll(lines: seq<Line>) returns (r: Result<seq<string>>)
    ensures (exists i :: 0 <= i < |lines| && lines[i].ids == []) ==> r == Err(EmptyIds)
    ensures (forall i :: 0 <= i < |lines| ==> lines[i].ids != []) ==> r == Ok(Texts(lines))
  {
    hide Join, Pairs;
    var items: seq<string> := [];
    for i := 0 to |lines|
      invariant forall j :: 0 <= j < i ==> lines[j].ids != []
      invariant items == Texts(lines[..i])
    {
      var assignment := BuildIDAssignment(lines[i].ids, lines[i].value);
      if assignment.Err? {
        return Err(assignment.error);
      }
      items := items + [lines[i].key + [':'] + assignment.value];
    }
    assert lines[..|lines|] == lines;
    return Ok(items);
  }

  /** The bandwidth assignments come first, then the mask, then the cache assignments; the
      file order is different. */
  method BuildSchemataItems(c: Config, numaIDs: seq<int>, cacheIDs: seq<int>, supported: Option<set<string>>)
    returns (r: Result<seq<string>>)
    ensures BuildProblem(c, numaIDs, cacheIDs).Some? ==> r == Err(BuildProblem(c, numaIDs, cacheIDs).value)
    ensures BuildProblem(c, numaIDs, cacheIDs).None? ==>
              r == Ok(Texts(BuiltLines(c, numaIDs, cacheIDs, supported)))
  {
    hide LineText, Supported, Format, Pow2, FormatInt;
    var bandwidth := [
      Line("MBHDL", numaIDs, FormatInt(c.mbhdl)), Line("MBPRI", numaIDs, FormatInt(c.mbpri)),
      Line("MBMIN", numaIDs, FormatInt(c.mbmin)), Line("MB", numaIDs, FormatInt(c.mb)) ];
    assert bandwidth[0].ids == numaIDs;
    var mb := AssignAll(bandwidth);
    if mb.Err? {
      return Err(mb.error);
    }
    var mask := WaysToHexMask(c.l3);
    if mask.Err? {
      return Err(mask.error);
    }
    var cache := [
      Line("L3PRI", cacheIDs, FormatInt(c.l3pri)), Line("L3MIN", cacheIDs, FormatInt(c.l3min)),
      Line("L3MAX", cacheIDs, FormatInt(c.l3max)), Line("L3", cacheIDs, mask.value) ];
    assert cache[0].ids == cacheIDs;
    var l3 := AssignAll(cache);
    if l3.Err? {
      return Err(l3.error);
    }
    var all := [
      mb.value[0], mb.value[1], l3.value[0], mb.value[2], l3.value[1], l3.value[2], mb.value[3], l3.value[3] ];
    ghost var lines := AllLines(c, numaIDs, cacheIDs, mask.value);
    LinesPlain(c, numaIDs, cacheIDs, mask.value);
    forall i: nat | i < |lines| ensures ':' !in lines[i].key {
      PlainKeyChars(lines[i].key);
    }
    assert all == Texts(lines);
    var items := FilterItems(all, supported, lines);
    return Ok(items);
  }

  // ---------- reading domain ids ----------

  /** One assignment of a line: its id, nothing when blank, or an error. */
  datatype IdResult = Blank | Id(id: int) | BadId

  function ReadId(part: string): (r: IdResult)
    ensures r.Id? ==> InInt64(r.id)
  {
    var p := TrimSpace(part);
    if p == "" then Blank
    else
      var kv := Cut(p, '=');
      if kv.None? then BadId
      else
        var id := ParseInt(TrimSpace(kv.value.0), Decimal);
        if id.None? then BadId else Id(id.value)
  }

  function EachId(parts: seq<string>): (r: seq<IdResult>)
    ensures |r| == |parts| && forall i :: 0 <= i < |parts| ==> r[i] == ReadId(parts[i])
  {
    seq(|parts|, i requires 0 <= i < |parts| => ReadId(parts[i]))
  }

  /** The ids in order, unless one assignment is bad. */
  function GatherIds(results: seq<IdResult>): Option<seq<int>> {
    if results == [] then Some([])
    else
      var n := |results| - 1;
      var init := GatherIds(results[..n]);
      if init.None? || results[n].BadId? then None
      else if results[n].Blank? then init
      else Some(init.value + [results[n].id])
  }

  predicate Less(a: int, b: int) { a < b }

  /** The ids of a line that starts with the prefix, sorted. */
  function LineIds(assignments: string): Result<seq<int>> {
    var ids := GatherIds(EachId(Split(assignments, ';')));
    if ids.None? then Err(BadAssignment)
    else if ids.value == [] then Err(NoIds)
    else Ok(Sort(Less, ids.value))
  }

  predicate HasPrefix(s: string, prefix: string) { prefix <= s }

  /** The first line with the item's prefix decides. */
  function IdsOf(lines: seq<string>, item: string): Result<seq<int>> {
    if lines == [] then Err(LineNotFound)
    else
      var line := TrimSpace(lines[0]);
      if line != "" && HasPrefix(line, item + [':']) then LineIds(line[|item| + 1..])
      else IdsOf(lines[1..], item)
  }

  function SchemataIDs(content: string, item: string): Result<seq<int>> {
    IdsOf(Split(content, '\n'), item)
  }

  method CollectIds(parts: seq<string>) returns (ids: Option<seq<int>>)
    ensures ids == GatherIds(EachId(parts))
  {
    hide ReadId;
    ghost var each := EachId(parts);
    ids := Some([]);
    for i := 0 to |parts|
      invariant ids.Some? && ids == GatherIds(each[..i])
    {
      assert each[..i + 1][..i] == each[..i];
      var one := ReadId(parts[i]);
      if one.Blank? {
        continue;
      }
      if one.BadId? {
        BadIdStays(each, i + 1);
        return None;
      }
      ids := Some(ids.value + [one.id]);
    }
    assert each[..|parts|] == each;
  }

  lemma {:induction false} BadIdStays(results: seq<IdResult>, n: nat)
    requires n <= |results| && GatherIds(results[..n]).None?
    ensures GatherIds(results).None?
  {
    if n == |results| {
      assert results[..n] == results;
    } else {
      assert results[..|results| - 1][..n] == results[..n];
      BadIdStays(results[..|results| - 1], n);
    }
  }

  method ParseSchemataIDs(content: string, item: string) returns (r: Result<seq<int>>)
    ensures r == SchemataIDs(content, item)
  {
    hide LineIds, TrimSpace, Split;
    var lines := Split(content, '\n');
    assert lines[0..] == lines;
    for i := 0 to |lines|
      invariant IdsOf(lines, item) == IdsOf(lines[i..], item)
    {
      assert lines[i..][1..] == lines[i + 1..];
      var line := TrimSpace(lines[i]);
      if line == "" {
        continue;
      }
      if !HasPrefix(line, item + [':']) {
        continue;
      }
      r := ParseIdLine(line[|item| + 1..]);
      return;
    }
    return Err(LineNotFound);
  }

  method ParseIdLine(assignments: string) returns (r: Result<seq<int>>)
    ensures r == LineIds(assignments)
  {
    var ids := CollectIds(Split(assignments, ';'));
    if ids.None? {
      return Err(BadAssignment);
    }
    if ids.value == [] {
      return Err(NoIds);
    }
    var list := ids.value;
    var backing := new int[|list|](i requires 0 <= i < |list| => list[i]);
    assert backing[..] == list;
    SortSlice(backing, Less);
    return Ok(backing[..]);
  }

  // ---------- the id parser inverts the builder ----------

  /** A value text as the builder writes it. */
  predicate PlainValue(v: string) {
    v != "" && forall i :: 0 <= i < |v| ==>
      '0' <= v[i] <= '9' || 'a' <= v[i] <= 'f' || v[i] == '-'
  }

  lemma {:induction false} NumberIsPlain(n: int)
    ensures PlainValue(FormatInt(n))
  {
  }

  lemma {:induction false} MaskIsPlain(n: nat)
    ensures PlainValue(Format(n, Hex))
  {
  }

  /** No separator and no white space occurs inside a plain value. */
  lemma {:induction false} PlainChars(v: string)
    requires PlainValue(v)
    ensures NoSpace(v) && ';' !in v && '=' !in v && ':' !in v && '\n' !in v
  {
  }

  /** One written assignment: no blanks around it, cut at its equals sign. */
  lemma {:induction false} PairShape(id: int, value: string)
    requires PlainValue(value)
    ensures var p := FormatInt(id) + ['='] + value;
            && TrimSpace(p) == p && p != "" && ';' !in p && '\n' !in p
            && Cut(p, '=') == Some((FormatInt(id), value))
            && TrimSpace(FormatInt(id)) == FormatInt(id) && TrimSpace(value) == value
  {
    hide FormatInt, TrimSpace, Cut;
    var k := FormatInt(id);
    var p := k + ['='] + value;
    NumberIsPlain(id);
    PlainChars(k);
    PlainChars(value);
    assert p[0] == k[0] && p[|p| - 1] == value[|value| - 1];
    TrimSpaceId(p);
    TrimSpaceId(k);
    TrimSpaceId(value);
    CutJoined(k, value, '=');
  }

  lemma {:induction false} PairReadsId(id: int, value: string)
    requires InInt64(id) && PlainValue(value)
    ensures ReadId(FormatInt(id) + ['='] + value) == Id(id)
  {
    hide FormatInt, TrimSpace, Cut, ParseInt;
    PairShape(id, value);
    ParseFormatInt(id);
  }

  lemma {:induction false} GatherAllIds(ids: seq<int>)
    ensures GatherIds(seq(|ids|, i requires 0 <= i < |ids| => Id(ids[i]))) == Some(ids)
  {
    if ids != [] {
      var n := |ids| - 1;
      GatherAllIds(ids[..n]);
      var all := seq(|ids|, i requires 0 <= i < |ids| => Id(ids[i]));
      assert all[..n] == seq(n, i requires 0 <= i < n => Id(ids[..n][i]));
      assert ids == ids[..n] + [ids[n]];
    }
  }

  lemma {:induction false} PairsSplit(ids: seq<int>, value: string)
    requires ids != [] && PlainValue(value)
    ensures Split(Join(Pairs(ids, value), ';'), ';') == Pairs(ids, value)
  {
    hide FormatInt, Join, Split;
    forall i | 0 <= i < |ids| ensures ';' !in Pairs(ids, value)[i] {
      PairShape(ids[i], value);
    }
    SplitJoin(Pairs(ids, value), ';');
  }

  lemma {:induction false} AssignmentIds(ids: seq<int>, value: string)
    requires ids != [] && AllInt64(ids) && PlainValue(value)
    ensures LineIds(Join(Pairs(ids, value), ';')) == Ok(Sort(Less, ids))
  {
    hide FormatInt, Join, Split, ReadId, Sort;
    PairsSplit(ids, value);
    forall i | 0 <= i < |ids| ensures ReadId(Pairs(ids, value)[i]) == Id(ids[i]) {
      PairReadsId(ids[i], value);
    }
    assert EachId(Pairs(ids, value)) == seq(|ids|, i requires 0 <= i < |ids| => Id(ids[i]));
    GatherAllIds(ids);
  }

  ghost predicate PlainLine(l: Line) {
    PlainKey(l.key) && l.ids != [] && AllInt64(l.ids) && PlainValue(l.value)
  }

  lemma {:induction false} JoinedPairs(ids: seq<int>, value: string)
    requires ids != [] && PlainValue(value)
    ensures var s := Join(Pairs(ids, value), ';');
            s != "" && '\n' !in s && !IsSpace(s[0]) && !IsSpace(s[|s| - 1])
  {
    hide FormatInt, Join, TrimSpace, Cut, PlainValue;
    var pairs := Pairs(ids, value);
    forall i | 0 <= i < |pairs|
      ensures pairs[i] != "" && '\n' !in pairs[i] && !IsSpace(pairs[i][0]) && !IsSpace(pairs[i][|pairs[i]| - 1])
    {
      PairShape(ids[i], value);
      PairEnds(ids[i], value);
    }
    JoinEnds(pairs, ';');
    JoinAdds(pairs, ';', '\n');
  }

  lemma {:induction false} PairEnds(id: int, value: string)
    requires PlainValue(value)
    ensures var p := FormatInt(id) + ['='] + value; !IsSpace(p[0]) && !IsSpace(p[|p| - 1])
  {
    hide FormatInt;
    NumberIsPlain(id);
    PlainChars(FormatInt(id));
    PlainChars(value);
  }

  /** A written line has no blanks around it, no line break, and cuts at its colon. */
  lemma {:induction false} LineShape(l: Line)
    requires PlainLine(l)
    ensures var s := LineText(l);
            && TrimSpace(s) == s && s != "" && '\n' !in s
            && Cut(s, ':') == Some((l.key, Join(Pairs(l.ids, l.value), ';')))
  {
    hide Join, TrimSpace, Cut;
    PlainKeyChars(l.key);
    JoinedPairs(l.ids, l.value);
    KeyOfText(l);
    var s := LineText(l);
    var data := Join(Pairs(l.ids, l.value), ';');
    assert s[0] == l.key[0] && s[|s| - 1] == data[|data| - 1];
    TrimSpaceId(s);
  }

  /** "KEY:" is a prefix of a written line only if KEY is its key. */
  lemma {:induction false} PrefixIsKey(l: Line, item: string)
    requires PlainLine(l) && PlainKey(item)
    ensures HasPrefix(LineText(l), item + [':']) <==> l.key == item
    ensures l.key == item ==> LineText(l)[|item| + 1..] == Join(Pairs(l.ids, l.value), ';')
  {
    hide Join;
    PlainKeyChars(l.key);
    PlainKeyChars(item);
    var s := LineText(l);
    if HasPrefix(s, item + [':']) {
      assert s[|item|] == ':' && s[|l.key|] == ':';
      assert s[..|item|] == item;
    }
  }

  function LookUp(lines: seq<Line>, item: string): Option<Line> {
    if lines == [] then None
    else if lines[0].key == item then Some(lines[0])
    else LookUp(lines[1..], item)
  }

  lemma {:induction false} IdsOfTexts(lines: seq<Line>, item: string)
    requires PlainKey(item) && forall i :: 0 <= i < |lines| ==> PlainLine(lines[i])
    ensures var l := LookUp(lines, item);
            IdsOf(Texts(lines), item) == if l.None? then Err(LineNotFound) else Ok(Sort(Less, l.value.ids))
  {
    hide LineText, TrimSpace, LineIds, Sort;
    if lines != [] {
      var l := lines[0];
      LineShape(l);
      PrefixIsKey(l, item);
      assert Texts(lines)[1..] == Texts(lines[1..]);
      if l.key == item {
        AssignmentIds(l.ids, l.value);
      } else {
        IdsOfTexts(lines[1..], item);
      }
    }
  }

  /** What the file holds once the items are written, one per line. */
  function FileText(lines: seq<Line>): string { Join(Texts(lines), '\n') }

  lemma {:induction false} FileSplits(lines: seq<Line>)
    requires lines != [] && forall i :: 0 <= i < |lines| ==> PlainLine(lines[i])
    ensures Split(FileText(lines), '\n') == Texts(lines)
  {
    hide Join, Split, LineText;
    forall i | 0 <= i < |lines| ensures '\n' !in Texts(lines)[i] {
      LineShape(lines[i]);
    }
    SplitJoin(Texts(lines), '\n');
  }

  lemma {:induction false} BuiltLinesPlain(
      c: Config, numaIDs: seq<int>, cacheIDs: seq<int>, supported: Option<set<string>>)
    requires c.l3 >= 1 && numaIDs != [] && cacheIDs != [] && AllInt64(numaIDs) && AllInt64(cacheIDs)
    ensures forall l | l in BuiltLines(c, numaIDs, cacheIDs, supported) :: PlainLine(l)
  {
    hide FormatInt, Format, Pow2, PlainValue;
    MaskIsPlain(Pow2(c.l3) - 1);
    NumberIsPlain(c.mbhdl);
    NumberIsPlain(c.mbpri);
    NumberIsPlain(c.mbmin);
    NumberIsPlain(c.mb);
    NumberIsPlain(c.l3pri);
    NumberIsPlain(c.l3min);
    NumberIsPlain(c.l3max);
  }

  lemma {:induction false} LookUpSupported(lines: seq<Line>, supported: Option<set<string>>, item: string)
    requires forall i, j :: 0 <= i < j < |lines| ==> lines[i].key != lines[j].key
    ensures var l := LookUp(lines, item);
            LookUp(Supported(lines, supported), item) ==
              if l.Some? && (supported.None? || item in supported.value) then l else None
  {
    if lines != [] {
      var n := |lines| - 1;
      LookUpSupported(lines[..n], supported, item);
      LookUpSnoc(lines[..n], lines[n], item);
      LookUpSnoc(Supported(lines[..n], supported), lines[n], item);
      assert lines == lines[..n] + [lines[n]];
      LookUpFinds(lines[..n], item);
    }
  }

  lemma {:induction false} LookUpFinds(lines: seq<Line>, item: string)
    ensures LookUp(lines, item).Some? ==> exists i :: 0 <= i < |lines| && lines[i].key == item
  {
    if lines != [] && lines[0].key != item {
      LookUpFinds(lines[1..], item);
      if LookUp(lines[1..], item).Some? {
        var i :| 0 <= i < |lines[1..]| && lines[1..][i].key == item;
        assert lines[i + 1].key == item;
      }
    }
  }

  lemma {:induction false} LookUpSnoc(lines: seq<Line>, last: Line, item: string)
    ensures LookUp(lines + [last], item) ==
            if LookUp(lines, item).Some? then LookUp(lines, item)
            else if last.key == item then Some(last) else None
  {
    if lines == [] {
      assert LookUp([last], item) == if last.key == item then Some(last) else LookUp([last][1..], item);
    } else {
      assert (lines + [last])[1..] == lines[1..] + [last];
      LookUpSnoc(lines[1..], last, item);
    }
  }

  /** MAIN: from the written file the id parser recovers the sorted NUMA ids under "MB" and
      the sorted cache ids under "L3", exactly when those lines were supported. */
  lemma {:induction false} IdsReadBack(c: Config, numaIDs: seq<int>, cacheIDs: seq<int>, supported: Option<set<string>>)
    requires c.l3 >= 1 && numaIDs != [] && cacheIDs != [] && AllInt64(numaIDs) && AllInt64(cacheIDs)
    requires BuiltLines(c, numaIDs, cacheIDs, supported) != []
    ensures var content := FileText(BuiltLines(c, numaIDs, cacheIDs, supported));
            && SchemataIDs(content, "MB") ==
                 (if supported.None? || "MB" in supported.value then Ok(Sort(Less, numaIDs)) else Err(LineNotFound))
            && SchemataIDs(content, "L3") ==
                 (if supported.None? || "L3" in supported.value then Ok(Sort(Less, cacheIDs)) else Err(LineNotFound))
  {
    hide FormatInt, Format, Pow2, Sort, Split, FileText, Supported, IdsOf, PlainLine;
    var all := AllLines(c, numaIDs, cacheIDs, WaysToHexMask(c.l3).value);
    var lines := BuiltLines(c, numaIDs, cacheIDs, supported);
    BuiltLinesPlain(c, numaIDs, cacheIDs, supported);
    FileSplits(lines);
    IdsOfTexts(lines, "MB");
    IdsOfTexts(lines, "L3");
    LookUpSupported(all, supported, "MB");
    LookUpSupported(all, supported, "L3");
    LookUpEight(c, numaIDs, cacheIDs, WaysToHexMask(c.l3).value);
  }

  lemma {:induction false} LookUpEight(c: Config, numaIDs: seq<int>, cacheIDs: seq<int>, mask: string)
    ensures var all := AllLines(c, numaIDs, cacheIDs, mask);
            && LookUp(all, "MB") == Some(all[6]) && all[6].ids == numaIDs
            && LookUp(all, "L3") == Some(all[7]) && all[7].ids == cacheIDs
  {
    hide FormatInt, LookUp;
    var all := AllLines(c, numaIDs, cacheIDs, mask);
    LookUpAt(all, 6, "MB");
    LookUpAt(all, 7, "L3");
  }

  lemma {:induction false} LookUpAt(lines: seq<Line>, i: nat, item: string)
    requires i < |lines| && lines[i].key == item
    requires forall j :: 0 <= j < i ==> lines[j].key != item
    ensures LookUp(lines, item) == Some(lines[i])
  {
    if i > 0 {
      LookUpAt(lines[1..], i - 1, item);
    }
  }

  // ---------- padded lines ----------

  /** The line with white space around it, but no further line break. */
  ghost predicate Padded(line: string, padded: string) {
    '\n' !in padded && exists l, r :: IsBlank(l) && IsBlank(r) && padded == l + line + r
  }

  ghost predicate AllPadded(lines: seq<string>, padded: seq<string>) {
    |lines| == |padded| && forall i :: 0 <= i < |lines| ==> Padded(lines[i], padded[i])
  }

  lemma {:induction false} PaddingIsTrimmed(line: string, padded: string)
    requires Padded(line, padded)
    ensures TrimSpace(padded) == TrimSpace(line)
  {
    hide TrimSpace;
    var l, r :| IsBlank(l) && IsBlank(r) && padded == l + line + r;
    TrimPadded(l, line, r);
  }

  lemma {:induction false} PaddedIds(lines: seq<string>, padded: seq<string>, item: string)
    requires AllPadded(lines, padded)
    ensures IdsOf(padded, item) == IdsOf(lines, item)
  {
    hide TrimSpace, LineIds, Padded;
    if lines != [] {
      PaddingIsTrimmed(lines[0], padded[0]);
      PaddedIds(lines[1..], padded[1..], item);
    }
  }

  lemma {:induction false} PaddedSplits(lines: seq<string>, padded: seq<string>)
    requires AllPadded(lines, padded) && lines != []
    ensures Split(Join(padded, '\n'), '\n') == padded
  {
    SplitJoin(padded, '\n');
  }

  /** MAIN: padding the written lines, as the kernel does to align their keys, changes no
      answer of the id parser. */
  lemma {:induction false} PaddedIdsReadBack(
      c: Config, numaIDs: seq<int>, cacheIDs: seq<int>, supported: Option<set<string>>,
      padded: seq<string>, item: string)
    requires c.l3 >= 1 && numaIDs != [] && cacheIDs != [] && AllInt64(numaIDs) && AllInt64(cacheIDs)
    requires BuiltLines(c, numaIDs, cacheIDs, supported) != []
    requires AllPadded(Texts(BuiltLines(c, numaIDs, cacheIDs, supported)), padded)
    ensures SchemataIDs(Join(padded, '\n'), item) ==
            SchemataIDs(FileText(BuiltLines(c, numaIDs, cacheIDs, supported)), item)
  {
    hide BuiltLines, AllPadded, Join, Split, IdsOf, PlainLine, LineText;
    var lines := BuiltLines(c, numaIDs, cacheIDs, supported);
    BuiltLinesPlain(c, numaIDs, cacheIDs, supported);
    FileSplits(lines);
    PaddedSplits(Texts(lines), padded);
    PaddedIds(Texts(lines), padded, item);
  }

  // ---------- the lines, written out ----------

  /** The eight lines in their order: the bandwidth keys name the NUMA ids, the cache keys the
      cache ids. */
  lemma {:induction false} LinesWrittenOut(c: Config, numaIDs: seq<int>, cacheIDs: seq<int>)
    requires c.l3 >= 1
    ensures var lines := BuiltLines(c, numaIDs, cacheIDs, None);
            && |lines| == 8
            && (forall i :: 0 <= i < 8 ==>
                  lines[i].key == ["MBHDL", "MBPRI", "L3PRI", "MBMIN", "L3MIN", "L3MAX", "MB", "L3"][i])
            && (forall i :: 0 <= i < 8 ==> lines[i].ids == if i in {0, 1, 3, 6} then numaIDs else cacheIDs)
  {
    hide FormatInt, Format, Pow2;
    SupportedAll(AllLines(c, numaIDs, cacheIDs, WaysToHexMask(c.l3).value));
  }

  /** A line, written out. */
  lemma {:induction false} LineWrittenOut(value: string)
    ensures LineText(Line("MB", [0, 1], value)) == "MB:0=" + value + ";1=" + value
  {
    hide Join;
    assert FormatInt(0) == "0" && FormatInt(1) == "1";
    var pairs := Pairs([0, 1], value);
    var first, second := "0" + ['='] + value, "1" + ['='] + value;
    assert pairs[0] == first && pairs[1] == second;
    assert pairs == [first, second];
    JoinTwo(first, second, ';');
    assert "MB" + [':'] + (first + [';'] + second) == "MB:0=" + value + ";1=" + value;
  }

  /** Filtering keeps exactly the lines with a supported key. */
  lemma {:induction false} SupportedMeaning(lines: seq<Line>, supported: Option<set<string>>, l: Line)
    ensures l in Supported(lines, supported) <==>
              l in lines && (supported.None? || l.key in supported.value)
  {
    if lines != [] {
      var n := |lines| - 1;
      SupportedMeaning(lines[..n], supported, l);
      assert lines == lines[..n] + [lines[n]];
    }
  }

  predicate IsHexLetter(c: char) { 'a' <= c <= 'f' || 'A' <= c <= 'F' }

  /** A hexadecimal letter in either case switches the base: two digits of either kind. */
  lemma {:induction false} TwoDigits(a: char, b: char)
    requires ('0' <= a <= '9' || IsHexLetter(a)) && ('0' <= b <= '9' || IsHexLetter(b))
    ensures ReadInt([a, b]) ==
            Some((if IsHexLetter(a) || IsHexLetter(b) then 16 else 10) * DigitValue(a) + DigitValue(b))
  {
    hide ParseInt, TrimSpace;
    var s := [a, b];
    var base := if IsHexLetter(a) || IsHexLetter(b) then Hex else Decimal;
    assert s[0] == a && s[1] == b;
    assert HasHexLetter(s) <==> base.Hex?;
    assert s[..1] == [a] && [a][..0] == "";
    assert Value(s, base) == base.Times(Value([a], base)) + DigitValue(b);
    ParseDigits(s, base);
    TrimSpaceId(s);
  }

  // ---------- what a line says ----------

  /** The id an assignment names: the number before the first equals sign; nothing when it is
      blank. */
  function AssignmentSays(part: string): IdResult {
    var p := TrimSpace(part);
    if p == "" then Blank
    else
      match Cut(p, '=')
      case None => BadId
      case Some((before, _)) =>
        var id := SignedSpelled(TrimSpace(before));
        if id.None? then BadId else Id(id.value)
  }

  /** A spelled number, or a minus sign and a numeral, in 64 bits. */
  function SignedSpelled(s: string): Option<int> {
    if s != "" && s[0] == '-' then
      if IsNumeral(s[1..]) && Numeral(s[1..]) <= MAX_INT64 + 1 then Some(0 - Numeral(s[1..])) else None
    else if '-' in s then None
    else Spelled(s)
  }

  lemma {:induction false} SignedMeaning(s: string)
    ensures ParseInt(s, Decimal) == SignedSpelled(s)
  {
    hide Value;
    if s != "" && s[0] == '-' {
      NumeralDigits(s[1..]);
    } else if '-' in s {
      DashIsNoDigit(s);
    } else {
      ParseMeaning(s);
    }
  }

  lemma {:induction false} DashIsNoDigit(s: string)
    requires '-' in s && s[0] != '-'
    ensures ParseInt(s, Decimal) == None
  {
    var i :| 0 <= i < |s| && s[i] == '-';
    assert i > 0 && s[1..][i - 1] == '-';
    assert DigitValue('-') == 16;
  }

  predicate SomeUnreadable(parts: seq<string>) {
    exists i :: 0 <= i < |parts| && AssignmentSays(parts[i]).BadId?
  }

  predicate AllBlank(parts: seq<string>) {
    forall i :: 0 <= i < |parts| ==> AssignmentSays(parts[i]).Blank?
  }

  predicate SomeNames(parts: seq<string>, x: int) {
    exists i :: 0 <= i < |parts| && AssignmentSays(parts[i]) == Id(x)
  }

  /** MAIN: a line yields the sorted ids of its assignments; an assignment without a readable
      id is an error, and so is a line without any. */
  lemma {:induction false} LineMeaning(assignments: string)
    ensures var parts := Split(assignments, ';');
            && (LineIds(assignments) == Err(BadAssignment) <==> SomeUnreadable(parts))
            && (LineIds(assignments) == Err(NoIds) <==> AllBlank(parts))
            && (LineIds(assignments).Ok? ==> forall x :: x in LineIds(assignments).value <==> SomeNames(parts, x))
  {
    hide EachId, GatherIds, SomeUnreadable, AllBlank, SomeNames, Sort;
    var parts := Split(assignments, ';');
    PartsMeaning(parts);
    var ids := GatherIds(EachId(parts));
    if ids.Some? {
      SortMultiset(Less, ids.value);
      SameElements(Sort(Less, ids.value), ids.value);
    }
  }

  lemma {:induction false} PartsMeaning(parts: seq<string>)
    requires parts != []
    ensures var ids := GatherIds(EachId(parts));
            && (ids.None? <==> SomeUnreadable(parts))
            && (ids == Some([]) <==> AllBlank(parts))
            && (ids.Some? ==> forall x :: x in ids.value <==> SomeNames(parts, x))
  {
    hide ReadId, AssignmentSays, GatherIds;
    forall i | 0 <= i < |parts| ensures EachId(parts)[i] == AssignmentSays(parts[i]) {
      AssignmentMeaning(parts[i]);
    }
    GatherMeaning(EachId(parts));
    if AllBlank(parts) {
      assert !SomeUnreadable(parts);
    }
  }

  lemma {:induction false} AssignmentMeaning(part: string)
    ensures ReadId(part) == AssignmentSays(part)
  {
    hide ParseInt, SignedSpelled, Cut, TrimSpace;
    var kv := Cut(TrimSpace(part), '=');
    if kv.Some? {
      SignedMeaning(TrimSpace(kv.value.0));
    }
  }

  lemma {:induction false} GatherMeaning(results: seq<IdResult>)
    ensures GatherIds(results).None? <==> exists i :: 0 <= i < |results| && results[i].BadId?
    ensures GatherIds(results).Some? ==>
              forall x :: x in GatherIds(results).value <==> exists i :: 0 <= i < |results| && results[i] == Id(x)
    ensures GatherIds(results).Some? ==>
              (GatherIds(results).value == [] <==> forall i :: 0 <= i < |results| ==> results[i].Blank?)
  {
    if results != [] {
      GatherMeaning(results[..|results| - 1]);
    }
  }
}
