/** The monitor's reading of schemata lines (mpam_util.go) and the discovery of supported
    keys (mpam_topology.go), against the lines the controller builds. */
module SchemataMonitor {
  import opened Text
  import opened Schemata

  /** Config item to domain id to value. */
  type Data = map<string, map<string, int>>

  datatype PairResult = BlankPair | KeyValue(key: string, value: int) | BadPair

  function ReadPair(part: string): PairResult {
    var p := TrimSpace(part);
    if p == "" then BlankPair
    else
      var kv := Cut(p, '=');
      if kv.None? then BadPair
      else
        var value := ReadInt(TrimSpace(kv.value.1));
        if value.None? then BadPair else KeyValue(TrimSpace(kv.value.0), value.value)
  }

  function EachPair(parts: seq<string>): (r: seq<PairResult>)
    ensures |r| == |parts| && forall i :: 0 <= i < |parts| ==> r[i] == ReadPair(parts[i])
  {
    seq(|parts|, i requires 0 <= i < |parts| => ReadPair(parts[i]))
  }

  /** addToConfigData: create the item's map on first use, then set the key. */
  function Put(data: Data, item: string, key: string, value: int): Data {
    data[item := (if item in data then data[item] else map[])[key := value]]
  }

  /** Store the pairs in order; None is the first error. */
  function Store(data: Data, item: string, pairs: seq<PairResult>): Option<Data> {
    if pairs == [] then Some(data)
    else
      var n := |pairs| - 1;
      var init := Store(data, item, pairs[..n]);
      if init.None? || pairs[n].BadPair? then None
      else if pairs[n].BlankPair? then init
      else Some(Put(init.value, item, pairs[n].key, pairs[n].value))
  }

  predicate Contains(s: string, sub: string) {
    sub <= s || (s != "" && Contains(s[1..], sub))
  }

  /** parseLine with the two config keys: an item containing the first goes to the first
      table, otherwise one containing the second goes to the second; others are only
      checked. */
  function LineData(line: string, data1: Data, key1: string, data2: Data, key2: string): Option<(Data, Data)> {
    var text := TrimSpace(line);
    if text == "" then Some((data1, data2))
    else
      var cut := Cut(text, ':');
      if cut.None? then None
      else Routed(TrimSpace(cut.value.0), EachPair(Split(TrimSpace(cut.value.1), ';')), data1, key1, data2, key2)
  }

  function Routed(item: string, pairs: seq<PairResult>, data1: Data, key1: string, data2: Data, key2: string)
    : Option<(Data, Data)>
  {
    if Contains(item, key1) then
      var stored := Store(data1, item, pairs);
      if stored.None? then None else Some((stored.value, data2))
    else if Contains(item, key2) then
      var stored := Store(data2, item, pairs);
      if stored.None? then None else Some((data1, stored.value))
    else if Store(map[], item, pairs).None? then None
    else Some((data1, data2))
  }

  method ParseLine(line: string, data1: Data, key1: string, data2: Data, key2: string) returns (r: Option<(Data, Data)>)
    ensures r == LineData(line, data1, key1, data2, key2)
  {
    hide TrimSpace, Cut, Split, Contains, ReadPair, Store;
    var text := TrimSpace(line);
    if text == "" {
      return Some((data1, data2));
    }
    var cut := Cut(text, ':');
    if cut.None? {
      return None;
    }
    var item := TrimSpace(cut.value.0);
    var parts := Split(TrimSpace(cut.value.1), ';');
    var first, second := Contains(item, key1), Contains(item, key2);
    var stored := StoreLoop(if first then data1 else if second then data2 else map[], item, parts);
    if stored.None? {
      return None;
    }
    if first {
      return Some((stored.value, data2));
    } else if second {
      return Some((data1, stored.value));
    }
    return Some((data1, data2));
  }

  method StoreLoop(start: Data, item: string, parts: seq<string>) returns (data: Option<Data>)
    ensures data == Store(start, item, EachPair(parts))
  {
    hide ReadPair;
    ghost var each := EachPair(parts);
    data := Some(start);
    for i := 0 to |parts|
      invariant data.Some? && data == Store(start, item, each[..i])
    {
      assert each[..i + 1][..i] == each[..i];
      var pair := ReadPair(parts[i]);
      if pair.BlankPair? {
        continue;
      }
      if pair.BadPair? {
        BadPairStays(start, item, each, i + 1);
        return None;
      }
      data := Some(Put(data.value, item, pair.key, pair.value));
    }
    assert each[..|parts|] == each;
  }

  lemma {:induction false} BadPairStays(data: Data, item: string, pairs: seq<PairResult>, n: nat)
    requires n <= |pairs| && Store(data, item, pairs[..n]).None?
    ensures Store(data, item, pairs).None?
  {
    if n == |pairs| {
      assert pairs[..n] == pairs;
    } else {
      assert pairs[..|pairs| - 1][..n] == pairs[..n];
      BadPairStays(data, item, pairs[..|pairs| - 1], n);
    }
  }

  /** What one pair says, and that any unreadable pair spoils the line. */
  lemma {:induction false} PairMeaning(part: string, before: string, after: string)
    requires '=' !in before
    ensures TrimSpace(part) == "" ==> ReadPair(part) == BlankPair
    ensures TrimSpace(part) != "" && '=' !in TrimSpace(part) ==> ReadPair(part) == BadPair
    ensures TrimSpace(part) == before + "=" + after ==>
              var value := ReadInt(TrimSpace(after));
              ReadPair(part) == if value.None? then BadPair else KeyValue(TrimSpace(before), value.value)
  {
    hide TrimSpace, ReadInt, Cut;
    CutMeaning(TrimSpace(part), '=');
    CutJoined(before, after, '=');
  }

  lemma {:induction false} StoreFails(data: Data, item: string, pairs: seq<PairResult>)
    ensures Store(data, item, pairs).None? <==> exists i :: 0 <= i < |pairs| && pairs[i].BadPair?
  {
    if pairs != [] {
      StoreFails(data, item, pairs[..|pairs| - 1]);
    }
  }

  // ---------- a written line reads back ----------

  /** Every id with the same value. */
  function Table(ids: seq<int>, value: int): map<string, int> {
    if ids == [] then map[] else Table(ids[..|ids| - 1], value)[FormatInt(ids[|ids| - 1]) := value]
  }

  /** The table holds exactly the ids, printed, each with the value. */
  lemma {:induction false} TableHolds(ids: seq<int>, value: int)
    ensures forall i :: 0 <= i < |ids| ==> FormatInt(ids[i]) in Table(ids, value)
    ensures forall k :: k in Table(ids, value) ==>
              Table(ids, value)[k] == value && exists i :: 0 <= i < |ids| && k == FormatInt(ids[i])
  {
    hide FormatInt;
    if ids != [] {
      TableHolds(ids[..|ids| - 1], value);
    }
  }

  lemma {:induction false} PairReadsValue(id: int, text: string, value: Option<int>)
    requires PlainValue(text) && ReadInt(text) == value
    ensures ReadPair(FormatInt(id) + ['='] + text) ==
            if value.None? then BadPair else KeyValue(FormatInt(id), value.value)
  {
    hide FormatInt, TrimSpace, Cut, ReadInt;
    PairShape(id, text);
  }

  lemma {:induction false} StoreTable(data: Data, item: string, ids: seq<int>, value: int)
    requires item !in data
    ensures Store(data, item, seq(|ids|, i requires 0 <= i < |ids| => KeyValue(FormatInt(ids[i]), value))) ==
            Some(if ids == [] then data else data[item := Table(ids, value)])
  {
    hide FormatInt;
    if ids != [] {
      var n := |ids| - 1;
      StoreTable(data, item, ids[..n], value);
      var all: seq<PairResult> := seq(|ids|, i requires 0 <= i < |ids| => KeyValue(FormatInt(ids[i]), value));
      assert all[..n] == seq(n, i requires 0 <= i < n => KeyValue(FormatInt(ids[..n][i]), value));
      var before := if n == 0 then data else data[item := Table(ids[..n], value)];
      assert Put(before, item, FormatInt(ids[n]), value) == data[item := Table(ids, value)];
    }
  }

  lemma {:induction false} StorePairs(data: Data, item: string, ids: seq<int>, text: string)
    requires item !in data && ids != [] && PlainValue(text)
    ensures var value := ReadInt(text);
            Store(data, item, EachPair(Pairs(ids, text))) ==
              if value.None? then None else Some(data[item := Table(ids, value.value)])
  {
    hide FormatInt, ReadInt, ReadPair, Table;
    var value := ReadInt(text);
    var each := EachPair(Pairs(ids, text));
    forall i | 0 <= i < |ids|
      ensures each[i] == if value.None? then BadPair else KeyValue(FormatInt(ids[i]), value.value)
    {
      PairReadsValue(ids[i], text, value);
    }
    if value.None? {
      assert each[..1] == [BadPair];
      assert Store(data, item, [BadPair]) == None;
      BadPairStays(data, item, each, 1);
    } else {
      assert each == seq(|ids|, i requires 0 <= i < |ids| => KeyValue(FormatInt(ids[i]), value.value));
      StoreTable(data, item, ids, value.value);
    }
  }

  /** The cache keys contain "L3", the memory keys "MB", and none contains both. */
  lemma {:induction false} KeysRoute(key: string)
    requires PlainKey(key)
    ensures Contains(key, "L3") <==> key[0] == 'L'
    ensures Contains(key, "MB") <==> key[0] == 'M'
  {
    PlainKeyChars(key);
    if key[0] == 'L' {
      NotInside(key, "MB", 'B');
    } else {
      NotInside(key, "L3", '3');
    }
  }

  lemma {:induction false} NotInside(s: string, sub: string, c: char)
    requires c in sub && c !in s
    ensures !Contains(s, sub)
  {
    if s != "" {
      NotInside(s[1..], sub, c);
    }
  }

  /** A written line puts its table under its key: L3 lines in the cache data, MB lines in
      the memory data; a line whose value does not read is refused. */
  lemma {:induction false} LineReadsBack(l: Line, cache: Data, memory: Data)
    requires PlainLine(l) && l.key !in cache && l.key !in memory
    ensures var value := ReadInt(l.value);
            LineData(LineText(l), cache, "L3", memory, "MB") ==
              if value.None? then None
              else if Kind(l, 'L') then Some((cache[l.key := Table(l.ids, value.value)], memory))
              else Some((cache, memory[l.key := Table(l.ids, value.value)]))
  {
    hide Join, TrimSpace, Cut, Split, Store, Table, ReadInt, Contains, FormatInt, LineText;
    var data := Join(Pairs(l.ids, l.value), ';');
    PlainKeyChars(l.key);
    LineShape(l);
    JoinedPairs(l.ids, l.value);
    TrimSpaceId(data);
    TrimSpaceId(l.key);
    PairsSplit(l.ids, l.value);
    KeysRoute(l.key);
    StorePairs(cache, l.key, l.ids, l.value);
    StorePairs(memory, l.key, l.ids, l.value);
  }

  // ---------- a written file reads back ----------

  /** Lines in order; None is the first error. */
  function FileData(lines: seq<string>): Option<(Data, Data)> {
    if lines == [] then Some((map[], map[]))
    else
      var n := |lines| - 1;
      var init := FileData(lines[..n]);
      if init.None? then None else LineData(lines[n], init.value.0, "L3", init.value.1, "MB")
  }

  ghost predicate DistinctKeys(lines: seq<Line>) {
    forall i, j :: 0 <= i < j < |lines| ==> lines[i].key != lines[j].key
  }

  function LineKeys(lines: seq<Line>): (r: seq<string>)
    ensures |r| == |lines| && forall i :: 0 <= i < |lines| ==> r[i] == lines[i].key
  {
    seq(|lines|, i requires 0 <= i < |lines| => lines[i].key)
  }

  lemma {:induction false} LineKeysStep(lines: seq<Line>)
    requires lines != []
    ensures var n := |lines| - 1;
            && LineKeys(lines) == LineKeys(lines[..n]) + [lines[n].key]
            && (DistinctKeys(lines) ==> DistinctKeys(lines[..n]) && lines[n].key !in LineKeys(lines[..n]))
  {
    var n := |lines| - 1;
    forall i: nat | i < n ensures LineKeys(lines[..n])[i] == lines[i].key {
      assert lines[..n][i] == lines[i];
    }
  }

  function Number(l: Line): Option<int> { ReadInt(l.value) }

  predicate Kind(l: Line, letter: char) { l.key != "" && l.key[0] == letter }

  /** What the lines of one kind say: 'L' for the cache, 'M' for the memory. */
  function Told(lines: seq<Line>, letter: char): Data {
    if lines == [] then map[]
    else
      var n := |lines| - 1;
      var init := Told(lines[..n], letter);
      if Kind(lines[n], letter) && Number(lines[n]).Some?
      then init[lines[n].key := Table(lines[n].ids, Number(lines[n]).value)]
      else init
  }

  predicate AllRead(lines: seq<Line>) {
    forall l :: l in lines ==> Number(l).Some?
  }

  /** With distinct keys, every line's table is there under its key, and no other key is. */
  lemma {:induction false} ToldHolds(lines: seq<Line>, letter: char)
    requires DistinctKeys(lines)
    ensures forall k :: k in Told(lines, letter) ==> k in LineKeys(lines)
    ensures forall l :: l in lines && Kind(l, letter) && Number(l).Some? ==>
              l.key in Told(lines, letter) && Told(lines, letter)[l.key] == Table(l.ids, Number(l).value)
  {
    hide Table, Number, Kind, DistinctKeys, LineKeys;
    if lines != [] {
      var n := |lines| - 1;
      var init, last := lines[..n], lines[n];
      LineKeysStep(lines);
      ToldHolds(init, letter);
      forall l | l in init ensures l.key != last.key {
        var i :| 0 <= i < n && init[i] == l;
        assert LineKeys(init)[i] == l.key;
      }
      forall l | l in lines && Kind(l, letter) && Number(l).Some?
        ensures l.key in Told(lines, letter) && Told(lines, letter)[l.key] == Table(l.ids, Number(l).value)
      {
        assert l == last || l in init;
      }
    }
  }

  /** Reading the written lines yields what they tell, or fails when a value does not read. */
  lemma {:induction false} FileReadsBack(lines: seq<Line>)
    requires DistinctKeys(lines) && forall i :: 0 <= i < |lines| ==> PlainLine(lines[i])
    ensures FileData(Texts(lines)) == if AllRead(lines) then Some((Told(lines, 'L'), Told(lines, 'M'))) else None
  {
    hide LineText, LineData, Number, Table, PlainLine, AllRead, Told, Kind, DistinctKeys;
    ToldEmpty();
    if lines != [] {
      LineKeysStep(lines);
      var n := |lines| - 1;
      var init, last := lines[..n], lines[n];
      FileReadsBack(init);
      assert Texts(lines)[..n] == Texts(init);
      AllReadSnoc(lines);
      if AllRead(init) {
        FileStep(lines);
      }
    }
  }

  lemma {:induction false} ToldEmpty()
    ensures Told([], 'L') == map[] && Told([], 'M') == map[] && AllRead([])
  {
  }

  lemma {:induction false} AllReadSnoc(lines: seq<Line>)
    requires lines != []
    ensures AllRead(lines) <==> AllRead(lines[..|lines| - 1]) && Number(lines[|lines| - 1]).Some?
  {
    hide Number;
    assert lines == lines[..|lines| - 1] + [lines[|lines| - 1]];
  }

  lemma {:induction false} FileStep(lines: seq<Line>)
    requires lines != [] && DistinctKeys(lines) && PlainLine(lines[|lines| - 1])
    ensures var n := |lines| - 1;
            LineData(LineText(lines[n]), Told(lines[..n], 'L'), "L3", Told(lines[..n], 'M'), "MB") ==
              if Number(lines[n]).None? then None else Some((Told(lines, 'L'), Told(lines, 'M')))
  {
    hide LineText, LineData, ReadInt, Table, DistinctKeys, LineKeys;
    var n := |lines| - 1;
    LineKeysStep(lines);
    ToldHolds(lines[..n], 'L');
    ToldHolds(lines[..n], 'M');
    PlainKeyChars(lines[n].key);
    LineReadsBack(lines[n], Told(lines[..n], 'L'), Told(lines[..n], 'M'));
  }

  /** Keys of built lines are all different. */
  lemma {:induction false} SupportedDistinct(lines: seq<Line>, supported: Option<set<string>>)
    requires DistinctKeys(lines)
    ensures DistinctKeys(Supported(lines, supported))
  {
    if lines != [] {
      var n := |lines| - 1;
      SupportedDistinct(lines[..n], supported);
      var init := Supported(lines[..n], supported);
      forall i | 0 <= i < |init| ensures init[i].key != lines[n].key {
        assert init[i] in lines[..n];
        var j :| 0 <= j < n && lines[..n][j] == init[i];
        assert lines[j].key != lines[n].key;
      }
    }
  }

  lemma {:induction false} EightDistinct(c: Config, numaIDs: seq<int>, cacheIDs: seq<int>, mask: string)
    ensures DistinctKeys(AllLines(c, numaIDs, cacheIDs, mask))
  {
    hide FormatInt;
  }

  /** The value a written line stands for. */
  function Meant(c: Config, key: string): int {
    if key == "MBHDL" then c.mbhdl else if key == "MBPRI" then c.mbpri else if key == "MBMIN" then c.mbmin
    else if key == "MB" then c.mb else if key == "L3PRI" then c.l3pri else if key == "L3MIN" then c.l3min
    else if key == "L3MAX" then c.l3max else if c.l3 >= 0 then Pow2(c.l3) - 1 else 0
  }

  lemma {:induction false} ValuesRead(c: Config, numaIDs: seq<int>, cacheIDs: seq<int>, l: Line)
    requires c.Valid() && c.l3 >= 1 && l in AllLines(c, numaIDs, cacheIDs, WaysToHexMask(c.l3).value)
    ensures ReadInt(l.value) == if l.key == "L3" && c.l3 > 63 then None else Some(Meant(c, l.key))
  {
    hide FormatInt, ReadInt, Format, Pow2;
    MaskReadsBack(c.l3);
    NumberReadsBack(c.mbhdl);
    NumberReadsBack(c.mbpri);
    NumberReadsBack(c.mbmin);
    NumberReadsBack(c.mb);
    NumberReadsBack(c.l3pri);
    NumberReadsBack(c.l3min);
    NumberReadsBack(c.l3max);
  }

  /** Of the lines a configuration is built into, the monitor reads every value back, and it
      refuses them exactly when there is an L3 line of more than 63 ways. */
  lemma {:induction false} BuiltLinesReadBack(
      c: Config, numaIDs: seq<int>, cacheIDs: seq<int>, supported: Option<set<string>>)
    requires c.Valid() && c.l3 >= 1 && numaIDs != [] && cacheIDs != [] && AllInt64(numaIDs) && AllInt64(cacheIDs)
    ensures var lines := BuiltLines(c, numaIDs, cacheIDs, supported);
            var read := FileData(Texts(lines));
            && (read.None? <==> c.l3 > 63 && exists l :: l in lines && l.key == "L3")
            && (read.Some? ==> forall l :: l in lines ==>
                  Shows(if Kind(l, 'L') then read.value.0 else read.value.1, l, Meant(c, l.key)))
  {
    hide BuiltLines, ReadInt, Table, FileData, PlainLine, Meant, Told, Texts, DistinctKeys, Kind;
    var lines := BuiltLines(c, numaIDs, cacheIDs, supported);
    BuiltNumbers(c, numaIDs, cacheIDs, supported);
    FileReadsBack(lines);
    ToldHolds(lines, 'L');
    ToldHolds(lines, 'M');
    forall l | l in lines ensures Kind(l, 'L') || Kind(l, 'M') {
      LineKind(l);
    }
  }

  lemma {:induction false} BuiltNumbers(
      c: Config, numaIDs: seq<int>, cacheIDs: seq<int>, supported: Option<set<string>>)
    requires c.Valid() && c.l3 >= 1 && numaIDs != [] && cacheIDs != [] && AllInt64(numaIDs) && AllInt64(cacheIDs)
    ensures var lines := BuiltLines(c, numaIDs, cacheIDs, supported);
            && DistinctKeys(lines)
            && forall l :: l in lines ==>
                 && PlainLine(l) && l.key != ""
                 && Number(l) == if l.key == "L3" && c.l3 > 63 then None else Some(Meant(c, l.key))
  {
    hide FormatInt, ReadInt, Format, Pow2, AllLines, Supported, PlainLine, Meant, DistinctKeys;
    var all := AllLines(c, numaIDs, cacheIDs, WaysToHexMask(c.l3).value);
    var lines := BuiltLines(c, numaIDs, cacheIDs, supported);
    BuiltLinesPlain(c, numaIDs, cacheIDs, supported);
    EightDistinct(c, numaIDs, cacheIDs, WaysToHexMask(c.l3).value);
    SupportedDistinct(all, supported);
    forall l | l in lines
      ensures l.key != "" && Number(l) == if l.key == "L3" && c.l3 > 63 then None else Some(Meant(c, l.key))
    {
      ValuesRead(c, numaIDs, cacheIDs, l);
      LineKind(l);
    }
  }

  /** The data holds the value for every id of the line, under the line's key. */
  predicate Shows(data: Data, l: Line, value: int) {
    l.key in data && data[l.key] == Table(l.ids, value)
  }

  lemma {:induction false} LineKind(l: Line)
    requires PlainLine(l)
    ensures l.key != "" && l.key[0] in ['L', 'M'] && Kind(l, l.key[0])
  {
    PlainKeyChars(l.key);
  }

  // ---------- from the file's content ----------

  /** The longest line bufio.Scanner delivers: its buffer of 64 KiB also holds the line end. */
  const MAX_LINE := 65535

  function DropCR(line: string): string {
    if line != "" && line[|line| - 1] == '\r' then line[..|line| - 1] else line
  }

  /** bufio.ScanLines before carriage returns are dropped: nothing follows the last line end. */
  function RawLines(content: string): (r: seq<string>)
    ensures r <= Split(content, '\n')
  {
    var lines := Split(content, '\n');
    if lines[|lines| - 1] == "" then lines[..|lines| - 1] else lines
  }

  function DropAll(lines: seq<string>): (r: seq<string>)
    ensures |r| == |lines| && forall i :: 0 <= i < |lines| ==> r[i] == DropCR(lines[i])
  {
    seq(|lines|, i requires 0 <= i < |lines| => DropCR(lines[i]))
  }

  predicate SomeTooLong(lines: seq<string>) { exists i :: 0 <= i < |lines| && |lines[i]| > MAX_LINE }

  /** getMPAMConfigData on the content of the file; None is any of its errors. */
  function ReadContent(content: string): Option<(Data, Data)> {
    var lines := RawLines(content);
    if SomeTooLong(lines) then None else FileData(DropAll(lines))
  }

  method GetMPAMConfigData(content: string) returns (r: Option<(Data, Data)>)
    ensures r == ReadContent(content)
  {
    hide LineData, Split;
    var lines := RawLines(content);
    var cache: Data, memory: Data := map[], map[];
    for i := 0 to |lines|
      invariant !SomeTooLong(lines[..i])
      invariant FileData(DropAll(lines)[..i]) == Some((cache, memory))
    {
      assert DropAll(lines)[..i + 1][..i] == DropAll(lines)[..i];
      if |lines[i]| > MAX_LINE {
        return None;
      }
      var read := ParseLine(DropCR(lines[i]), cache, "L3", memory, "MB");
      if read.None? {
        BadLineStays(DropAll(lines), i + 1);
        return None;
      }
      cache, memory := read.value.0, read.value.1;
    }
    assert lines[..|lines|] == lines;
    assert DropAll(lines)[..|lines|] == DropAll(lines);
    return Some((cache, memory));
  }

  lemma {:induction false} BadLineStays(lines: seq<string>, n: nat)
    requires n <= |lines| && FileData(lines[..n]).None?
    ensures FileData(lines).None?
  {
    hide LineData;
    if n == |lines| {
      assert lines[..n] == lines;
    } else {
      assert lines[..|lines| - 1][..n] == lines[..n];
      BadLineStays(lines[..|lines| - 1], n);
    }
  }

  /** The written content scans to the written lines. */
  lemma {:induction false} ContentScans(lines: seq<Line>)
    requires forall i :: 0 <= i < |lines| ==> PlainLine(lines[i])
    ensures RawLines(FileText(lines)) == Texts(lines) && DropAll(Texts(lines)) == Texts(lines)
  {
    hide LineText, PlainLine, Join, Split, TrimSpace;
    forall i | 0 <= i < |lines| ensures Texts(lines)[i] != "" && DropCR(Texts(lines)[i]) == Texts(lines)[i] {
      LineShape(lines[i]);
    }
    if lines == [] {
      NoLines();
    } else {
      FileSplits(lines);
    }
  }

  lemma {:induction false} NoLines()
    ensures FileText([]) == "" && Split("", '\n') == [""]
  {
    hide LineText;
  }

  /** MAIN: from the written file the monitor reads every value back, for every id, under the
      line's key; the file is refused exactly when it has an L3 line of more than 63 ways or
      a line longer than the scanner takes. */
  lemma {:induction false} MonitorReadsBack(
      c: Config, numaIDs: seq<int>, cacheIDs: seq<int>, supported: Option<set<string>>)
    requires c.Valid() && c.l3 >= 1 && numaIDs != [] && cacheIDs != [] && AllInt64(numaIDs) && AllInt64(cacheIDs)
    ensures var lines := BuiltLines(c, numaIDs, cacheIDs, supported);
            var read := ReadContent(FileText(lines));
            && (read.None? <==>
                  || (c.l3 > 63 && exists l :: l in lines && l.key == "L3")
                  || exists l :: l in lines && |LineText(l)| > MAX_LINE)
            && (read.Some? ==> forall l :: l in lines ==>
                  Shows(if Kind(l, 'L') then read.value.0 else read.value.1, l, Meant(c, l.key)))
  {
    hide BuiltLines, FileData, FileText, LineText, PlainLine, Meant, Kind, Shows, RawLines;
    var lines := BuiltLines(c, numaIDs, cacheIDs, supported);
    BuiltLinesPlain(c, numaIDs, cacheIDs, supported);
    BuiltLinesReadBack(c, numaIDs, cacheIDs, supported);
    ContentScans(lines);
    if SomeTooLong(Texts(lines)) {
      var i :| 0 <= i < |lines| && |Texts(lines)[i]| > MAX_LINE;
      assert lines[i] in lines;
    }
    forall l | l in lines && |LineText(l)| > MAX_LINE ensures SomeTooLong(Texts(lines)) {
      var i :| 0 <= i < |lines| && lines[i] == l;
      assert |Texts(lines)[i]| > MAX_LINE;
    }
  }

  // ---------- discovering the keys ----------

  /** The keys of the lines in order of first appearance. */
  function KeysOf(lines: seq<string>): seq<string> {
    if lines == [] then []
    else
      var n := |lines| - 1;
      var init := KeysOf(lines[..n]);
      var cut := Cut(TrimSpace(lines[n]), ':');
      if cut.None? || TrimSpace(cut.value.0) == "" || TrimSpace(cut.value.0) in init then init
      else init + [TrimSpace(cut.value.0)]
  }

  method ParseSchemataKeys(content: string) returns (r: Result<seq<string>>)
    ensures r == var keys := KeysOf(Split(content, '\n')); if keys == [] then Err(NoKeys) else Ok(keys)
  {
    hide TrimSpace, Cut, Split;
    var lines := Split(content, '\n');
    var keys: seq<string> := [];
    var seen: set<string> := {};
    EmptyCut();
    for i := 0 to |lines|
      invariant keys == KeysOf(lines[..i])
      invariant forall k :: k in seen <==> k in keys
    {
      assert lines[..i + 1][..i] == lines[..i];
      var line := TrimSpace(lines[i]);
      if line == "" {
        continue;
      }
      var cut := Cut(line, ':');
      if cut.None? {
        continue;
      }
      var key := TrimSpace(cut.value.0);
      if key == "" {
        continue;
      }
      if key in seen {
        continue;
      }
      seen := seen + {key};
      keys := keys + [key];
    }
    assert lines[..|lines|] == lines;
    if keys == [] {
      return Err(NoKeys);
    }
    return Ok(keys);
  }

  lemma {:induction false} EmptyCut()
    ensures Cut("", ':') == None
  {
  }

  lemma {:induction false} KeysOfTexts(lines: seq<Line>)
    requires DistinctKeys(lines) && forall i :: 0 <= i < |lines| ==> PlainLine(lines[i])
    ensures KeysOf(Texts(lines)) == LineKeys(lines)
  {
    hide TrimSpace, Cut, LineText, DistinctKeys, PlainLine, LineKeys;
    if lines != [] {
      var n := |lines| - 1;
      LineKeysStep(lines);
      KeysOfTexts(lines[..n]);
      assert Texts(lines)[..n] == Texts(lines[..n]);
      KeyIsRead(lines[n]);
    }
  }

  lemma {:induction false} KeyIsRead(l: Line)
    requires PlainLine(l)
    ensures var cut := Cut(TrimSpace(LineText(l)), ':');
            cut.Some? && TrimSpace(cut.value.0) == l.key && l.key != ""
  {
    hide TrimSpace, Cut, LineText;
    LineShape(l);
    PlainKeyChars(l.key);
    TrimSpaceId(l.key);
  }

  /** MAIN: from the written file exactly the keys of the written lines are discovered, in
      order. */
  lemma {:induction false} KeysReadBack(
      c: Config, numaIDs: seq<int>, cacheIDs: seq<int>, supported: Option<set<string>>)
    requires c.l3 >= 1 && numaIDs != [] && cacheIDs != [] && AllInt64(numaIDs) && AllInt64(cacheIDs)
    requires BuiltLines(c, numaIDs, cacheIDs, supported) != []
    ensures var lines := BuiltLines(c, numaIDs, cacheIDs, supported);
            KeysOf(Split(FileText(lines), '\n')) == LineKeys(lines)
  {
    hide FormatInt, Format, Pow2, AllLines, Supported, PlainLine, FileText, Split, KeysOf;
    var mask := WaysToHexMask(c.l3).value;
    var lines := BuiltLines(c, numaIDs, cacheIDs, supported);
    BuiltLinesPlain(c, numaIDs, cacheIDs, supported);
    EightDistinct(c, numaIDs, cacheIDs, mask);
    SupportedDistinct(AllLines(c, numaIDs, cacheIDs, mask), supported);
    FileSplits(lines);
    KeysOfTexts(lines);
  }

  // ---------- padded lines ----------

  lemma {:induction false} PaddedKeys(lines: seq<string>, padded: seq<string>)
    requires AllPadded(lines, padded)
    ensures KeysOf(padded) == KeysOf(lines)
  {
    hide TrimSpace, Cut, Padded;
    if lines != [] {
      var n := |lines| - 1;
      PaddedKeys(lines[..n], padded[..n]);
      PaddingIsTrimmed(lines[n], padded[n]);
    }
  }

  lemma {:induction false} PaddedData(lines: seq<string>, padded: seq<string>)
    requires AllPadded(lines, padded)
    ensures FileData(padded) == FileData(lines)
  {
    hide TrimSpace, Cut, Padded, Routed, EachPair, Split;
    if lines != [] {
      var n := |lines| - 1;
      PaddedData(lines[..n], padded[..n]);
      PaddingIsTrimmed(lines[n], padded[n]);
    }
  }

  /** MAIN: padding the written lines changes neither the keys that are discovered nor the data
      that are read. */
  lemma {:induction false} PaddedReadsBack(
      c: Config, numaIDs: seq<int>, cacheIDs: seq<int>, supported: Option<set<string>>, padded: seq<string>)
    requires c.l3 >= 1 && numaIDs != [] && cacheIDs != [] && AllInt64(numaIDs) && AllInt64(cacheIDs)
    requires BuiltLines(c, numaIDs, cacheIDs, supported) != []
    requires AllPadded(Texts(BuiltLines(c, numaIDs, cacheIDs, supported)), padded)
    ensures var lines := BuiltLines(c, numaIDs, cacheIDs, supported);
            && KeysOf(Split(Join(padded, '\n'), '\n')) == LineKeys(lines)
            && FileData(padded) == FileData(Texts(lines))
  {
    hide BuiltLines, AllPadded, Join, Split, KeysOf, FileData;
    var lines := BuiltLines(c, numaIDs, cacheIDs, supported);
    KeysReadBack(c, numaIDs, cacheIDs, supported);
    BuiltLinesPlain(c, numaIDs, cacheIDs, supported);
    FileSplits(lines);
    PaddedSplits(Texts(lines), padded);
    PaddedKeys(Texts(lines), padded);
    PaddedData(Texts(lines), padded);
  }
}
