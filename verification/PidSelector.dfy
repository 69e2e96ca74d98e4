/** The PID selector of devkit_selector.go: sorted, deduplicated process ids. */
module PidSelector {
  import opened Text
  import opened Sorting
  import opened Selector
  import Intervals

  predicate Less(a: nat, b: nat) { a < b }

  function ParsePid(element: string, maxPID: nat): (r: Result<nat>)
    ensures r.Ok? ==> 1 <= r.value <= maxPID
  {
    var value := ParseUnsigned(element);
    if value.Err? then value
    else if value.value == 0 || value.value > maxPID then Err(OutOfRange)
    else value
  }

  function ParsePids(elements: seq<string>, maxPID: nat): (r: Result<seq<nat>>)
    ensures r.Ok? ==> |r.value| == |elements|
    ensures r.Ok? ==> forall i :: 0 <= i < |elements| ==> ParsePid(elements[i], maxPID) == Ok(r.value[i])
  {
    if elements == [] then Ok([])
    else
      var n := |elements| - 1;
      var init := ParsePids(elements[..n], maxPID);
      if init.Err? then init
      else
        var last := ParsePid(elements[n], maxPID);
        if last.Err? then Err(last.reason) else Ok(init.value + [last.value])
  }

  lemma {:induction false} ParsePrefixError(elements: seq<string>, n: nat, maxPID: nat)
    requires n <= |elements| && ParsePids(elements[..n], maxPID).Err?
    ensures ParsePids(elements, maxPID) == ParsePids(elements[..n], maxPID)
  {
    if n == |elements| {
      assert elements[..n] == elements;
    } else {
      var init := elements[..|elements| - 1];
      assert init[..n] == elements[..n];
      ParsePrefixError(init, n, maxPID);
    }
  }

  lemma {:induction false} ParsePidsExact(elements: seq<string>, pids: seq<nat>, maxPID: nat)
    requires |elements| == |pids|
    requires forall i :: 0 <= i < |elements| ==> ParsePid(elements[i], maxPID) == Ok(pids[i])
    ensures ParsePids(elements, maxPID) == Ok(pids)
  {
    if elements != [] {
      var n := |elements| - 1;
      ParsePidsExact(elements[..n], pids[..n], maxPID);
      assert pids == pids[..n] + [pids[n]];
    }
  }

  /** Drop every value equal to its predecessor. */
  function Dedup(s: seq<nat>): (r: seq<nat>)
    ensures |r| <= |s|
    ensures s != [] ==> r != [] && r[|r| - 1] == s[|s| - 1]
  {
    if |s| <= 1 then s
    else
      var n := |s| - 1;
      if s[n] == s[n - 1] then Dedup(s[..n]) else Dedup(s[..n]) + [s[n]]
  }

  function RenderAll(s: seq<nat>): (r: seq<string>)
    ensures |r| == |s|
    ensures forall i :: 0 <= i < |s| ==> r[i] == Format(s[i], Decimal)
  {
    if s == [] then [] else RenderAll(s[..|s| - 1]) + [Format(s[|s| - 1], Decimal)]
  }

  function CanonicalPID(raw: string, maxPID: nat): Result<string> {
    var problem := SizeProblem(raw, MAX_PID_SELECTOR_CHARACTERS, MAX_PID_SELECTOR_ELEMENTS);
    if problem.Some? then Err(problem.value)
    else
      var parsed := ParsePids(Split(raw, ','), maxPID);
      if parsed.Err? then Err(parsed.reason)
      else Ok(Join(RenderAll(Dedup(Sort(Less, parsed.value))), ','))
  }

  // ---------- meaning ----------

  /** The text lists process id v. */
  ghost predicate Lists(raw: string, v: nat) {
    exists i :: 0 <= i < |Split(raw, ',')| && IsNumeral(Split(raw, ',')[i]) && Numeral(Split(raw, ',')[i]) == v
  }

  /** The element is a numeral from 1 to the maximum. */
  predicate ElementFits(element: string, maxPID: nat) {
    IsNumeral(element) && 1 <= Numeral(element) <= maxPID
  }

  lemma {:induction false} ElementsAccepted(elements: seq<string>, maxPID: nat)
    requires maxPID <= Intervals.MAX_UINT64
    ensures ParsePids(elements, maxPID).Ok? <==> forall i :: 0 <= i < |elements| ==> ElementFits(elements[i], maxPID)
  {
    hide ParseUnsigned, Numeral;
    if elements != [] {
      var n := |elements| - 1;
      ElementsAccepted(elements[..n], maxPID);
      ParseUnsignedMeaning(elements[n], if IsNumeral(elements[n]) then Numeral(elements[n]) else 0);
    }
  }

  /** MAIN: a text is accepted exactly when it has 1 to 512 characters and at most 32
      elements, each a numeral from 1 to the maximum. */
  lemma {:induction false} AcceptedIff(raw: string, maxPID: nat)
    requires maxPID <= Intervals.MAX_UINT64
    ensures CanonicalPID(raw, maxPID).Ok? <==>
              && 1 <= |raw| <= 512 && |Split(raw, ',')| <= 32
              && forall i :: 0 <= i < |Split(raw, ',')| ==> ElementFits(Split(raw, ',')[i], maxPID)
  {
    hide Split, Count, ParsePids, ElementFits, Sort, Dedup, RenderAll, Join;
    SplitCount(raw, ',');
    ElementsAccepted(Split(raw, ','), maxPID);
  }

  predicate Ascending(s: seq<nat>) {
    forall i, j :: 0 <= i < j < |s| ==> s[i] < s[j]
  }

  predicate Ordered(s: seq<nat>) {
    forall i, j :: 0 <= i < j < |s| ==> s[i] <= s[j]
  }

  lemma {:induction false} AscendingSnoc(s: seq<nat>, x: nat)
    requires Ascending(s) && (s == [] || s[|s| - 1] < x)
    ensures Ascending(s + [x])
  {
  }

  lemma {:induction false} DedupMeaning(s: seq<nat>)
    requires Ordered(s)
    ensures Ascending(Dedup(s))
    ensures forall v :: v in Dedup(s) <==> v in s
  {
    if |s| > 1 {
      var n := |s| - 1;
      var init := Dedup(s[..n]);
      DedupMeaning(s[..n]);
      assert s == s[..n] + [s[n]];
      assert forall v :: v in s <==> v in s[..n] || v == s[n];
      assert init[|init| - 1] == s[n - 1];
      if s[n] == s[n - 1] {
        assert s[n - 1] in s[..n];
      } else {
        AscendingSnoc(init, s[n]);
      }
    }
  }

  lemma {:induction false} AscendingUnique(a: seq<nat>, b: seq<nat>)
    requires Ascending(a) && Ascending(b)
    requires forall v :: v in a <==> v in b
    ensures a == b
  {
    if a != [] || b != [] {
      assert a != [] ==> a[0] in b;
      assert b != [] ==> b[0] in a;
      assert a[0] == b[0];
      forall v ensures v in a[1..] <==> v in b[1..] {
        assert v in a[1..] <==> v in a && v != a[0];
        assert v in b[1..] <==> v in b && v != b[0];
      }
      AscendingUnique(a[1..], b[1..]);
      assert a == [a[0]] + a[1..] && b == [b[0]] + b[1..];
    }
  }

  function Canonical(pids: seq<nat>): seq<nat> {
    Dedup(Sort(Less, pids))
  }

  lemma {:induction false} CanonicalMeaning(pids: seq<nat>)
    ensures Ascending(Canonical(pids))
    ensures forall v :: v in Canonical(pids) <==> v in pids
    ensures |Canonical(pids)| <= |pids|
    ensures pids != [] ==> Canonical(pids) != []
  {
    var sorted := Sort(Less, pids);
    SortSorted(Less, pids);
    SortMultiset(Less, pids);
    SameElements(sorted, pids);
    forall i, j | 0 <= i < j < |sorted| ensures sorted[i] <= sorted[j] {
      assert !Less(sorted[j], sorted[i]);
    }
    DedupMeaning(sorted);
  }

  lemma {:induction false} ParsedLists(raw: string, maxPID: nat, v: nat)
    requires ParsePids(Split(raw, ','), maxPID).Ok?
    ensures v in ParsePids(Split(raw, ','), maxPID).value <==> Lists(raw, v)
  {
    var elements := Split(raw, ',');
    var pids := ParsePids(elements, maxPID).value;
    hide ParseUnsigned, Numeral;
    forall i | 0 <= i < |elements| ensures IsNumeral(elements[i]) && Numeral(elements[i]) == pids[i] {
      assert ParsePid(elements[i], maxPID) == Ok(pids[i]);
      ParseUnsignedMeaning(elements[i], pids[i]);
    }
  }

  lemma {:induction false} RenderRoundTrip(pids: seq<nat>, maxPID: nat)
    requires pids != [] && maxPID <= Intervals.MAX_UINT64
    requires forall i :: 0 <= i < |pids| ==> 1 <= pids[i] <= maxPID
    ensures Split(Join(RenderAll(pids), ','), ',') == RenderAll(pids)
    ensures ParsePids(RenderAll(pids), maxPID) == Ok(pids)
  {
    var parts := RenderAll(pids);
    forall i | 0 <= i < |pids| ensures ',' !in parts[i] && ParsePid(parts[i], maxPID) == Ok(pids[i]) {
      FormatHasNoSeparator(pids[i]);
      ParseFormatted(pids[i]);
    }
    SplitJoin(parts, ',');
    ParsePidsExact(parts, pids, maxPID);
  }

  /** What an accepted text is reduced to: its process ids, ascending, each once. */
  lemma {:induction false} AcceptedMeaning(raw: string, maxPID: nat) returns (pids: seq<nat>)
    requires CanonicalPID(raw, maxPID).Ok?
    ensures CanonicalPID(raw, maxPID) == Ok(Join(RenderAll(pids), ','))
    ensures ParsePids(Split(raw, ','), maxPID).Ok?
    ensures pids == Canonical(ParsePids(Split(raw, ','), maxPID).value)
    ensures pids != [] && Ascending(pids)
    ensures forall v :: v in pids <==> Lists(raw, v)
    ensures forall i :: 0 <= i < |pids| ==> 1 <= pids[i] <= maxPID
  {
    var parsed := ParsePids(Split(raw, ','), maxPID).value;
    pids := Canonical(parsed);
    CanonicalMeaning(parsed);
    forall v ensures v in parsed <==> Lists(raw, v) {
      ParsedLists(raw, maxPID, v);
    }
    forall i | 0 <= i < |pids| ensures 1 <= pids[i] <= maxPID {
      assert pids[i] in parsed;
      var j :| 0 <= j < |parsed| && parsed[j] == pids[i];
      assert ParsePid(Split(raw, ',')[j], maxPID) == Ok(parsed[j]);
    }
  }

  lemma {:induction false} RenderAllInjective(a: seq<nat>, b: seq<nat>)
    requires RenderAll(a) == RenderAll(b)
    ensures a == b
  {
    forall i | 0 <= i < |a| ensures a[i] == b[i] {
      assert RenderAll(a)[i] == RenderAll(b)[i];
      FormatInjective(a[i], b[i], Decimal);
    }
  }

  /** MAIN: canonical PID texts are equal exactly when the raw texts list the same ids. */
  lemma {:induction false} CanonicalPIDIffSameSet(raw1: string, max1: nat, raw2: string, max2: nat)
    requires max1 <= Intervals.MAX_UINT64 && max2 <= Intervals.MAX_UINT64
    requires CanonicalPID(raw1, max1).Ok? && CanonicalPID(raw2, max2).Ok?
    ensures CanonicalPID(raw1, max1) == CanonicalPID(raw2, max2)
       <==> forall v :: Lists(raw1, v) <==> Lists(raw2, v)
  {
    hide CanonicalPID, Join, RenderAll, Lists, ParsePids, Canonical, Split;
    var p1 := AcceptedMeaning(raw1, max1);
    var p2 := AcceptedMeaning(raw2, max2);
    RenderRoundTrip(p1, max1);
    RenderRoundTrip(p2, max2);
    if CanonicalPID(raw1, max1) == CanonicalPID(raw2, max2) {
      RenderAllInjective(p1, p2);
    }
    if forall v :: Lists(raw1, v) <==> Lists(raw2, v) {
      AscendingUnique(p1, p2);
    }
  }

  // ---------- size of the canonical text ----------

  /** Characters needed to print the ids, each with one separator. */
  function Cost(s: seq<nat>): nat {
    if s == [] then 0 else Cost(s[..|s| - 1]) + |Format(s[|s| - 1], Decimal)| + 1
  }

  lemma {:induction false} CostSnoc(s: seq<nat>, x: nat)
    ensures Cost(s + [x]) == Cost(s) + |Format(x, Decimal)| + 1
  {
    assert (s + [x])[..|s|] == s;
  }

  lemma {:induction false} RenderCost(s: seq<nat>)
    requires s != []
    ensures |Join(RenderAll(s), ',')| + 1 == Cost(s)
  {
    hide Format;
    var init, last := s[..|s| - 1], s[|s| - 1];
    if init != [] {
      RenderCost(init);
      JoinSnoc(RenderAll(init), Format(last, Decimal), ',');
    } else {
      assert RenderAll(s) == [Format(last, Decimal)];
    }
  }

  lemma {:induction false} InsertCost(x: nat, s: seq<nat>)
    ensures Cost(Insert(Less, x, s)) == Cost(s) + |Format(x, Decimal)| + 1
  {
    hide Format;
    if |s| > 0 && Less(x, s[|s| - 1]) {
      InsertCost(x, s[..|s| - 1]);
      CostSnoc(Insert(Less, x, s[..|s| - 1]), s[|s| - 1]);
    } else {
      CostSnoc(s, x);
    }
  }

  lemma {:induction false} SortCost(s: seq<nat>)
    ensures Cost(Sort(Less, s)) == Cost(s)
  {
    hide Format, Insert;
    if s != [] {
      SortCost(s[..|s| - 1]);
      InsertCost(s[|s| - 1], Sort(Less, s[..|s| - 1]));
    }
  }

  lemma {:induction false} DedupCost(s: seq<nat>)
    ensures Cost(Dedup(s)) <= Cost(s)
  {
    hide Format;
    if |s| > 1 {
      DedupCost(s[..|s| - 1]);
      CostSnoc(Dedup(s[..|s| - 1]), s[|s| - 1]);
    }
  }

  lemma {:induction false} ParsedCost(elements: seq<string>, maxPID: nat)
    requires elements != [] && ParsePids(elements, maxPID).Ok?
    ensures Cost(ParsePids(elements, maxPID).value) <= |Join(elements, ',')| + 1
  {
    hide Format, ParseUnsigned;
    var n := |elements| - 1;
    var init, last := elements[..n], elements[n];
    ParsedIsNoShorter(last);
    assert elements == init + [last];
    var rest := ParsePids(init, maxPID).value;
    CostSnoc(rest, ParsePid(last, maxPID).value);
    if n > 0 {
      ParsedCost(init, maxPID);
      JoinSnoc(init, last, ',');
    } else {
      assert rest == [];
    }
  }

  /** The canonical text has no more characters and no more elements than the raw text. */
  lemma {:induction false} CanonicalPIDLength(raw: string, maxPID: nat)
    requires maxPID <= Intervals.MAX_UINT64 && CanonicalPID(raw, maxPID).Ok?
    ensures var canonical := CanonicalPID(raw, maxPID).value;
            && 1 <= |canonical| <= |raw|
            && Count(canonical, ',') <= Count(raw, ',')
  {
    hide CanonicalPID, Join, Split, RenderAll, ParsePids, Lists, Count;
    var pids := AcceptedMeaning(raw, maxPID);
    var parsed := ParsePids(Split(raw, ','), maxPID).value;
    JoinSplit(raw, ',');
    ParsedCost(Split(raw, ','), maxPID);
    SortCost(parsed);
    DedupCost(Sort(Less, parsed));
    CanonicalMeaning(parsed);
    RenderCost(pids);
    RenderRoundTrip(pids, maxPID);
    SplitCount(raw, ',');
    SplitCount(Join(RenderAll(pids), ','), ',');
    CostAtLeastTwo(pids);
  }

  lemma {:induction false} CostAtLeastTwo(s: seq<nat>)
    requires s != []
    ensures Cost(s) >= 2
  {
  }

  /** MAIN: the canonical PID text passes the same limits and bound as the raw text and is its
      own canonical form. */
  lemma {:induction false} CanonicalPIDIdempotent(raw: string, maxPID: nat)
    requires maxPID <= Intervals.MAX_UINT64 && CanonicalPID(raw, maxPID).Ok?
    ensures var canonical := CanonicalPID(raw, maxPID).value;
            CanonicalPID(canonical, maxPID) == Ok(canonical)
  {
    hide Join, Split, RenderAll, ParsePids, Lists, Count, Sort, Dedup, Ascending, SizeProblem;
    var pids := AcceptedMeaning(raw, maxPID);
    CanonicalPIDLength(raw, maxPID);
    RenderRoundTrip(pids, maxPID);
    CanonicalMeaning(pids);
    AscendingUnique(Canonical(pids), pids);
    var canonical := CanonicalPID(raw, maxPID).value;
    SmallerPasses(raw, canonical, MAX_PID_SELECTOR_CHARACTERS, MAX_PID_SELECTOR_ELEMENTS);
  }

  // ---------- the code's own loops ----------

  method ParsePidList(elements: seq<string>, maxPID: nat) returns (r: Result<seq<nat>>)
    ensures r == ParsePids(elements, maxPID)
  {
    var values: seq<nat> := [];
    for i := 0 to |elements|
      invariant ParsePids(elements[..i], maxPID) == Ok(values)
    {
      var one := ParsePid(elements[i], maxPID);
      assert elements[..i + 1][..i] == elements[..i];
      if one.Err? {
        ParsePrefixError(elements, i + 1, maxPID);
        return Err(one.reason);
      }
      values := values + [one.value];
    }
    assert elements[..|elements|] == elements;
    return Ok(values);
  }

  lemma {:induction false} DedupSnoc(s: seq<nat>, x: nat)
    ensures Dedup(s + [x]) == if s != [] && s[|s| - 1] == x then Dedup(s) else Dedup(s) + [x]
  {
    assert (s + [x])[..|s|] == s;
  }

  lemma {:induction false} RenderAllSnoc(s: seq<nat>, x: nat)
    ensures RenderAll(s + [x]) == RenderAll(s) + [Format(x, Decimal)]
  {
    assert (s + [x])[..|s|] == s;
  }

  lemma {:induction false} DedupEmpty()
    ensures RenderAll(Dedup([])) == []
  {
  }

  /** The printing loop: skip every value equal to the one printed last. */
  method PrintDistinct(sorted: seq<nat>) returns (parts: seq<string>)
    ensures parts == RenderAll(Dedup(sorted))
  {
    hide Format, Dedup, RenderAll;
    DedupEmpty();
    parts := [];
    var previous := 0;
    for i := 0 to |sorted|
      invariant parts == RenderAll(Dedup(sorted[..i]))
      invariant i > 0 ==> previous == sorted[i - 1]
    {
      assert sorted[..i + 1] == sorted[..i] + [sorted[i]];
      DedupSnoc(sorted[..i], sorted[i]);
      if i > 0 && sorted[i] == previous {
        continue;
      }
      RenderAllSnoc(Dedup(sorted[..i]), sorted[i]);
      parts := parts + [Format(sorted[i], Decimal)];
      previous := sorted[i];
    }
    assert sorted[..|sorted|] == sorted;
  }

  method CanonicalizePIDSelector(raw: string, maxPID: nat) returns (r: Result<string>)
    ensures r == CanonicalPID(raw, maxPID)
  {
    var problem := SizeProblem(raw, MAX_PID_SELECTOR_CHARACTERS, MAX_PID_SELECTOR_ELEMENTS);
    if problem.Some? {
      return Err(problem.value);
    }
    var parsed := ParsePidList(Split(raw, ','), maxPID);
    if parsed.Err? {
      return Err(parsed.reason);
    }
    var values := parsed.value;
    var backing := new nat[|values|](i requires 0 <= i < |values| => values[i]);
    assert backing[..] == values;
    SortSlice(backing, Less);
    var parts := PrintDistinct(backing[..]);
    return Ok(Join(parts, ','));
  }
}
