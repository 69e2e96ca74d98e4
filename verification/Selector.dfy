/** CPU and PID selector texts of the DevKit collectors (devkit_selector.go): parsing,
    canonical form, and comparison of scopes through canonical forms. */
module Selector {
  import opened Text
  import opened Sorting
  import opened Intervals

  const MAX_CPU_SELECTOR_CHARACTERS := 1024
  const MAX_PID_SELECTOR_CHARACTERS := 512
  const MAX_CPU_SELECTOR_ELEMENTS := 512
  const MAX_PID_SELECTOR_ELEMENTS := 32
  const FALLBACK_MAX_CPU: nat := 1024

  /** The reasons a selector is refused for. */
  datatype Reason = LengthLimit | ElementLimit | InvalidFormat | Overflow | OutOfRange

  datatype Result<+T> = Ok(value: T) | Err(reason: Reason)

  // ---------- resource limits and numbers ----------

  function SizeProblem(raw: string, maxCharacters: nat, maxElements: nat): Option<Reason> {
    if |raw| > maxCharacters then Some(LengthLimit)
    else if raw == "" then Some(InvalidFormat)
    else if Count(raw, ',') + 1 > maxElements then Some(ElementLimit)
    else None
  }

  predicate IsDecimal(raw: string) {
    forall i :: 0 <= i < |raw| ==> '0' <= raw[i] <= '9'
  }

  function ParseUnsigned(raw: string): (r: Result<nat>)
    ensures r.Ok? ==> r.value <= MAX_UINT64
  {
    if raw == "" || !IsDecimal(raw) then Err(InvalidFormat)
    else if Value(raw, Decimal) > MAX_UINT64 then Err(Overflow)
    else Ok(Value(raw, Decimal))
  }

  /** Exactly the numerals of 64-bit numbers are read. */
  lemma {:induction false} ParseUnsignedMeaning(raw: string, n: nat)
    ensures ParseUnsigned(raw) == Ok(n) <==> IsNumeral(raw) && Numeral(raw) == n && n <= MAX_UINT64
    ensures ParseUnsigned(raw).Ok? <==> IsNumeral(raw) && Numeral(raw) <= MAX_UINT64
  {
    hide Value;
    NumeralDigits(raw);
  }

  lemma {:induction false} ParseFormatted(n: nat)
    requires n <= MAX_UINT64
    ensures ParseUnsigned(Format(n, Decimal)) == Ok(n)
  {
    ValueFormat(n, Decimal);
  }

  lemma {:induction false} ParsedIsNoShorter(raw: string)
    requires ParseUnsigned(raw).Ok?
    ensures |Format(ParseUnsigned(raw).value, Decimal)| <= |raw|
  {
    FormatShortest(raw, Decimal);
  }

  lemma {:induction false} FormatHasNoSeparator(n: nat)
    ensures ',' !in Format(n, Decimal) && '-' !in Format(n, Decimal)
  {
  }

  // ---------- CPU elements ----------

  /** One element: a number, or two bounds in either order. */
  function ParseElement(element: string, maxCPU: nat): (r: Result<Interval>)
    ensures r.Ok? ==> r.value.start <= r.value.end <= maxCPU && r.value.end <= MAX_UINT64
  {
    var bounds := Split(element, '-');
    if |bounds| > 2 then Err(InvalidFormat)
    else
      var start := ParseUnsigned(bounds[0]);
      if start.Err? then Err(start.reason)
      else
        var end := if |bounds| == 2 then ParseUnsigned(bounds[1]) else start;
        if end.Err? then Err(end.reason)
        else if start.value > maxCPU || end.value > maxCPU then Err(OutOfRange)
        else if start.value > end.value then Ok(Interval(end.value, start.value))
        else Ok(Interval(start.value, end.value))
  }

  /** All elements in order; the first bad one decides the error. */
  function ParseElements(elements: seq<string>, maxCPU: nat): (r: Result<seq<Interval>>)
    ensures r.Ok? ==> |r.value| == |elements| && InRange(r.value)
    ensures r.Ok? ==> forall i :: 0 <= i < |elements| ==> ParseElement(elements[i], maxCPU) == Ok(r.value[i])
  {
    if elements == [] then Ok([])
    else
      var n := |elements| - 1;
      var init := ParseElements(elements[..n], maxCPU);
      if init.Err? then init
      else
        var last := ParseElement(elements[n], maxCPU);
        if last.Err? then Err(last.reason) else Ok(init.value + [last.value])
  }

  lemma {:induction false} ParsePrefixError(elements: seq<string>, n: nat, maxCPU: nat)
    requires n <= |elements| && ParseElements(elements[..n], maxCPU).Err?
    ensures ParseElements(elements, maxCPU) == ParseElements(elements[..n], maxCPU)
  {
    if n == |elements| {
      assert elements[..n] == elements;
    } else {
      var init := elements[..|elements| - 1];
      assert init[..n] == elements[..n];
      ParsePrefixError(init, n, maxCPU);
    }
  }

  lemma {:induction false} ParseElementsExact(elements: seq<string>, intervals: seq<Interval>, maxCPU: nat)
    requires |elements| == |intervals|
    requires forall i :: 0 <= i < |elements| ==> ParseElement(elements[i], maxCPU) == Ok(intervals[i])
    ensures ParseElements(elements, maxCPU) == Ok(intervals)
  {
    if elements != [] {
      var n := |elements| - 1;
      ParseElementsExact(elements[..n], intervals[..n], maxCPU);
      assert intervals == intervals[..n] + [intervals[n]];
    }
  }

  /** The merged intervals of a whole text. */
  function ParseIntervals(raw: string, maxCPU: nat, enforceLimits: bool): Result<seq<Interval>> {
    var problem := SizeProblem(raw, MAX_CPU_SELECTOR_CHARACTERS, MAX_CPU_SELECTOR_ELEMENTS);
    if enforceLimits && problem.Some? then Err(problem.value)
    else
      var parsed := ParseElements(Split(raw, ','), maxCPU);
      if parsed.Err? then parsed else Ok(Normalise(parsed.value))
  }

  function RenderInterval(iv: Interval): string {
    if iv.start == iv.end then Format(iv.start, Decimal)
    else Format(iv.start, Decimal) + ['-'] + Format(iv.end, Decimal)
  }

  function RenderAll(s: seq<Interval>): (r: seq<string>)
    ensures |r| == |s|
    ensures forall i :: 0 <= i < |s| ==> r[i] == RenderInterval(s[i])
  {
    if s == [] then [] else RenderAll(s[..|s| - 1]) + [RenderInterval(s[|s| - 1])]
  }

  function Render(s: seq<Interval>): string {
    Join(RenderAll(s), ',')
  }

  function CanonicalCPU(raw: string, maxCPU: nat): Result<string> {
    var intervals := ParseIntervals(raw, maxCPU, true);
    if intervals.Err? then Err(intervals.reason) else Ok(Render(intervals.value))
  }

  // ---------- what a CPU text means ----------

  /** The text lists CPU c: one of its elements is c, or a range that includes c. */
  ghost predicate Selects(raw: string, c: nat) {
    ListSelects(Split(raw, ','), c)
  }

  ghost predicate ListSelects(elements: seq<string>, c: nat) {
    exists i :: 0 <= i < |elements| && ElementSelects(elements[i], c)
  }

  ghost predicate ElementSelects(element: string, c: nat) {
    || (IsNumeral(element) && c == Numeral(element))
    || (exists a, b :: IsRange(element, a, b) && Between(Numeral(a), c, Numeral(b)))
  }

  /** Two numerals with a minus sign between them. */
  predicate IsRange(element: string, a: string, b: string) {
    element == a + "-" + b && IsNumeral(a) && IsNumeral(b)
  }

  /** c lies between the smaller and the larger bound, both included. */
  predicate Between(a: nat, c: nat, b: nat) { a <= c <= b || b <= c <= a }

  /** The element names a CPU, or two bounds in any order, none above the maximum. */
  ghost predicate ElementFits(element: string, maxCPU: nat) {
    || (IsNumeral(element) && Numeral(element) <= maxCPU)
    || (exists a, b :: IsRange(element, a, b) && Numeral(a) <= maxCPU && Numeral(b) <= maxCPU)
  }

  /** MAIN: exactly the fitting elements are accepted, and the interval read is what the
      element says. */
  lemma {:induction false} ElementMeaning(element: string, maxCPU: nat)
    requires maxCPU <= MAX_UINT64
    ensures ParseElement(element, maxCPU).Ok? <==> ElementFits(element, maxCPU)
    ensures ParseElement(element, maxCPU).Ok? ==>
              forall c: nat :: ElementSelects(element, c) <==>
                ParseElement(element, maxCPU).value.start <= c <= ParseElement(element, maxCPU).value.end
  {
    hide ParseUnsigned, Numeral, Split, Join;
    var bounds := Split(element, '-');
    JoinSplit(element, '-');
    forall s: string ensures ParseUnsigned(s).Ok? <==> IsNumeral(s) && Numeral(s) <= MAX_UINT64
      ensures ParseUnsigned(s).Ok? ==> ParseUnsigned(s).value == Numeral(s)
    {
      ParseUnsignedMeaning(s, if ParseUnsigned(s).Ok? then ParseUnsigned(s).value else 0);
    }
    forall a, b | IsRange(element, a, b) ensures bounds == [a, b] {
      SplitPrefix(a, b, '-');
      SplitPrefix(b, "", '-');
    }
    if |bounds| == 1 {
      JoinOne(bounds[0], '-');
      assert bounds == [bounds[0]] && element == bounds[0];
    } else if |bounds| == 2 {
      JoinTwo(bounds[0], bounds[1], '-');
      assert bounds == [bounds[0], bounds[1]] && element == bounds[0] + "-" + bounds[1];
      if IsNumeral(bounds[0]) && IsNumeral(bounds[1]) {
        assert IsRange(element, bounds[0], bounds[1]);
      }
      assert !IsNumeral(element) by {
        assert element[|bounds[0]|] == '-';
      }
    } else if IsNumeral(element) {
      SplitPrefix(element, "", '-');
    }
  }

  lemma {:induction false} RenderedElement(iv: Interval, maxCPU: nat)
    requires iv.start <= iv.end <= maxCPU <= MAX_UINT64
    ensures ParseElement(RenderInterval(iv), maxCPU) == Ok(iv)
    ensures ',' !in RenderInterval(iv)
  {
    FormatHasNoSeparator(iv.start);
    FormatHasNoSeparator(iv.end);
    ParseFormatted(iv.start);
    ParseFormatted(iv.end);
    SplitPrefix(Format(iv.start, Decimal), Format(iv.end, Decimal), '-');
    SplitPrefix(Format(iv.end, Decimal), "", '-');
  }

  /** Printed intervals read back. */
  lemma {:induction false} RenderRoundTrip(s: seq<Interval>, maxCPU: nat)
    requires s != [] && maxCPU <= MAX_UINT64
    requires forall i :: 0 <= i < |s| ==> s[i].start <= s[i].end <= maxCPU
    ensures Split(Render(s), ',') == RenderAll(s)
    ensures ParseElements(Split(Render(s), ','), maxCPU) == Ok(s)
  {
    var parts := RenderAll(s);
    forall i | 0 <= i < |s| ensures ParseElement(parts[i], maxCPU) == Ok(s[i]) && ',' !in parts[i] {
      RenderedElement(s[i], maxCPU);
    }
    SplitJoin(parts, ',');
    ParseElementsExact(parts, s, maxCPU);
  }

  lemma {:induction false} BoundOnlyRejects(element: string, maxCPU: nat)
    requires maxCPU <= MAX_UINT64 && ParseElement(element, maxCPU).Ok?
    ensures ParseElement(element, MAX_UINT64) == ParseElement(element, maxCPU)
  {
  }

  lemma {:induction false} ParsedSelects(elements: seq<string>, maxCPU: nat, c: nat)
    requires maxCPU <= MAX_UINT64 && ParseElements(elements, maxCPU).Ok?
    ensures Covers(ParseElements(elements, maxCPU).value, c) <==> ListSelects(elements, c)
  {
    var parsed := ParseElements(elements, maxCPU).value;
    forall i | 0 <= i < |elements|
      ensures ElementSelects(elements[i], c) <==> parsed[i].start <= c <= parsed[i].end
    {
      assert ParseElement(elements[i], maxCPU) == Ok(parsed[i]);
      ElementMeaning(elements[i], maxCPU);
    }
    if ListSelects(elements, c) {
      var i :| 0 <= i < |elements| && ElementSelects(elements[i], c);
      assert parsed[i].start <= c <= parsed[i].end;
    }
    if Covers(parsed, c) {
      var i :| 0 <= i < |parsed| && parsed[i].start <= c <= parsed[i].end;
      assert ElementSelects(elements[i], c);
    }
  }

  lemma {:induction false} ParsedBounded(elements: seq<string>, maxCPU: nat, c: nat)
    requires ParseElements(elements, maxCPU).Ok? && Covers(ParseElements(elements, maxCPU).value, c)
    ensures c <= maxCPU
  {
    var parsed := ParseElements(elements, maxCPU).value;
    var i :| 0 <= i < |parsed| && parsed[i].start <= c <= parsed[i].end;
    assert ParseElement(elements[i], maxCPU) == Ok(parsed[i]);
  }

  lemma {:induction false} ElementsAccepted(elements: seq<string>, maxCPU: nat)
    requires maxCPU <= MAX_UINT64
    ensures ParseElements(elements, maxCPU).Ok? <==>
              forall i :: 0 <= i < |elements| ==> ElementFits(elements[i], maxCPU)
  {
    hide ParseElement, ElementFits;
    if elements != [] {
      var n := |elements| - 1;
      ElementsAccepted(elements[..n], maxCPU);
      ElementMeaning(elements[n], maxCPU);
    }
  }

  /** MAIN: a text is accepted exactly when it has 1 to 1024 characters and at most 512
      elements, each of which fits. */
  lemma {:induction false} AcceptedIff(raw: string, maxCPU: nat)
    requires maxCPU <= MAX_UINT64
    ensures CanonicalCPU(raw, maxCPU).Ok? <==>
              && 1 <= |raw| <= 1024 && |Split(raw, ',')| <= 512
              && forall i :: 0 <= i < |Split(raw, ',')| ==> ElementFits(Split(raw, ',')[i], maxCPU)
  {
    hide Split, Count, ParseElements, ElementFits, Normalise;
    SplitCount(raw, ',');
    ElementsAccepted(Split(raw, ','), maxCPU);
  }

  /** An accepted text gives a normal, non-empty list of exactly the CPUs it lists. */
  lemma {:induction false} AcceptedMeaning(raw: string, maxCPU: nat, enforceLimits: bool)
    requires maxCPU <= MAX_UINT64
    requires ParseIntervals(raw, maxCPU, enforceLimits).Ok?
    ensures var m := ParseIntervals(raw, maxCPU, enforceLimits).value;
            && m != [] && Normal(m)
            && (forall c :: Covers(m, c) <==> Selects(raw, c))
            && (forall i :: 0 <= i < |m| ==> m[i].start <= m[i].end <= maxCPU)
  {
    var parsed := ParseElements(Split(raw, ','), maxCPU).value;
    var m := ParseIntervals(raw, maxCPU, enforceLimits).value;
    assert m == Normalise(parsed);
    NormaliseMeaning(parsed);
    forall c: nat ensures Covers(m, c) <==> Selects(raw, c) {
      ParsedSelects(Split(raw, ','), maxCPU, c);
    }
    forall i | 0 <= i < |m| ensures m[i].end <= maxCPU {
      assert Covers(m, m[i].end);
      ParsedBounded(Split(raw, ','), maxCPU, m[i].end);
    }
  }

  /** MAIN: canonical texts are equal exactly when the raw texts list the same CPUs. */
  lemma {:induction false} CanonicalCPUIffSameSet(raw1: string, max1: nat, raw2: string, max2: nat)
    requires max1 <= MAX_UINT64 && max2 <= MAX_UINT64
    requires CanonicalCPU(raw1, max1).Ok? && CanonicalCPU(raw2, max2).Ok?
    ensures CanonicalCPU(raw1, max1) == CanonicalCPU(raw2, max2)
       <==> forall c :: Selects(raw1, c) <==> Selects(raw2, c)
  {
    var m1 := ParseIntervals(raw1, max1, true).value;
    var m2 := ParseIntervals(raw2, max2, true).value;
    AcceptedMeaning(raw1, max1, true);
    AcceptedMeaning(raw2, max2, true);
    if Render(m1) == Render(m2) {
      RenderRoundTrip(m1, MAX_UINT64);
      RenderRoundTrip(m2, MAX_UINT64);
      assert m1 == m2;
    }
    if forall c :: Selects(raw1, c) <==> Selects(raw2, c) {
      NormalUnique(m1, m2);
    }
  }

  // ---------- size of the canonical text ----------

  /** Characters needed to print the intervals, each with one separator. */
  function Cost(s: seq<Interval>): nat {
    if s == [] then 0 else Cost(s[..|s| - 1]) + |RenderInterval(s[|s| - 1])| + 1
  }

  lemma {:induction false} RenderCost(s: seq<Interval>)
    requires s != []
    ensures |Render(s)| + 1 == Cost(s)
  {
    var init, last := s[..|s| - 1], s[|s| - 1];
    if init != [] {
      RenderCost(init);
      JoinSnoc(RenderAll(init), RenderInterval(last), ',');
    } else {
      assert RenderAll(s) == [RenderInterval(last)];
    }
  }

  lemma {:induction false} CostSnoc(s: seq<Interval>, x: Interval)
    ensures Cost(s + [x]) == Cost(s) + |RenderInterval(x)| + 1
  {
    assert (s + [x])[..|s|] == s;
  }

  lemma {:induction false} InsertCost(x: Interval, s: seq<Interval>)
    ensures Cost(Insert(Less, x, s)) == Cost(s) + |RenderInterval(x)| + 1
  {
    if |s| > 0 && Less(x, s[|s| - 1]) {
      InsertCost(x, s[..|s| - 1]);
      CostSnoc(Insert(Less, x, s[..|s| - 1]), s[|s| - 1]);
    } else {
      CostSnoc(s, x);
    }
  }

  lemma {:induction false} SortCost(s: seq<Interval>)
    ensures Cost(Sort(Less, s)) == Cost(s)
  {
    if s != [] {
      SortCost(s[..|s| - 1]);
      InsertCost(s[|s| - 1], Sort(Less, s[..|s| - 1]));
    }
  }

  /** Fusing two intervals never needs more characters than printing both. */
  lemma {:induction false} FusedIsNoLonger(a: Interval, b: Interval)
    requires a.start <= a.end < b.end && b.start <= b.end
    ensures |RenderInterval(Interval(a.start, b.end))| <= |RenderInterval(a)| + 1 + |RenderInterval(b)|
  {
  }

  lemma {:induction false} MergeStepCost(m: seq<Interval>, x: Interval)
    requires Normal(m) && x.start <= x.end
    ensures Cost(MergeStep(m, x)) <= Cost(m) + |RenderInterval(x)| + 1
    ensures |MergeStep(m, x)| <= |m| + 1
  {
    var r := MergeStep(m, x);
    if |r| > |m| {
      assert r == m + [x];
      CostSnoc(m, x);
    } else if r != m {
      var n := |m| - 1;
      assert m == m[..n] + [m[n]] && r == m[..n] + [r[n]];
      CostSnoc(m[..n], m[n]);
      CostSnoc(m[..n], r[n]);
      FusedIsNoLonger(m[n], x);
    }
  }

  lemma {:induction false} MergeCost(s: seq<Interval>)
    requires InRange(s) && StartsAscend(s)
    ensures Cost(MergeAll(s)) <= Cost(s)
    ensures |MergeAll(s)| <= |s|
  {
    if s != [] {
      var init, x := s[..|s| - 1], s[|s| - 1];
      MergeCost(init);
      MergeMeaning(init);
      MergeStepCost(MergeAll(init), x);
    }
  }

  lemma {:induction false} ElementIsNoShorter(element: string, maxCPU: nat)
    requires ParseElement(element, maxCPU).Ok?
    ensures |RenderInterval(ParseElement(element, maxCPU).value)| <= |element|
  {
    var bounds := Split(element, '-');
    JoinSplit(element, '-');
    JoinLength(bounds, '-');
    ParsedIsNoShorter(bounds[0]);
    if |bounds| == 2 {
      ParsedIsNoShorter(bounds[1]);
      assert bounds == [bounds[0], bounds[1]];
      assert |element| == |bounds[0]| + 1 + |bounds[1]|;
    } else {
      assert bounds == [bounds[0]];
      assert |element| == |bounds[0]|;
    }
  }

  lemma {:induction false} ParsedCost(elements: seq<string>, maxCPU: nat)
    requires elements != [] && ParseElements(elements, maxCPU).Ok?
    ensures Cost(ParseElements(elements, maxCPU).value) <= |Join(elements, ',')| + 1
  {
    hide RenderInterval, ParseElement;
    var n := |elements| - 1;
    var init, last := elements[..n], elements[n];
    ElementIsNoShorter(last, maxCPU);
    assert elements == init + [last];
    var rest := ParseElements(init, maxCPU).value;
    CostSnoc(rest, ParseElement(last, maxCPU).value);
    if n > 0 {
      ParsedCost(init, maxCPU);
      JoinSnoc(init, last, ',');
    } else {
      assert rest == [];
    }
  }

  lemma {:induction false} NormaliseCost(s: seq<Interval>)
    requires InRange(s)
    ensures Cost(Normalise(s)) <= Cost(s) && |Normalise(s)| <= |s|
  {
    SortCost(s);
    SortCovers(s);
    MergeCost(Sort(Less, s));
  }

  /** The canonical text has no more characters and no more elements than the raw text. */
  lemma {:induction false} CanonicalCPULength(raw: string, maxCPU: nat)
    requires maxCPU <= MAX_UINT64 && CanonicalCPU(raw, maxCPU).Ok?
    ensures var canonical := CanonicalCPU(raw, maxCPU).value;
            && 1 <= |canonical| <= |raw|
            && Count(canonical, ',') <= Count(raw, ',')
  {
    var parsed := ParseElements(Split(raw, ','), maxCPU).value;
    var m := ParseIntervals(raw, maxCPU, true).value;
    assert m == Normalise(parsed);
    AcceptedMeaning(raw, maxCPU, true);
    JoinSplit(raw, ',');
    ParsedCost(Split(raw, ','), maxCPU);
    NormaliseCost(parsed);
    RenderCost(m);
    RenderRoundTrip(m, maxCPU);
    SplitCount(raw, ',');
    SplitCount(Render(m), ',');
    CostAtLeastTwo(m);
  }

  lemma {:induction false} CostAtLeastTwo(s: seq<Interval>)
    requires s != []
    ensures Cost(s) >= 2
  {
  }

  lemma {:induction false} SmallerPasses(raw: string, text: string, maxCharacters: nat, maxElements: nat)
    requires SizeProblem(raw, maxCharacters, maxElements) == None
    requires 1 <= |text| <= |raw| && Count(text, ',') <= Count(raw, ',')
    ensures SizeProblem(text, maxCharacters, maxElements) == None
  {
  }

  /** MAIN: the canonical text passes the same limits and bound as the raw text and is its
      own canonical form. */
  lemma {:induction false} CanonicalCPUIdempotent(raw: string, maxCPU: nat)
    requires maxCPU <= MAX_UINT64 && CanonicalCPU(raw, maxCPU).Ok?
    ensures var canonical := CanonicalCPU(raw, maxCPU).value;
            CanonicalCPU(canonical, maxCPU) == Ok(canonical)
  {
    hide Split, ParseElements, Selects, Covers, Normal, RenderAll, Count, SizeProblem;
    var m := ParseIntervals(raw, maxCPU, true).value;
    CanonicalCPULength(raw, maxCPU);
    AcceptedMeaning(raw, maxCPU, true);
    RenderRoundTrip(m, maxCPU);
    NormaliseNormal(m);
    var canonical := Render(m);
    SmallerPasses(raw, canonical, MAX_CPU_SELECTOR_CHARACTERS, MAX_CPU_SELECTOR_ELEMENTS);
    assert ParseIntervals(canonical, maxCPU, true) == Ok(Normalise(m));
  }

  // ---------- the code's own loops ----------

  method ParseCPUIntervals(raw: string, maxCPU: nat, enforceLimits: bool) returns (r: Result<seq<Interval>>)
    ensures r == ParseIntervals(raw, maxCPU, enforceLimits)
  {
    var problem := SizeProblem(raw, MAX_CPU_SELECTOR_CHARACTERS, MAX_CPU_SELECTOR_ELEMENTS);
    if enforceLimits && problem.Some? {
      return Err(problem.value);
    }
    var elements := Split(raw, ',');
    var intervals: seq<Interval> := [];
    for i := 0 to |elements|
      invariant ParseElements(elements[..i], maxCPU) == Ok(intervals)
    {
      var one := ParseElement(elements[i], maxCPU);
      assert elements[..i + 1][..i] == elements[..i];
      if one.Err? {
        ParsePrefixError(elements, i + 1, maxCPU);
        return Err(one.reason);
      }
      intervals := intervals + [one.value];
    }
    assert elements[..|elements|] == elements;
    var backing := new Interval[|intervals|](i requires 0 <= i < |intervals| => intervals[i]);
    assert backing[..] == intervals;
    var count := NormaliseInPlace(backing);
    return Ok(backing[..count]);
  }

  method CanonicalizeCPUSelector(raw: string, maxCPU: nat) returns (r: Result<string>)
    ensures r == CanonicalCPU(raw, maxCPU)
  {
    var parsed := ParseCPUIntervals(raw, maxCPU, true);
    if parsed.Err? {
      return Err(parsed.reason);
    }
    var intervals := parsed.value;
    var parts: seq<string> := [];
    for i := 0 to |intervals|
      invariant parts == RenderAll(intervals[..i])
    {
      assert intervals[..i + 1][..i] == intervals[..i];
      if intervals[i].start == intervals[i].end {
        parts := parts + [Format(intervals[i].start, Decimal)];
        continue;
      }
      parts := parts + [Format(intervals[i].start, Decimal) + ['-'] + Format(intervals[i].end, Decimal)];
    }
    assert intervals[..|intervals|] == intervals;
    return Ok(Join(parts, ','));
  }

  /** The host's list of possible CPUs, when the file is readable (Some) and parses. */
  function HostIntervals(possible: Option<string>): Option<seq<Interval>> {
    if possible.None? then None
    else
      var parsed := ParseIntervals(TrimSpace(possible.value), MAX_UINT64, false);
      if parsed.Err? then None else Some(parsed.value)
  }

  ghost predicate IsLargest(raw: string, max: nat) {
    Selects(raw, max) && forall c: nat :: Selects(raw, c) ==> c <= max
  }

  lemma {:induction false} LastEndIsLargest(raw: string, m: seq<Interval>)
    requires ParseIntervals(raw, MAX_UINT64, false) == Ok(m)
    ensures m != [] && IsLargest(raw, m[|m| - 1].end)
  {
    hide Selects, Covers, Normal, Split, ParseElements, Normalise;
    AcceptedMeaning(raw, MAX_UINT64, false);
    LastEndIsMaximum(m);
    assert forall c: nat :: Covers(m, c) <==> Selects(raw, c);
  }

  /** The largest CPU the host lists, or the fallback when the list is missing or bad. */
  method MaxCPU(possible: Option<string>) returns (max: nat)
    ensures HostIntervals(possible).Some? ==> IsLargest(TrimSpace(possible.value), max)
    ensures HostIntervals(possible).None? ==> max == 1024
  {
    if possible.None? {
      return FALLBACK_MAX_CPU;
    }
    var raw := TrimSpace(possible.value);
    var parsed := ParseCPUIntervals(raw, MAX_UINT64, false);
    if parsed.Err? {
      return FALLBACK_MAX_CPU;
    }
    LastEndIsLargest(raw, parsed.value);
    return parsed.value[|parsed.value| - 1].end;
  }
}
