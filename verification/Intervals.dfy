/** CPU intervals: the in-place sort-and-merge of devkit_selector.go and what it means. */
module Intervals {
  import opened Sorting

  const MAX_UINT64: nat := 18446744073709551615

  datatype Interval = Interval(start: nat, end: nat)

  predicate Less(a: Interval, b: Interval) {
    if a.start == b.start then a.end < b.end else a.start < b.start
  }

  predicate InRange(s: seq<Interval>) {
    forall i :: 0 <= i < |s| ==> s[i].start <= s[i].end <= MAX_UINT64
  }

  /** CPU c is listed by one of the intervals. */
  ghost predicate Covers(s: seq<Interval>, c: nat) {
    exists i :: 0 <= i < |s| && s[i].start <= c <= s[i].end
  }

  /** Ascending intervals with at least one missing CPU between neighbours. */
  predicate Normal(s: seq<Interval>) {
    && InRange(s)
    && forall i, j :: 0 <= i < j < |s| ==> s[i].end + 1 < s[j].start
  }

  /** One round of the merging loop: extend the last interval, drop x, or append x.
      The guard on MAX_UINT64 keeps end + 1 from wrapping. */
  function MergeStep(merged: seq<Interval>, x: Interval): seq<Interval> {
    if merged == [] then [x]
    else
      var n := |merged| - 1;
      var last := merged[n];
      var adjacent := last.end < MAX_UINT64 && x.start == last.end + 1;
      if x.start <= last.end || adjacent then
        if x.end > last.end then merged[n := Interval(last.start, x.end)] else merged
      else merged + [x]
  }

  function MergeAll(s: seq<Interval>): seq<Interval> {
    if s == [] then [] else MergeStep(MergeAll(s[..|s| - 1]), s[|s| - 1])
  }

  function Normalise(s: seq<Interval>): seq<Interval> {
    MergeAll(Sort(Less, s))
  }

  // ---------- what merging means ----------

  predicate StartsAscend(s: seq<Interval>) {
    forall i, j :: 0 <= i < j < |s| ==> s[i].start <= s[j].start
  }

  lemma {:induction false} CoversAppend(s: seq<Interval>, x: Interval, c: nat)
    ensures Covers(s + [x], c) <==> Covers(s, c) || x.start <= c <= x.end
  {
    var t := s + [x];
    if Covers(s, c) {
      var i :| 0 <= i < |s| && s[i].start <= c <= s[i].end;
      assert t[i] == s[i];
    }
    if x.start <= c <= x.end {
      assert t[|s|] == x;
    }
  }

  lemma {:induction false} MergeStepNormal(m: seq<Interval>, x: Interval)
    requires Normal(m) && x.start <= x.end <= MAX_UINT64
    requires m != [] ==> m[|m| - 1].start <= x.start
    ensures Normal(MergeStep(m, x))
    ensures MergeStep(m, x) != []
    ensures var r := MergeStep(m, x); r[|r| - 1].start <= x.start
  {
  }

  lemma {:induction false} MergeStepCovers(m: seq<Interval>, x: Interval, c: nat)
    requires Normal(m) && x.start <= x.end <= MAX_UINT64
    requires m != [] ==> m[|m| - 1].start <= x.start
    ensures Covers(MergeStep(m, x), c) <==> Covers(m, c) || x.start <= c <= x.end
  {
    var r := MergeStep(m, x);
    if m == [] || |r| > |m| {
      assert r == m + [x];
      CoversAppend(m, x, c);
    } else {
      var n := |m| - 1;
      assert m == m[..n] + [m[n]] && r == m[..n] + [r[n]];
      CoversAppend(m[..n], m[n], c);
      CoversAppend(m[..n], r[n], c);
    }
  }

  /** Merging a sorted list: the result is normal and covers exactly the same CPUs. */
  lemma {:induction false} MergeMeaning(s: seq<Interval>)
    requires InRange(s) && StartsAscend(s)
    ensures Normal(MergeAll(s))
    ensures forall c :: Covers(MergeAll(s), c) <==> Covers(s, c)
    ensures s != [] ==> var m := MergeAll(s); m != [] && m[|m| - 1].start <= s[|s| - 1].start
  {
    if s != [] {
      var init, x := s[..|s| - 1], s[|s| - 1];
      MergeMeaning(init);
      MergeStepNormal(MergeAll(init), x);
      assert s == init + [x];
      forall c: nat ensures Covers(MergeAll(s), c) <==> Covers(s, c) {
        MergeStepCovers(MergeAll(init), x, c);
        CoversAppend(init, x, c);
      }
    }
  }

  lemma {:induction false} LessTotal(s: seq<Interval>)
    ensures TotalOn(Less, s)
  {
  }

  lemma {:induction false} SortedAscends(s: seq<Interval>)
    requires Sorted(Less, s)
    ensures StartsAscend(s)
  {
    forall i, j | 0 <= i < j < |s| ensures s[i].start <= s[j].start {
      assert !Less(s[j], s[i]);
    }
  }

  lemma {:induction false} SortCovers(s: seq<Interval>)
    requires InRange(s)
    ensures var r := Sort(Less, s);
            && InRange(r) && StartsAscend(r)
            && forall c :: Covers(r, c) <==> Covers(s, c)
  {
    var r := Sort(Less, s);
    LessTotal(s);
    SortSorted(Less, s);
    SortedAscends(r);
    SortMultiset(Less, s);
    SameElements(r, s);
    SameElements(s, r);
    forall i | 0 <= i < |r| ensures r[i].start <= r[i].end <= MAX_UINT64 {
      var j :| 0 <= j < |s| && s[j] == r[i];
    }
    forall c: nat ensures Covers(r, c) <==> Covers(s, c) {
      if Covers(r, c) {
        var i :| 0 <= i < |r| && r[i].start <= c <= r[i].end;
        var j :| 0 <= j < |s| && s[j] == r[i];
      }
      if Covers(s, c) {
        var i :| 0 <= i < |s| && s[i].start <= c <= s[i].end;
        var j :| 0 <= j < |r| && r[j] == s[i];
      }
    }
  }

  /** The whole pass: a normal list covering exactly the CPUs of the input. */
  lemma {:induction false} NormaliseMeaning(s: seq<Interval>)
    requires InRange(s)
    ensures Normal(Normalise(s))
    ensures forall c :: Covers(Normalise(s), c) <==> Covers(s, c)
    ensures s != [] ==> Normalise(s) != []
  {
    SortCovers(s);
    MergeMeaning(Sort(Less, s));
  }

  /** The end of the last interval of a normal list is the largest CPU it covers. */
  lemma {:induction false} LastEndIsMaximum(m: seq<Interval>)
    requires Normal(m) && m != []
    ensures Covers(m, m[|m| - 1].end)
    ensures forall c: nat :: Covers(m, c) ==> c <= m[|m| - 1].end
  {
  }

  lemma {:induction false} CoversTail(m: seq<Interval>, c: nat)
    requires Normal(m) && m != []
    ensures Covers(m[1..], c) <==> Covers(m, c) && c > m[0].end
  {
    if Covers(m[1..], c) {
      var i :| 0 <= i < |m[1..]| && m[1..][i].start <= c <= m[1..][i].end;
      assert m[i + 1] == m[1..][i];
    }
    if Covers(m, c) && c > m[0].end {
      var i :| 0 <= i < |m| && m[i].start <= c <= m[i].end;
      assert m[1..][i - 1] == m[i];
    }
  }

  lemma {:induction false} HeadBelow(a: seq<Interval>, b: seq<Interval>)
    requires Normal(a) && Normal(b) && a != []
    requires forall c :: Covers(a, c) <==> Covers(b, c)
    ensures b != [] && b[0].start <= a[0].start
  {
    assert Covers(a, a[0].start);
    assert Covers(b, a[0].start);
  }

  lemma {:induction false} HeadEndBelow(a: seq<Interval>, b: seq<Interval>)
    requires Normal(a) && Normal(b) && a != [] && b != [] && a[0].start == b[0].start
    requires forall c :: Covers(a, c) <==> Covers(b, c)
    ensures b[0].end <= a[0].end
  {
    var c := a[0].end + 1;
    assert !Covers(a, c);
    assert !(b[0].start <= c <= b[0].end);
  }

  /** A set of CPUs has only one normal list. */
  lemma {:induction false} NormalUnique(a: seq<Interval>, b: seq<Interval>)
    requires Normal(a) && Normal(b)
    requires forall c :: Covers(a, c) <==> Covers(b, c)
    ensures a == b
  {
    if a == [] {
      if b != [] { HeadBelow(b, a); }
    } else {
      HeadBelow(a, b);
      HeadBelow(b, a);
      HeadEndBelow(a, b);
      HeadEndBelow(b, a);
      forall c: nat ensures Covers(a[1..], c) <==> Covers(b[1..], c) {
        CoversTail(a, c);
        CoversTail(b, c);
      }
      NormalUnique(a[1..], b[1..]);
      assert a == [a[0]] + a[1..] && b == [b[0]] + b[1..];
    }
  }

  /** Normal lists are left alone. */
  lemma {:induction false} MergeAllNormal(m: seq<Interval>)
    requires Normal(m)
    ensures MergeAll(m) == m
  {
    if m != [] {
      MergeAllNormal(m[..|m| - 1]);
      assert m == m[..|m| - 1] + [m[|m| - 1]];
    }
  }

  lemma {:induction false} NormaliseNormal(m: seq<Interval>)
    requires Normal(m)
    ensures Normalise(m) == m
  {
    LessTotal(m);
    SortUnique(Less, m, m);
    MergeAllNormal(m);
  }

  // ---------- the in-place loop ----------

  /** Merge a sorted array into its own front.  The write position never passes the read
      position, so every interval is read before it can be overwritten, and what remains
      in front is exactly what merging an untouched copy would give. */
  method MergeInPlace(a: array<Interval>) returns (count: nat)
    modifies a
    ensures count <= a.Length
    ensures a[..count] == MergeAll(old(a[..]))
  {
    ghost var s := a[..];
    count := 0;
    var i := 0;
    while i < a.Length
      invariant 0 <= count <= i <= a.Length
      invariant i > 0 ==> count > 0
      invariant a[..count] == MergeAll(s[..i])
      invariant forall k :: i <= k < a.Length ==> a[k] == s[k]
    {
      var x := a[i];
      assert s[..i + 1][..i] == s[..i];
      ghost var m := a[..count];
      if count == 0 {
        a[0] := x;
        count := 1;
        assert a[..count] == [x];
      } else {
        var last := a[count - 1];
        var adjacent := last.end < MAX_UINT64 && x.start == last.end + 1;
        if x.start <= last.end || adjacent {
          if x.end > last.end {
            a[count - 1] := Interval(last.start, x.end);
            assert a[..count] == m[count - 1 := Interval(last.start, x.end)];
          }
        } else {
          a[count] := x;
          count := count + 1;
          assert a[..count] == m + [x];
        }
      }
      i := i + 1;
    }
    assert s[..i] == s;
  }

  /** sort.Slice followed by the merge, on one backing array. */
  method NormaliseInPlace(a: array<Interval>) returns (count: nat)
    modifies a
    ensures count <= a.Length
    ensures a[..count] == Normalise(old(a[..]))
  {
    SortSlice(a, Less);
    count := MergeInPlace(a);
  }
}
