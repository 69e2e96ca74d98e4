/** sort.Slice with a comparison function.  The Go library promises only that the slice
    ends up a sorted permutation; SortUnique shows that, for the total orders used here,
    this fixes the result, so the algorithm behind it does not matter. */
module Sorting {

  /** "less" is a strict total order on the elements of s. */
  ghost predicate TotalOn<T>(less: (T, T) -> bool, s: seq<T>) {
    && (forall x | x in s :: !less(x, x))
    && (forall x, y | x in s && y in s :: x == y || less(x, y) || less(y, x))
    && (forall x, y, z | x in s && y in s && z in s :: less(x, y) && less(y, z) ==> less(x, z))
  }

  ghost predicate Sorted<T>(less: (T, T) -> bool, s: seq<T>) {
    forall i, j | 0 <= i < j < |s| :: !less(s[j], s[i])
  }

  /** Insert x behind every element it is not less than. */
  function Insert<T>(less: (T, T) -> bool, x: T, s: seq<T>): (r: seq<T>)
    ensures |r| == |s| + 1
  {
    if |s| > 0 && less(x, s[|s| - 1]) then Insert(less, x, s[..|s| - 1]) + [s[|s| - 1]]
    else s + [x]
  }

  function Sort<T>(less: (T, T) -> bool, s: seq<T>): (r: seq<T>)
    ensures |r| == |s|
  {
    if s == [] then [] else Insert(less, s[|s| - 1], Sort(less, s[..|s| - 1]))
  }

  lemma {:induction false} InsertMultiset<T>(less: (T, T) -> bool, x: T, s: seq<T>)
    ensures multiset(Insert(less, x, s)) == multiset(s) + multiset{x}
  {
    if |s| > 0 && less(x, s[|s| - 1]) {
      InsertMultiset(less, x, s[..|s| - 1]);
      assert s == s[..|s| - 1] + [s[|s| - 1]];
    }
  }

  lemma {:induction false} SortMultiset<T>(less: (T, T) -> bool, s: seq<T>)
    ensures multiset(Sort(less, s)) == multiset(s)
  {
    if s != [] {
      SortMultiset(less, s[..|s| - 1]);
      InsertMultiset(less, s[|s| - 1], Sort(less, s[..|s| - 1]));
      assert s == s[..|s| - 1] + [s[|s| - 1]];
    }
  }

  lemma {:induction false} SameElements<T>(a: seq<T>, b: seq<T>)
    requires multiset(a) == multiset(b)
    ensures |a| == |b|
    ensures forall x :: x in a <==> x in b
    ensures forall i :: 0 <= i < |a| ==> a[i] in b
  {
    assert |a| == |multiset(a)| && |b| == |multiset(b)|;
    forall x ensures x in a <==> x in b {
      assert x in a <==> x in multiset(a);
      assert x in b <==> x in multiset(b);
    }
    forall i | 0 <= i < |a| ensures a[i] in b {
      assert a[i] in a;
    }
  }

  lemma {:induction false} TotalOnSubset<T>(less: (T, T) -> bool, s: seq<T>, t: seq<T>)
    requires TotalOn(less, s)
    requires forall x | x in t :: x in s
    ensures TotalOn(less, t)
  {
  }

  lemma {:induction false} InsertSorted<T>(less: (T, T) -> bool, x: T, s: seq<T>)
    requires TotalOn(less, s + [x]) && Sorted(less, s)
    ensures Sorted(less, Insert(less, x, s))
  {
    if |s| > 0 && less(x, s[|s| - 1]) {
      var init, last := s[..|s| - 1], s[|s| - 1];
      assert forall y :: y in init + [x] ==> y in s + [x];
      InsertSorted(less, x, init);
      InsertMultiset(less, x, init);
      var r := Insert(less, x, init);
      assert multiset(init + [x]) == multiset(init) + multiset{x};
      SameElements(r, init + [x]);
      forall i | 0 <= i < |r| ensures !less(last, r[i]) {
        assert r[i] in init + [x];
        assert last in s + [x] && x in s + [x];
        if r[i] in init {
          var k :| 0 <= k < |init| && init[k] == r[i];
          assert s[k] == r[i];
        }
      }
    } else if |s| > 0 {
      forall i | 0 <= i < |s| ensures !less(x, s[i]) {
        var last := s[|s| - 1];
        assert s[i] in s + [x] && x in s + [x] && last in s + [x];
      }
    }
  }

  lemma {:induction false} SortSorted<T>(less: (T, T) -> bool, s: seq<T>)
    requires TotalOn(less, s)
    ensures Sorted(less, Sort(less, s))
  {
    if s != [] {
      var init, last := s[..|s| - 1], s[|s| - 1];
      SortSorted(less, init);
      SortMultiset(less, init);
      SameElements(Sort(less, init), init);
      assert forall x | x in init :: x in s;
      TotalOnSubset(less, s, Sort(less, init) + [last]);
      InsertSorted(less, last, Sort(less, init));
    }
  }

  lemma {:induction false} HeadLeast<T>(less: (T, T) -> bool, s: seq<T>, x: T)
    requires s != [] && TotalOn(less, s) && Sorted(less, s) && x in s
    ensures x == s[0] || less(s[0], x)
  {
    assert s[0] in s;
  }

  lemma {:induction false} TailMultiset<T>(s: seq<T>)
    requires s != []
    ensures multiset(s[1..]) == multiset(s) - multiset{s[0]}
  {
    assert s == [s[0]] + s[1..];
  }

  lemma {:induction false} SameHead<T>(less: (T, T) -> bool, a: seq<T>, b: seq<T>)
    requires a != [] && b != [] && multiset(a) == multiset(b)
    requires TotalOn(less, a) && Sorted(less, a) && Sorted(less, b)
    ensures a[0] == b[0]
  {
    SameElements(a, b);
    SameElements(b, a);
    TotalOnSubset(less, a, b);
    HeadLeast(less, a, b[0]);
    HeadLeast(less, b, a[0]);
  }

  /** Two sorted arrangements of the same elements are equal. */
  lemma {:induction false} SortedUnique<T>(less: (T, T) -> bool, a: seq<T>, b: seq<T>)
    requires multiset(a) == multiset(b)
    requires TotalOn(less, a) && Sorted(less, a) && Sorted(less, b)
    ensures a == b
  {
    SameElements(a, b);
    if a != [] {
      SameHead(less, a, b);
      TailMultiset(a);
      TailMultiset(b);
      TotalOnSubset(less, a, a[1..]);
      SortedUnique(less, a[1..], b[1..]);
      assert a == [a[0]] + a[1..] && b == [b[0]] + b[1..];
    }
  }

  /** Any sorted permutation is the one computed by Sort, whatever order the input had. */
  lemma {:induction false} SortUnique<T>(less: (T, T) -> bool, s: seq<T>, r: seq<T>)
    requires multiset(r) == multiset(s) && TotalOn(less, s) && Sorted(less, r)
    ensures r == Sort(less, s)
  {
    SortMultiset(less, s);
    SameElements(s, r);
    SortSorted(less, s);
    SortedUnique(less, r, Sort(less, s));
  }

  /** Move a[i] left to its place among the elements before it. */
  method InsertInPlace<T>(a: array<T>, i: nat, less: (T, T) -> bool)
    requires i < a.Length
    modifies a
    ensures a[..i + 1] == Insert(less, old(a[i]), old(a[..i]))
    ensures forall k :: i < k < a.Length ==> a[k] == old(a[k])
  {
    hide Insert;
    ghost var s := a[..i];
    var x := a[i];
    var j := i;
    assert s[..j] == s && s[j..] == [];
    while j > 0 && less(x, a[j - 1])
      invariant 0 <= j <= i && a[j] == x
      invariant forall k :: 0 <= k < j ==> a[k] == s[k]
      invariant forall k :: j < k <= i ==> a[k] == s[k - 1]
      invariant forall k :: i < k < a.Length ==> a[k] == old(a[k])
      invariant Insert(less, x, s) == Insert(less, x, s[..j]) + s[j..]
    {
      InsertStep(less, x, s, j);
      a[j] := a[j - 1];
      j := j - 1;
      a[j] := x;
    }
    InsertStop(less, x, s[..j]);
    assert a[..i + 1] == s[..j] + [x] + s[j..];
  }

  lemma {:induction false} InsertStop<T>(less: (T, T) -> bool, x: T, s: seq<T>)
    requires s == [] || !less(x, s[|s| - 1])
    ensures Insert(less, x, s) == s + [x]
  {
  }

  lemma {:induction false} InsertStep<T>(less: (T, T) -> bool, x: T, s: seq<T>, j: nat)
    requires 0 < j <= |s| && less(x, s[j - 1])
    ensures Insert(less, x, s[..j]) + s[j..] == Insert(less, x, s[..j - 1]) + s[j - 1..]
  {
    assert s[..j][..j - 1] == s[..j - 1];
    assert s[j - 1..] == [s[j - 1]] + s[j..];
  }

  /** Sort a whole array in place. */
  method SortSlice<T>(a: array<T>, less: (T, T) -> bool)
    modifies a
    ensures a[..] == Sort(less, old(a[..]))
  {
    ghost var s := a[..];
    var i := 0;
    while i < a.Length
      invariant 0 <= i <= a.Length
      invariant a[..i] == Sort(less, s[..i])
      invariant forall k :: i <= k < a.Length ==> a[k] == s[k]
    {
      assert s[..i + 1][..i] == s[..i];
      InsertInPlace(a, i, less);
      i := i + 1;
    }
    assert a[..] == a[..i] && s == s[..i];
  }
}
