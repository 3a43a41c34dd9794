/** The numpy index-array operations the engine relies on: `np.arange`,
    `np.unique`, `np.intersect1d`, `np.setdiff1d`, `np.where(x > t)[0]` and
    `np.concatenate`, over sequences of integers. */
module NdArray {

  predicate StrictlyIncreasing(s: seq<int>) {
    forall i, j :: 0 <= i < j < |s| ==> s[i] < s[j]
  }

  predicate NoDup<T(==)>(s: seq<T>) {
    forall i, j :: 0 <= i < j < |s| ==> s[i] != s[j]
  }

  /** `np.arange(n)`. */
  function Arange(n: nat): (r: seq<int>)
    ensures |r| == n && StrictlyIncreasing(r)
    ensures forall x :: x in r <==> 0 <= x < n
    decreases n
  {
    if n == 0 then []
    else
      var front := Arange(n - 1);
      IncreasingAppend(front, [n - 1]);
      front + [n - 1]
  }

  /** Inserts `x` into a strictly increasing sequence, keeping it so. */
  function Insert(x: int, s: seq<int>): (r: seq<int>)
    requires StrictlyIncreasing(s)
    ensures StrictlyIncreasing(r)
    ensures forall y :: y in r <==> y == x || y in s
    decreases |s|
  {
    if s == [] then [x]
    else if x < s[0] then [x] + s
    else if x == s[0] then s
    else
      var rest := Insert(x, s[1..]);
      assert forall y :: y in rest ==> s[0] < y;
      IncreasingAppend([s[0]], rest);
      [s[0]] + rest
  }

  /** `np.unique(a)`: the distinct values of `a`, in increasing order. */
  function Unique(a: seq<int>): (r: seq<int>)
    ensures StrictlyIncreasing(r)
    ensures forall x :: x in r <==> x in a
    decreases |a|
  {
    if a == [] then []
    else
      var n := |a| - 1;
      assert forall x :: x in a <==> x in a[..n] || x == a[n];
      Insert(a[n], Unique(a[..n]))
  }

  /** The elements of `s` that satisfy `keep`, in their original order. */
  function Filter(s: seq<int>, keep: int -> bool): (r: seq<int>)
    ensures forall x :: x in r <==> x in s && keep(x)
    ensures StrictlyIncreasing(s) ==> StrictlyIncreasing(r)
    decreases |s|
  {
    if s == [] then []
    else
      var rest := Filter(s[1..], keep);
      var head := if keep(s[0]) then [s[0]] else [];
      if StrictlyIncreasing(s) then
        assert forall y :: y in rest ==> s[0] < y;
        IncreasingAppend(head, rest);
        head + rest
      else
        head + rest
  }

  /** `np.intersect1d(a, b)`: the sorted, unique values found in both. */
  function Intersect1d(a: seq<int>, b: seq<int>): (r: seq<int>)
    ensures StrictlyIncreasing(r)
    ensures forall x :: x in r <==> x in a && x in b
  {
    Filter(Unique(a), x => x in b)
  }

  /** `np.setdiff1d(a, b)`: the sorted, unique values of `a` not in `b`. */
  function SetDiff1d(a: seq<int>, b: seq<int>): (r: seq<int>)
    ensures StrictlyIncreasing(r)
    ensures forall x :: x in r <==> x in a && x !in b
  {
    Filter(Unique(a), x => x !in b)
  }

  /** `np.where(xs > t)[0]`: the positions whose value is strictly above `t`. */
  function WhereGreater(xs: seq<real>, t: real): (r: seq<int>)
    ensures StrictlyIncreasing(r)
    ensures forall i :: i in r <==> 0 <= i < |xs| && xs[i] > t
    decreases |xs|
  {
    if xs == [] then []
    else
      var n := |xs| - 1;
      var front := WhereGreater(xs[..n], t);
      var last := if xs[n] > t then [n] else [];
      assert forall i :: i in front ==> i < n;
      IncreasingAppend(front, last);
      front + last
  }

  lemma IncreasingAppend(a: seq<int>, b: seq<int>)
    requires StrictlyIncreasing(a) && StrictlyIncreasing(b)
    requires forall x, y :: x in a && y in b ==> x < y
    ensures StrictlyIncreasing(a + b)
  {
    var r := a + b;
    forall i, j | 0 <= i < j < |r|
      ensures r[i] < r[j]
    {
      if j < |a| {
      } else if i >= |a| {
        assert r[i] == b[i - |a|] && r[j] == b[j - |a|];
      } else {
        assert r[i] in a && r[j] == b[j - |a|] && r[j] in b;
      }
    }
  }

  /** `np.concatenate(ss)`. */
  function Concat(ss: seq<seq<int>>): seq<int>
    decreases |ss|
  {
    if ss == [] then [] else ss[0] + Concat(ss[1..])
  }

  function SumLengths(ss: seq<seq<int>>): nat
    decreases |ss|
  {
    if ss == [] then 0 else |ss[0]| + SumLengths(ss[1..])
  }

  lemma {:induction false} ConcatMembership(ss: seq<seq<int>>, x: int)
    ensures x in Concat(ss) <==> exists j :: 0 <= j < |ss| && x in ss[j]
    decreases |ss|
  {
    if ss != [] {
      ConcatMembership(ss[1..], x);
      if x in ss[0] {
        assert 0 < |ss| && x in ss[0];
      }
      if exists j :: 0 <= j < |ss| && x in ss[j] {
        var j :| 0 <= j < |ss| && x in ss[j];
        if j > 0 {
          assert x in ss[1..][j - 1];
        }
      }
    }
  }

  lemma {:induction false} ConcatLength(ss: seq<seq<int>>)
    ensures |Concat(ss)| == SumLengths(ss)
    decreases |ss|
  {
    if ss != [] {
      ConcatLength(ss[1..]);
    }
  }

  /** Concatenating duplicate-free, pairwise disjoint pieces gives a duplicate-free result. */
  lemma {:induction false} ConcatNoDup(ss: seq<seq<int>>)
    requires forall j :: 0 <= j < |ss| ==> NoDup(ss[j])
    requires forall i, j, x :: 0 <= i < j < |ss| && x in ss[i] ==> x !in ss[j]
    ensures NoDup(Concat(ss))
    decreases |ss|
  {
    if ss != [] {
      var rest := Concat(ss[1..]);
      ConcatNoDup(ss[1..]);
      forall x | x in ss[0]
        ensures x !in rest
      {
        ConcatMembership(ss[1..], x);
      }
      var r := ss[0] + rest;
      forall i, j | 0 <= i < j < |r|
        ensures r[i] != r[j]
      {
        if j < |ss[0]| {
        } else if i >= |ss[0]| {
          assert r[i] == rest[i - |ss[0]|] && r[j] == rest[j - |ss[0]|];
        } else {
          assert r[i] in ss[0] && r[j] in rest;
        }
      }
    }
  }

  lemma StrictlyIncreasingNoDup(s: seq<int>)
    requires StrictlyIncreasing(s)
    ensures NoDup(s)
  {
  }

  /** A duplicate-free sequence holds each value at most once. */
  lemma {:induction false} NoDupCount<T>(s: seq<T>, x: T)
    requires NoDup(s)
    ensures multiset(s)[x] <= 1
    decreases |s|
  {
    if s != [] {
      var n := |s| - 1;
      assert s == s[..n] + [s[n]];
      NoDupCount(s[..n], x);
      if s[n] == x {
        assert x !in s[..n];
      }
    }
  }

  /** Two strictly increasing sequences with the same elements are equal. */
  lemma {:induction false} IncreasingDeterminedByElements(s: seq<int>, t: seq<int>)
    requires StrictlyIncreasing(s) && StrictlyIncreasing(t)
    requires forall x :: x in s <==> x in t
    ensures s == t
    decreases |s|
  {
    if s == [] || t == [] {
      HeadMember(s);
      HeadMember(t);
    } else {
      assert s[0] in s && s[0] in t;
      assert t[0] in t && t[0] in s;
      assert s[0] == t[0];
      forall x
        ensures x in s[1..] <==> x in t[1..]
      {
        assert x in s[1..] <==> x in s && x != s[0];
        assert x in t[1..] <==> x in t && x != t[0];
      }
      IncreasingDeterminedByElements(s[1..], t[1..]);
      assert s == [s[0]] + s[1..] && t == [t[0]] + t[1..];
    }
  }

  lemma HeadMember(s: seq<int>)
    ensures s != [] ==> s[0] in s
  {
  }

  function Elements(s: seq<int>): set<int> {
    set x | x in s
  }

  lemma {:induction false} ElementsSize(s: seq<int>)
    requires NoDup(s)
    ensures |Elements(s)| == |s|
    decreases |s|
  {
    if s != [] {
      var n := |s| - 1;
      ElementsSize(s[..n]);
      assert Elements(s) == Elements(s[..n]) + {s[n]};
      assert s[n] !in Elements(s[..n]);
    }
  }

  /** A duplicate-free sequence whose elements are exactly `0..n-1` has length `n`. */
  lemma NoDupRangeLength(s: seq<int>, n: nat)
    requires NoDup(s)
    requires forall x :: x in s <==> 0 <= x < n
    ensures |s| == n
  {
    ElementsSize(s);
    ElementsSize(Arange(n));
    assert Elements(s) == Elements(Arange(n));
  }
}
