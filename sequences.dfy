/** The array operations the pages call on card lists and entry lists:
    `filter`, `slice(0, n)` and `sort` with a comparator. */
module Sequences {

  // ---------------------------------------------------------------------------
  // filter
  // ---------------------------------------------------------------------------

  /** `s.filter(p)`: the elements satisfying `p`, in their original order. */
  function Filter<T>(s: seq<T>, p: T -> bool): (r: seq<T>)
    ensures |r| <= |s|
    ensures forall i :: 0 <= i < |r| ==> p(r[i]) && r[i] in s
    ensures forall x :: x in s && p(x) ==> x in r
  {
    if |s| == 0 then []
    else (if p(s[0]) then [s[0]] else []) + Filter(s[1..], p)
  }

  /** Filtering distributes over concatenation, which is what makes a filter
      over a list built element by element equal to the filter of the whole. */
  lemma {:induction false} FilterAppend<T>(a: seq<T>, b: seq<T>, p: T -> bool)
    ensures Filter(a + b, p) == Filter(a, p) + Filter(b, p)
    decreases |a|
  {
    if |a| > 0 {
      assert (a + b)[1..] == a[1..] + b;
      FilterAppend(a[1..], b, p);
    } else {
      assert a + b == b;
    }
  }

  /** Filtering with a predicate no element satisfies gives nothing, and with
      one every element satisfies gives everything. */
  lemma {:induction false} FilterAllOrNone<T>(s: seq<T>, p: T -> bool)
    ensures (forall x :: x in s ==> !p(x)) ==> Filter(s, p) == []
    ensures (forall x :: x in s ==> p(x)) ==> Filter(s, p) == s
    decreases |s|
  {
    if |s| > 0 {
      FilterAllOrNone(s[1..], p);
      assert forall x :: x in s[1..] ==> x in s;
      assert [s[0]] + s[1..] == s;
    }
  }

  // ---------------------------------------------------------------------------
  // slice(0, n)
  // ---------------------------------------------------------------------------

  /** `s.slice(0, n)`: the first `n` elements, or all of them when fewer. */
  function Take<T>(s: seq<T>, n: nat): (r: seq<T>)
    ensures |r| == if |s| <= n then |s| else n
    ensures r == s[..|r|]
  {
    if |s| <= n then s else s[..n]
  }

  /** What is taken is part of the whole; the rest is what is left. */
  lemma TakeSplits<T>(s: seq<T>, n: nat)
    ensures s == Take(s, n) + s[|Take(s, n)|..]
    ensures multiset(s) - multiset(Take(s, n)) == multiset(s[|Take(s, n)|..])
    ensures multiset(Take(s, n)) <= multiset(s)
  {
    var r := Take(s, n);
    assert s == r + s[|r|..];
  }

  // ---------------------------------------------------------------------------
  // sort with a comparator
  // ---------------------------------------------------------------------------

  /** `le(a, b)` reads "the comparator returns at most zero for (a, b)". The
      comparator is consistent when `le` is total and transitive. */
  ghost predicate Total<T(!new)>(le: (T, T) -> bool)
  {
    forall a, b :: le(a, b) || le(b, a)
  }

  ghost predicate Transitive<T(!new)>(le: (T, T) -> bool)
  {
    forall a, b, c :: le(a, b) && le(b, c) ==> le(a, c)
  }

  predicate SortedBy<T>(s: seq<T>, le: (T, T) -> bool)
  {
    forall i, j :: 0 <= i < j < |s| ==> le(s[i], s[j])
  }

  /** Places `x` before the first element it may precede, so `x` goes
      ahead of any element that compares equal to it. */
  function Insert<T>(x: T, ys: seq<T>, le: (T, T) -> bool): (r: seq<T>)
    ensures |r| == |ys| + 1
    ensures multiset(r) == multiset{x} + multiset(ys)
  {
    if |ys| == 0 || le(x, ys[0]) then [x] + ys
    else
      assert ys == [ys[0]] + ys[1..];
      [ys[0]] + Insert(x, ys[1..], le)
  }

  /** `[...s].sort(cmp)`, as an insertion sort from the back: each element is
      inserted ahead of the later elements it compares equal to, the order
      ECMAScript 2019's stable sort gives. Its result is a permutation of `s`. */
  function SortBy<T>(s: seq<T>, le: (T, T) -> bool): (r: seq<T>)
    ensures |r| == |s|
    ensures multiset(r) == multiset(s)
  {
    if |s| == 0 then []
    else
      assert s == [s[0]] + s[1..];
      Insert(s[0], SortBy(s[1..], le), le)
  }

  lemma {:induction false} InsertSorted<T(!new)>(x: T, ys: seq<T>, le: (T, T) -> bool)
    requires Total(le) && Transitive(le)
    requires SortedBy(ys, le)
    ensures SortedBy(Insert(x, ys, le), le)
    decreases |ys|
  {
    if |ys| == 0 || le(x, ys[0]) {
    } else {
      assert le(ys[0], x);
      var tail := Insert(x, ys[1..], le);
      InsertSorted(x, ys[1..], le);
      forall k | 0 <= k < |tail|
        ensures le(ys[0], tail[k])
      {
        assert tail[k] in multiset(tail);
        if tail[k] != x {
          assert tail[k] in multiset(ys[1..]);
          var j :| 0 <= j < |ys[1..]| && ys[1..][j] == tail[k];
          assert ys[j + 1] == tail[k];
        }
      }
    }
  }

  /** Under a consistent comparator the result is ordered. */
  lemma {:induction false} SortBySorted<T(!new)>(s: seq<T>, le: (T, T) -> bool)
    requires Total(le) && Transitive(le)
    ensures SortedBy(SortBy(s, le), le)
    decreases |s|
  {
    if |s| > 0 {
      SortBySorted(s[1..], le);
      InsertSorted(s[0], SortBy(s[1..], le), le);
    }
  }

  /** The order a comparator on keys induces on the values carrying them:
      `(a, b) => cmp(key(a), key(b))`. */
  function OrderBy<A, B>(key: A -> B, le: (B, B) -> bool): (A, A) -> bool
  {
    (a: A, b: A) => le(key(a), key(b))
  }

  /** A consistent comparator on keys gives a consistent one on values. */
  lemma OrderByConsistent<A(!new), B(!new)>(key: A -> B, le: (B, B) -> bool)
    requires Total(le) && Transitive(le)
    ensures Total(OrderBy(key, le)) && Transitive(OrderBy(key, le))
  {
    var cmp := OrderBy(key, le);
    forall a: A, b: A
      ensures cmp(a, b) || cmp(b, a)
    {
      assert le(key(a), key(b)) || le(key(b), key(a));
    }
    forall a: A, b: A, c: A | cmp(a, b) && cmp(b, c)
      ensures cmp(a, c)
    {
      assert le(key(a), key(b)) && le(key(b), key(c));
    }
  }

  // ---------------------------------------------------------------------------
  // Distinct elements
  // ---------------------------------------------------------------------------

  predicate Distinct<T(==)>(s: seq<T>)
  {
    forall i, j :: 0 <= i < j < |s| ==> s[i] != s[j]
  }

  lemma {:induction false} InsertDistinct<T>(x: T, ys: seq<T>, le: (T, T) -> bool)
    requires Distinct(ys) && x !in ys
    ensures Distinct(Insert(x, ys, le))
    decreases |ys|
  {
    if |ys| == 0 || le(x, ys[0]) {
    } else {
      var tail := Insert(x, ys[1..], le);
      assert x !in ys[1..];
      InsertDistinct(x, ys[1..], le);
      assert ys[0] !in ys[1..];
      assert ys[0] !in multiset(tail);
      assert ys[0] !in tail;
    }
  }

  /** Sorting keeps the elements apart: a list without repetitions sorts to
      one without repetitions. */
  lemma {:induction false} SortByDistinct<T>(s: seq<T>, le: (T, T) -> bool)
    requires Distinct(s)
    ensures Distinct(SortBy(s, le))
    decreases |s|
  {
    if |s| > 0 {
      assert Distinct(s[1..]);
      SortByDistinct(s[1..], le);
      assert s[0] !in s[1..];
      assert s[0] !in multiset(SortBy(s[1..], le));
      InsertDistinct(s[0], SortBy(s[1..], le), le);
    }
  }
}
