/** A distribution as the stats endpoint and the stats page hold it
    (`Record<string, number>`), seen through `Object.entries`: a list of
    name/count pairs in the object's enumeration order. */
module Distribution {
  import opened Sequences

  /** One `[name, value]` pair of `Object.entries`. */
  type Entry = (string, int)

  /** The comparator `([, a], [, b]) => b - a`, read as "at most zero": the
      first entry may precede the second when its value is at least as
      large. */
  function Descending(): (Entry, Entry) -> bool
  {
    (a: Entry, b: Entry) => b.1 - a.1 <= 0
  }

  /** Subtracting integer counts gives a consistent comparator. */
  lemma DescendingConsistent()
    ensures Total(Descending()) && Transitive(Descending())
  {
    var cmp := Descending();
    forall a: Entry, b: Entry
      ensures cmp(a, b) || cmp(b, a)
    {
      assert a.1 >= b.1 || b.1 >= a.1;
    }
    forall a: Entry, b: Entry, c: Entry | cmp(a, b) && cmp(b, c)
      ensures cmp(a, c)
    {
      assert a.1 >= b.1 && b.1 >= c.1;
    }
  }

  /** `[...entries].sort(([, a], [, b]) => b - a)`: the same entries, the
      largest values first. */
  function ByValueDescending(entries: seq<Entry>): (sorted: seq<Entry>)
    ensures multiset(sorted) == multiset(entries)
    ensures forall i, j :: 0 <= i < j < |sorted| ==> sorted[i].1 >= sorted[j].1
  {
    DescendingConsistent();
    SortBySorted(entries, Descending());
    var sorted := SortBy(entries, Descending());
    assert forall i, j :: 0 <= i < j < |sorted| ==> Descending()(sorted[i], sorted[j]);
    sorted
  }

  /** The values added up, as `reduce((sum, [, value]) => sum + value, 0)`. */
  function SumValues(entries: seq<Entry>): int
    decreases |entries|
  {
    if |entries| == 0 then 0 else entries[0].1 + SumValues(entries[1..])
  }

  lemma {:induction false} SumValuesInsert(x: Entry, ys: seq<Entry>, le: (Entry, Entry) -> bool)
    ensures SumValues(Insert(x, ys, le)) == x.1 + SumValues(ys)
    decreases |ys|
  {
    if |ys| == 0 || le(x, ys[0]) {
      assert ([x] + ys)[1..] == ys;
    } else {
      SumValuesInsert(x, ys[1..], le);
      var r := Insert(x, ys, le);
      assert r[0] == ys[0] && r[1..] == Insert(x, ys[1..], le);
    }
  }

  /** Sorting does not change the total. */
  lemma {:induction false} SumValuesSort(entries: seq<Entry>, le: (Entry, Entry) -> bool)
    ensures SumValues(SortBy(entries, le)) == SumValues(entries)
    decreases |entries|
  {
    if |entries| > 0 {
      SumValuesSort(entries[1..], le);
      SumValuesInsert(entries[0], SortBy(entries[1..], le), le);
    }
  }

  /** The first `n` entries of a list sorted largest first: sorted the same
      way, part of the list, and at least as large as everything left out. */
  lemma TakeSorted(sorted: seq<Entry>, n: nat)
    requires forall i, j :: 0 <= i < j < |sorted| ==> sorted[i].1 >= sorted[j].1
    ensures forall i, j :: 0 <= i < j < |Take(sorted, n)| ==> Take(sorted, n)[i].1 >= Take(sorted, n)[j].1
    ensures multiset(Take(sorted, n)) <= multiset(sorted)
    ensures forall e, t :: e in multiset(sorted) - multiset(Take(sorted, n)) && t in Take(sorted, n) ==> e.1 <= t.1
  {
    var top := Take(sorted, n);
    SortedPrefixBeatsRest(sorted, |top|);
    TakeSplits(sorted, n);
  }

  /** In a list sorted largest first, nothing after the first `k` entries has
      a larger value than any of them. */
  lemma SortedPrefixBeatsRest(sorted: seq<Entry>, k: nat)
    requires k <= |sorted|
    requires forall i, j :: 0 <= i < j < |sorted| ==> sorted[i].1 >= sorted[j].1
    ensures forall e, t :: e in multiset(sorted) - multiset(sorted[..k]) && t in sorted[..k] ==> e.1 <= t.1
  {
    var top, rest := sorted[..k], sorted[k..];
    assert sorted == top + rest;
    assert multiset(sorted) - multiset(top) == multiset(rest);
    forall e, t | e in multiset(sorted) - multiset(top) && t in top
      ensures e.1 <= t.1
    {
      assert e in rest;
      var j :| 0 <= j < |rest| && rest[j] == e;
      var i :| 0 <= i < |top| && top[i] == t;
      assert sorted[i] == t && sorted[k + j] == e;
    }
  }

  /** Entries whose names differ pairwise, as those of `Object.entries`. */
  predicate DistinctNames(entries: seq<Entry>)
  {
    forall i, j :: 0 <= i < j < |entries| ==> entries[i].0 != entries[j].0
  }

  /** An entry whose name no other entry carries occurs once. */
  lemma {:induction false} SingleOccurrence(entries: seq<Entry>, i: nat)
    requires i < |entries|
    requires forall j :: 0 <= j < |entries| && j != i ==> entries[j].0 != entries[i].0
    ensures multiset(entries)[entries[i]] == 1
    decreases |entries|
  {
    var last := |entries| - 1;
    if i == last {
      assert entries == entries[..last] + [entries[last]];
      assert entries[i] !in entries[..last];
    } else {
      assert entries == entries[..last] + [entries[last]];
      SingleOccurrence(entries[..last], i);
    }
  }

  /** Two positions holding the same entry make it occur twice. */
  lemma TwoPositions(s: seq<Entry>, i: nat, j: nat)
    requires i < j < |s|
    ensures multiset(s)[s[i]] >= 1 + (if s[j] == s[i] then 1 else 0)
  {
    assert s == s[..j] + s[j..];
    assert s[i] in s[..j] && s[j] in s[j..];
  }

  /** Sorting and selecting keep the names distinct. */
  lemma SubMultisetDistinctNames(sub: seq<Entry>, entries: seq<Entry>)
    requires DistinctNames(entries)
    requires multiset(sub) <= multiset(entries)
    ensures DistinctNames(sub)
  {
    forall i, j | 0 <= i < j < |sub|
      ensures sub[i].0 != sub[j].0
    {
      assert sub[i] in multiset(entries) && sub[j] in multiset(entries);
      var a :| 0 <= a < |entries| && entries[a] == sub[i];
      var b :| 0 <= b < |entries| && entries[b] == sub[j];
      SingleOccurrence(entries, a);
      TwoPositions(sub, i, j);
      assert sub[i] != sub[j];
      assert a != b;
    }
  }
}
