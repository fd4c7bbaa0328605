/** Grouping a list by a string key the way a page does it with a `Map`:
    walk the list, push each element onto the bucket of its key (a new key
    goes to the end of the map's insertion order), then sort the buckets by
    key. */
module Grouping {
  import opened Sequences

  /** A key and the elements carrying it, in list order. */
  datatype Group<T> = Group(title: string, members: seq<T>)

  /** The keys in the order they are first met: each once, every element's
      key present, and no key that no element carries. */
  function KeysInOrder<T>(xs: seq<T>, key: T -> string): (keys: seq<string>)
    ensures Distinct(keys)
    ensures forall x :: x in xs ==> key(x) in keys
    ensures forall j :: 0 <= j < |keys| ==>
      exists i :: 0 <= i < |xs| && key(xs[i]) == keys[j]
    decreases |xs|
  {
    if |xs| == 0 then []
    else
      var init := xs[..|xs| - 1];
      var prev := KeysInOrder(init, key);
      var k := key(xs[|xs| - 1]);
      assert xs == init + [xs[|xs| - 1]];
      assert forall i :: 0 <= i < |init| ==> init[i] == xs[i];
      if k in prev then prev
      else
        var keys := prev + [k];
        assert keys[|prev|] == key(xs[|xs| - 1]);
        keys
  }

  /** The elements carrying one key, in list order. */
  function Bucket<T>(xs: seq<T>, key: T -> string, title: string): seq<T>
  {
    Filter(xs, (x: T) => key(x) == title)
  }

  /** Appending an element appends it to its own bucket and to no other. */
  lemma BucketSnoc<T>(xs: seq<T>, x: T, key: T -> string, title: string)
    ensures Bucket(xs + [x], key, title) ==
      Bucket(xs, key, title) + (if key(x) == title then [x] else [])
  {
    FilterAppend(xs, [x], (y: T) => key(y) == title);
    assert [x][1..] == [];
  }

  /** Prepending an element prepends it to its own bucket and to no other. */
  lemma BucketCons<T>(x: T, xs: seq<T>, key: T -> string, title: string)
    ensures Bucket([x] + xs, key, title) ==
      (if key(x) == title then [x] else []) + Bucket(xs, key, title)
  {
    assert ([x] + xs)[0] == x && ([x] + xs)[1..] == xs;
  }

  /** One group per key of `keys`, in that order. */
  function Buckets<T>(xs: seq<T>, key: T -> string, keys: seq<string>): (groups: seq<Group<T>>)
    ensures |groups| == |keys|
    ensures forall j :: 0 <= j < |keys| ==>
      groups[j] == Group(keys[j], Bucket(xs, key, keys[j]))
    decreases |keys|
  {
    if |keys| == 0 then []
    else [Group(keys[0], Bucket(xs, key, keys[0]))] + Buckets(xs, key, keys[1..])
  }

  /** Groups compared by `a.title.localeCompare(b.title)`. */
  function ByTitle<T>(le: (string, string) -> bool): (Group<T>, Group<T>) -> bool
  {
    OrderBy((g: Group<T>) => g.title, le)
  }

  /** The buckets in first-seen order, then sorted by key. */
  function GroupBy<T>(xs: seq<T>, key: T -> string, le: (string, string) -> bool): seq<Group<T>>
  {
    SortBy(Buckets(xs, key, KeysInOrder(xs, key)), ByTitle(le))
  }

  /** The state of the walk after the elements `seen`: the map's keys in
      insertion order, and what each key maps to. */
  ghost predicate Walked<T>(seen: seq<T>, key: T -> string, order: seq<string>, buckets: map<string, seq<T>>)
  {
    && order == KeysInOrder(seen, key)
    && (forall t :: t in buckets <==> t in order)
    && (forall t :: t in buckets ==> buckets[t] == Bucket(seen, key, t))
  }

  /** Appending an element adds its key at the end of the key order when it
      is new. */
  lemma KeysInOrderSnoc<T>(seen: seq<T>, x: T, key: T -> string)
    ensures KeysInOrder(seen + [x], key) ==
      if key(x) in KeysInOrder(seen, key) then KeysInOrder(seen, key) else KeysInOrder(seen, key) + [key(x)]
  {
    var next := seen + [x];
    assert next[..|next| - 1] == seen;
  }

  /** One step of the walk keeps its state in step with the elements seen. */
  lemma WalkStep<T>(seen: seq<T>, x: T, key: T -> string, order: seq<string>, buckets: map<string, seq<T>>)
    requires Walked(seen, key, order, buckets)
    ensures Walked(seen + [x], key,
      if key(x) in buckets then order else order + [key(x)],
      buckets[key(x) := (if key(x) in buckets then buckets[key(x)] else []) + [x]])
  {
    var k := key(x);
    var buckets' := buckets[k := (if k in buckets then buckets[k] else []) + [x]];
    WalkOrderStep(seen, x, key, order, buckets.Keys);
    forall t | t in buckets'
      ensures buckets'[t] == Bucket(seen + [x], key, t)
    {
      BucketStep(seen, x, key, t, buckets);
    }
  }

  /** One step of the walk on the key order and the map's key set. */
  lemma WalkOrderStep<T>(seen: seq<T>, x: T, key: T -> string, order: seq<string>, keys: set<string>)
    requires order == KeysInOrder(seen, key)
    requires forall t :: t in keys <==> t in order
    ensures (if key(x) in keys then order else order + [key(x)]) == KeysInOrder(seen + [x], key)
    ensures forall t :: t in keys + {key(x)} <==> t in (if key(x) in keys then order else order + [key(x)])
  {
    KeysInOrderSnoc(seen, x, key);
  }

  /** What one step does to the bucket of one key. */
  lemma BucketStep<T>(seen: seq<T>, x: T, key: T -> string, t: string, buckets: map<string, seq<T>>)
    requires forall u :: u in buckets ==> buckets[u] == Bucket(seen, key, u)
    requires forall u :: u !in buckets ==> u !in KeysInOrder(seen, key)
    ensures Bucket(seen + [x], key, t) ==
      (if t in buckets then buckets[t] else []) + (if key(x) == t then [x] else [])
  {
    BucketSnoc(seen, x, key, t);
    if t !in buckets {
      FilterAllOrNone(seen, (y: T) => key(y) == t);
    }
  }

  lemma TakeNext<T>(xs: seq<T>, i: nat)
    requires i < |xs|
    ensures xs[..i + 1] == xs[..i] + [xs[i]]
  {
  }

  /** The walk: push each element onto the list its key maps to in a `Map`
      that remembers insertion order (a new key gets a fresh list and goes
      last). */
  method Walk<T>(xs: seq<T>, key: T -> string) returns (order: seq<string>, buckets: map<string, seq<T>>)
    ensures Walked(xs, key, order, buckets)
  {
    order, buckets := [], map[];
    ghost var seen: seq<T> := [];
    var i := 0;
    while i < |xs|
      invariant 0 <= i <= |xs| && seen == xs[..i]
      invariant Walked(seen, key, order, buckets)
    {
      var x := xs[i];
      var title := key(x);
      WalkStep(seen, x, key, order, buckets);
      var existing := if title in buckets then buckets[title] else [];
      existing := existing + [x];
      if title !in buckets {
        order := order + [title];
      }
      buckets := buckets[title := existing];
      TakeNext(xs, i);
      seen := seen + [x];
      i := i + 1;
    }
    assert xs[..i] == xs;
  }

  /** `Array.from(map.entries()).map(...).sort(...)` after the walk. */
  method GroupWithMap<T>(xs: seq<T>, key: T -> string, le: (string, string) -> bool)
    returns (groups: seq<Group<T>>)
    ensures groups == GroupBy(xs, key, le)
  {
    var order, buckets := Walk(xs, key);
    var entries := seq(|order|, j requires 0 <= j < |order| => Group(order[j], buckets[order[j]]));
    EntriesAreBuckets(xs, key, order, buckets, entries);
    groups := SortBy(entries, ByTitle(le));
  }

  /** The map's entries, read in insertion order, are the buckets of the
      keys in first-seen order. */
  lemma EntriesAreBuckets<T>(xs: seq<T>, key: T -> string, order: seq<string>,
                             buckets: map<string, seq<T>>, entries: seq<Group<T>>)
    requires Walked(xs, key, order, buckets)
    requires |entries| == |order|
    requires forall j :: 0 <= j < |order| ==> entries[j] == Group(order[j], buckets[order[j]])
    ensures entries == Buckets(xs, key, KeysInOrder(xs, key))
  {
  }

  // ---------------------------------------------------------------------------
  // The groups partition the list
  // ---------------------------------------------------------------------------

  /** Every group holds exactly the elements of its key, and at least one. */
  lemma GroupsAreBuckets<T>(xs: seq<T>, key: T -> string, le: (string, string) -> bool)
    ensures forall g :: g in GroupBy(xs, key, le) ==>
      g.members == Bucket(xs, key, g.title) && |g.members| > 0
  {
    var unsorted := Buckets(xs, key, KeysInOrder(xs, key));
    BucketsNonEmpty(xs, key);
    forall g | g in GroupBy(xs, key, le)
      ensures g in unsorted
    {
      assert g in multiset(unsorted);
    }
  }

  /** Before the sort: each bucket is its key's elements, and not empty. */
  lemma BucketsNonEmpty<T>(xs: seq<T>, key: T -> string)
    ensures forall g :: g in Buckets(xs, key, KeysInOrder(xs, key)) ==>
      g.members == Bucket(xs, key, g.title) && |g.members| > 0
  {
    var unsorted := Buckets(xs, key, KeysInOrder(xs, key));
    forall g | g in unsorted
      ensures g.members == Bucket(xs, key, g.title) && |g.members| > 0
    {
      var j :| 0 <= j < |unsorted| && unsorted[j] == g;
      KeyBucketNonEmpty(xs, key, j);
    }
  }

  /** A key met in the list has a non-empty bucket. */
  lemma KeyBucketNonEmpty<T>(xs: seq<T>, key: T -> string, j: nat)
    requires j < |KeysInOrder(xs, key)|
    ensures |Bucket(xs, key, KeysInOrder(xs, key)[j])| > 0
  {
    var title := KeysInOrder(xs, key)[j];
    var i :| 0 <= i < |xs| && key(xs[i]) == title;
    assert xs[i] in Bucket(xs, key, title);
  }

  /** No two groups share a key. */
  lemma GroupTitlesDistinct<T>(xs: seq<T>, key: T -> string, le: (string, string) -> bool)
    ensures forall i, j :: 0 <= i < j < |GroupBy(xs, key, le)| ==>
      GroupBy(xs, key, le)[i].title != GroupBy(xs, key, le)[j].title
  {
    var keys := KeysInOrder(xs, key);
    var unsorted := Buckets(xs, key, keys);
    var groups := GroupBy(xs, key, le);
    assert Distinct(unsorted) by {
      forall i, j | 0 <= i < j < |unsorted|
        ensures unsorted[i] != unsorted[j]
      {
        assert unsorted[i].title == keys[i] && unsorted[j].title == keys[j];
      }
    }
    SortByDistinct(unsorted, ByTitle(le));
    GroupsAreBuckets(xs, key, le);
    forall i, j | 0 <= i < j < |groups|
      ensures groups[i].title != groups[j].title
    {
      assert groups[i] in groups && groups[j] in groups;
    }
  }

  /** Every element sits in the group of its own key. */
  lemma EveryElementGrouped<T>(xs: seq<T>, key: T -> string, le: (string, string) -> bool)
    ensures forall x :: x in xs ==>
      exists g :: g in GroupBy(xs, key, le) && g.title == key(x) && x in g.members
  {
    var keys := KeysInOrder(xs, key);
    var unsorted := Buckets(xs, key, keys);
    var groups := GroupBy(xs, key, le);
    forall x | x in xs
      ensures exists g :: g in groups && g.title == key(x) && x in g.members
    {
      var j :| 0 <= j < |keys| && keys[j] == key(x);
      var g := unsorted[j];
      assert x in g.members;
      assert g in multiset(groups);
    }
  }

  /** With a consistent `localeCompare`, the groups come out in key order. */
  lemma GroupsSorted<T(!new)>(xs: seq<T>, key: T -> string, le: (string, string) -> bool)
    requires Total(le) && Transitive(le)
    ensures SortedBy(GroupBy(xs, key, le), ByTitle(le))
  {
    OrderByConsistent((g: Group<T>) => g.title, le);
    SortBySorted(Buckets(xs, key, KeysInOrder(xs, key)), ByTitle(le));
  }

  // ---------------------------------------------------------------------------
  // Counts per group add up to the count over the list
  // ---------------------------------------------------------------------------

  /** The sum over the groups of how many of their members satisfy `p`. */
  function CountAcross<T>(groups: seq<Group<T>>, p: T -> bool): nat
    decreases |groups|
  {
    if |groups| == 0 then 0
    else |Filter(groups[0].members, p)| + CountAcross(groups[1..], p)
  }

  lemma {:induction false} CountAcrossInsert<T>(g: Group<T>, gs: seq<Group<T>>, p: T -> bool,
                                                le: (Group<T>, Group<T>) -> bool)
    ensures CountAcross(Insert(g, gs, le), p) == |Filter(g.members, p)| + CountAcross(gs, p)
    decreases |gs|
  {
    if |gs| == 0 || le(g, gs[0]) {
      assert ([g] + gs)[1..] == gs;
    } else {
      CountAcrossInsert(g, gs[1..], p, le);
      var r := Insert(g, gs, le);
      assert r[0] == gs[0] && r[1..] == Insert(g, gs[1..], le);
    }
  }

  /** Reordering the groups does not change the sum. */
  lemma {:induction false} CountAcrossSort<T>(gs: seq<Group<T>>, p: T -> bool,
                                              le: (Group<T>, Group<T>) -> bool)
    ensures CountAcross(SortBy(gs, le), p) == CountAcross(gs, p)
    decreases |gs|
  {
    if |gs| > 0 {
      CountAcrossSort(gs[1..], p, le);
      CountAcrossInsert(gs[0], SortBy(gs[1..], le), p, le);
    }
  }

  /** One more element at the front adds one to the sum when it satisfies `p`
      and its key is among the buckets. */
  lemma {:induction false} CountAcrossCons<T>(x: T, xs: seq<T>, key: T -> string, keys: seq<string>,
                                              p: T -> bool)
    requires Distinct(keys)
    ensures CountAcross(Buckets([x] + xs, key, keys), p) ==
      CountAcross(Buckets(xs, key, keys), p) + (if key(x) in keys && p(x) then 1 else 0)
    decreases |keys|
  {
    if |keys| > 0 {
      var title := keys[0];
      BucketCons(x, xs, key, title);
      FilterAppend(if key(x) == title then [x] else [], Bucket(xs, key, title), p);
      assert Distinct(keys[1..]);
      assert key(x) == title ==> key(x) !in keys[1..];
      assert key(x) in keys <==> key(x) == title || key(x) in keys[1..];
      CountAcrossCons(x, xs, key, keys[1..], p);
    }
  }

  lemma {:induction false} CountAcrossEmpty<T>(key: T -> string, keys: seq<string>, p: T -> bool)
    ensures CountAcross(Buckets([], key, keys), p) == 0
    decreases |keys|
  {
    if |keys| > 0 {
      CountAcrossEmpty(key, keys[1..], p);
    }
  }

  lemma {:induction false} CountAcrossBuckets<T>(xs: seq<T>, key: T -> string, keys: seq<string>,
                                                 p: T -> bool)
    requires Distinct(keys)
    requires forall x :: x in xs ==> key(x) in keys
    ensures CountAcross(Buckets(xs, key, keys), p) == |Filter(xs, p)|
    decreases |xs|
  {
    if |xs| == 0 {
      CountAcrossEmpty(key, keys, p);
    } else {
      assert [xs[0]] + xs[1..] == xs;
      assert xs[0] in xs;
      assert forall x :: x in xs[1..] ==> x in xs;
      CountAcrossBuckets(xs[1..], key, keys, p);
      CountAcrossCons(xs[0], xs[1..], key, keys, p);
    }
  }

  /** Counting per group and adding up gives the count over the whole list. */
  lemma GroupByCount<T>(xs: seq<T>, key: T -> string, le: (string, string) -> bool, p: T -> bool)
    ensures CountAcross(GroupBy(xs, key, le), p) == |Filter(xs, p)|
  {
    var keys := KeysInOrder(xs, key);
    CountAcrossSort(Buckets(xs, key, keys), p, ByTitle(le));
    CountAcrossBuckets(xs, key, keys, p);
  }
}
