/**
 * Sequence operations standing in for the database's queries over a collection:
 * lookup of the first matching record, filtering, counting, `$group` with
 * `$sum: 1`, and `sort`.
 */
module Seqs {
  import opened Wrappers

  /** The index of the first element satisfying `p`, as `findOne` returns the first match. */
  function FindIndex<T(!new)>(s: seq<T>, p: T -> bool): (r: Option<nat>)
    ensures r.Some? ==> r.value < |s| && p(s[r.value]) && forall j :: 0 <= j < r.value ==> !p(s[j])
    ensures r.None? <==> forall j :: 0 <= j < |s| ==> !p(s[j])
  {
    if s == [] then None
    else if p(s[0]) then Some(0)
    else match FindIndex(s[1..], p)
      case None => None
      case Some(k) => Some(k + 1)
  }

  /** The elements satisfying `p`, in their original order. */
  function Filter<T(!new)>(s: seq<T>, p: T -> bool): (r: seq<T>)
    ensures |r| <= |s|
    ensures forall x :: x in r <==> x in s && p(x)
  {
    if s == [] then []
    else (if p(s[0]) then [s[0]] else []) + Filter(s[1..], p)
  }

  /** Filtering keeps every passing element as often as it occurs and drops every other one. */
  lemma {:induction false} FilterMultiset<T(!new)>(s: seq<T>, p: T -> bool)
    ensures forall x :: multiset(Filter(s, p))[x] == if p(x) then multiset(s)[x] else 0
  {
    if s != [] {
      FilterMultiset(s[1..], p);
      assert s == [s[0]] + s[1..];
      assert multiset(s) == multiset([s[0]]) + multiset(s[1..]);
    }
  }

  /** Filtering with a predicate every element meets keeps the sequence. */
  lemma {:induction false} FilterAll<T(!new)>(s: seq<T>, p: T -> bool)
    requires forall x :: x in s ==> p(x)
    ensures Filter(s, p) == s
  {
    if s != [] {
      FilterAll(s[1..], p);
    }
  }

  /** Filtering a sequence extended by one element extends the result by that element when it passes. */
  lemma {:induction false} FilterSnoc<T(!new)>(s: seq<T>, x: T, p: T -> bool)
    ensures Filter(s + [x], p) == Filter(s, p) + (if p(x) then [x] else [])
  {
    if s != [] {
      assert (s + [x])[1..] == s[1..] + [x];
      FilterSnoc(s[1..], x, p);
    }
  }

  /** Filtering with two predicates that agree on every element gives the same result. */
  lemma {:induction false} FilterSame<T(!new)>(s: seq<T>, p: T -> bool, q: T -> bool)
    requires forall x :: x in s ==> p(x) == q(x)
    ensures Filter(s, p) == Filter(s, q)
  {
    if s != [] {
      FilterSame(s[1..], p, q);
    }
  }

  /** `r` is `s` with some elements left out and the rest in the same order. */
  ghost predicate IsSubsequence<T(!new)>(r: seq<T>, s: seq<T>)
    decreases |s|
  {
    r == [] || (s != [] && ((r[0] == s[0] && IsSubsequence(r[1..], s[1..])) || IsSubsequence(r, s[1..])))
  }

  /** Filtering keeps order: its result is a subsequence of its input. */
  lemma {:induction false} FilterIsSubsequence<T(!new)>(s: seq<T>, p: T -> bool)
    ensures IsSubsequence(Filter(s, p), s)
  {
    if s != [] {
      FilterIsSubsequence(s[1..], p);
      var r := Filter(s, p);
      if p(s[0]) {
        assert r[0] == s[0] && r[1..] == Filter(s[1..], p);
      } else {
        assert r == Filter(s[1..], p);
      }
    }
  }

  /** The positions of `s` whose element satisfies `p`. */
  function Positions<T>(s: seq<T>, p: T -> bool): set<int>
  {
    set i | 0 <= i < |s| && p(s[i])
  }

  /** The number of elements satisfying `p` (`countDocuments(filter)`): how many positions hold one. */
  function Count<T(!new)>(s: seq<T>, p: T -> bool): (n: nat)
    ensures n <= |s|
    ensures n == |Positions(s, p)|
  {
    if s == [] then 0
    else
      var k := |s| - 1;
      assert Positions(s, p) == Positions(s[..k], p) + (if p(s[k]) then {k} else {});
      Count(s[..k], p) + (if p(s[k]) then 1 else 0)
  }

  /** Counting is the length of the filtered sequence. */
  lemma {:induction false} CountFilter<T(!new)>(s: seq<T>, p: T -> bool)
    ensures Count(s, p) == |Filter(s, p)|
  {
    if s != [] {
      var k := |s| - 1;
      assert s == s[..k] + [s[k]];
      CountFilter(s[..k], p);
      FilterSnoc(s[..k], s[k], p);
    }
  }

  /** Two conditions no element meets together are counted apart: their counts add up to at most the whole. */
  lemma {:induction false} CountDisjoint<T(!new)>(s: seq<T>, p: T -> bool, q: T -> bool)
    requires forall x :: x in s ==> !(p(x) && q(x))
    ensures Count(s, p) + Count(s, q) <= |s|
  {
    CountFilter(s, p);
    CountFilter(s, q);
    if s != [] {
      CountDisjoint(s[1..], p, q);
      CountFilter(s[1..], p);
      CountFilter(s[1..], q);
      assert Filter(s, p) == (if p(s[0]) then [s[0]] else []) + Filter(s[1..], p);
      assert Filter(s, q) == (if q(s[0]) then [s[0]] else []) + Filter(s[1..], q);
    }
  }

  /** `s` with `f` applied to every element. */
  function Map<T(!new), U(!new)>(s: seq<T>, f: T -> U): (r: seq<U>)
    ensures |r| == |s| && forall k :: 0 <= k < |s| ==> r[k] == f(s[k])
  {
    seq(|s|, k requires 0 <= k < |s| => f(s[k]))
  }

  // ---------------------------------------------------------------------------
  // Grouping: `{ $group: { _id: key, count: { $sum: 1 } } }`

  ghost predicate DistinctKeys<K(!new), V(!new)>(g: seq<(K, V)>)
  {
    forall i, j :: 0 <= i < j < |g| ==> g[i].0 != g[j].0
  }

  ghost predicate Positive<K(!new)>(g: seq<(K, nat)>)
  {
    forall i :: 0 <= i < |g| ==> g[i].1 > 0
  }

  /** The keys that have an entry. */
  ghost function KeySet<K(!new)>(g: seq<(K, nat)>): set<K>
  {
    set i | 0 <= i < |g| :: g[i].0
  }

  /** The count recorded for key `x`, 0 when `x` has no entry. */
  function CountOf<K(==, !new)>(g: seq<(K, nat)>, x: K): nat
  {
    if g == [] then 0 else if g[0].0 == x then g[0].1 else CountOf(g[1..], x)
  }

  function SumCounts<K(!new)>(g: seq<(K, nat)>): nat
  {
    if g == [] then 0 else g[0].1 + SumCounts(g[1..])
  }

  /** In a grouping with distinct keys, an entry's count is the count of its key. */
  lemma {:induction false} CountOfEntry<K(!new)>(g: seq<(K, nat)>, i: int)
    requires DistinctKeys(g) && 0 <= i < |g|
    ensures CountOf(g, g[i].0) == g[i].1
  {
    if i > 0 {
      CountOfEntry(g[1..], i - 1);
    }
  }

  /** A key absent from the grouping has count 0. */
  lemma {:induction false} CountOfAbsent<K(!new)>(g: seq<(K, nat)>, x: K)
    requires forall i :: 0 <= i < |g| ==> g[i].0 != x
    ensures CountOf(g, x) == 0
  {
    if g != [] {
      CountOfAbsent(g[1..], x);
    }
  }

  /** Adds one occurrence of `k`: bumps its entry, or appends a new entry with count 1. */
  function Bump<K(==)>(g: seq<(K, nat)>, k: K): seq<(K, nat)>
  {
    if g == [] then [(k, 1)]
    else if g[0].0 == k then [(k, g[0].1 + 1)] + g[1..]
    else [g[0]] + Bump(g[1..], k)
  }

  /** Bumping keeps the keys distinct and the counts positive, and adds exactly one occurrence of `k`. */
  lemma {:induction false} BumpSpec<K(!new)>(g: seq<(K, nat)>, k: K)
    requires DistinctKeys(g) && Positive(g)
    ensures DistinctKeys(Bump(g, k)) && Positive(Bump(g, k))
    ensures SumCounts(Bump(g, k)) == SumCounts(g) + 1
    ensures forall x :: CountOf(Bump(g, k), x) == CountOf(g, x) + (if x == k then 1 else 0)
    ensures KeySet(Bump(g, k)) == KeySet(g) + {k}
  {
    var r := Bump(g, k);
    if g == [] {
    } else if g[0].0 == k {
      CountOfAbsent(g[1..], k);
      assert r[1..] == g[1..];
      assert KeySet(r) == KeySet(g);
    } else {
      var t := Bump(g[1..], k);
      BumpSpec(g[1..], k);
      assert r == [g[0]] + t;
      KeyNotInTail(g);
      DistinctKeysCons(g[0], t);
      assert r[1..] == t;
      assert g == [g[0]] + g[1..];
      KeySetCons(g[0], g[1..]);
      KeySetCons(g[0], t);
    }
  }

  lemma KeySetCons<K(!new)>(e: (K, nat), t: seq<(K, nat)>)
    ensures KeySet([e] + t) == {e.0} + KeySet(t)
  {
    var u := [e] + t;
    forall x | x in KeySet(u) ensures x in {e.0} + KeySet(t) {
      var i :| 0 <= i < |u| && u[i].0 == x;
      if i > 0 { assert t[i - 1].0 == x; }
    }
    forall x | x in KeySet(t) ensures x in KeySet(u) {
      var i :| 0 <= i < |t| && t[i].0 == x;
      assert u[i + 1].0 == x;
    }
    assert u[0].0 == e.0;
  }

  lemma KeyNotInTail<K(!new)>(g: seq<(K, nat)>)
    requires DistinctKeys(g) && g != []
    ensures g[0].0 !in KeySet(g[1..])
  {
  }

  lemma DistinctKeysCons<K(!new)>(e: (K, nat), t: seq<(K, nat)>)
    requires DistinctKeys(t) && e.0 !in KeySet(t)
    ensures DistinctKeys([e] + t)
  {
    forall j | 0 < j < |[e] + t| ensures ([e] + t)[j].0 != e.0 {
      assert t[j - 1].0 in KeySet(t);
    }
  }

  /** Groups equal keys, in order of first appearance, counting each key's occurrences. */
  function GroupCount<K(==, !new)>(keys: seq<K>): (r: seq<(K, nat)>)
    ensures DistinctKeys(r) && Positive(r)
    ensures SumCounts(r) == |keys|
    ensures forall x :: CountOf(r, x) == multiset(keys)[x]
    ensures forall x :: x in KeySet(r) <==> x in keys
  {
    if keys == [] then []
    else
      var init := keys[..|keys| - 1];
      var last := keys[|keys| - 1];
      assert keys == init + [last];
      var g := GroupCount(init);
      BumpSpec(g, last);
      Bump(g, last)
  }

  /** Every entry of a grouping counts exactly the occurrences of its key. */
  lemma GroupCountEntry<K(!new)>(keys: seq<K>, i: int)
    requires 0 <= i < |GroupCount(keys)|
    ensures GroupCount(keys)[i].1 == multiset(keys)[GroupCount(keys)[i].0]
  {
    CountOfEntry(GroupCount(keys), i);
  }

  // ---------------------------------------------------------------------------
  // Sorting: `sort({ field: -1 })`

  ghost predicate SortedDesc<T(!new)>(s: seq<T>, key: T -> int)
  {
    forall i, j :: 0 <= i < j < |s| ==> key(s[i]) >= key(s[j])
  }

  function InsertDesc<T(!new)>(x: T, s: seq<T>, key: T -> int): (r: seq<T>)
    requires SortedDesc(s, key)
    ensures SortedDesc(r, key)
    ensures multiset(r) == multiset(s) + multiset{x}
  {
    if s == [] || key(s[0]) <= key(x) then
      SortedCons(x, s, key);
      [x] + s
    else
      var t := InsertDesc(x, s[1..], key);
      assert s == [s[0]] + s[1..];
      InsertBound(x, s, t, key);
      SortedCons(s[0], t, key);
      [s[0]] + t
  }

  lemma SortedCons<T(!new)>(x: T, s: seq<T>, key: T -> int)
    requires SortedDesc(s, key)
    requires forall y :: y in s ==> key(y) <= key(x)
    ensures SortedDesc([x] + s, key)
  {
    forall i, j | 0 <= i < j < |[x] + s| ensures key(([x] + s)[i]) >= key(([x] + s)[j]) {
      if i > 0 {
        assert ([x] + s)[i] == s[i - 1];
      }
      assert ([x] + s)[j] == s[j - 1];
    }
  }

  lemma InsertBound<T(!new)>(x: T, s: seq<T>, t: seq<T>, key: T -> int)
    requires SortedDesc(s, key) && s != [] && key(s[0]) > key(x)
    requires multiset(t) == multiset(s[1..]) + multiset{x}
    ensures forall y :: y in t ==> key(y) <= key(s[0])
  {
    forall y | y in t ensures key(y) <= key(s[0]) {
      assert y in multiset(t);
      if y != x {
        assert y in multiset(s[1..]);
        var j :| 0 <= j < |s[1..]| && s[1..][j] == y;
        assert s[j + 1] == y;
      }
    }
  }

  /** Insertion sort, largest key first. Ties are left in an order the database does not promise. */
  function SortDesc<T(!new)>(s: seq<T>, key: T -> int): (r: seq<T>)
    ensures SortedDesc(r, key)
    ensures multiset(r) == multiset(s)
  {
    if s == [] then []
    else
      assert s == [s[0]] + s[1..];
      InsertDesc(s[0], SortDesc(s[1..], key), key)
  }

  /** Sorting keeps the elements: it holds exactly what its input held. */
  lemma SortDescMembers<T(!new)>(s: seq<T>, key: T -> int)
    ensures |SortDesc(s, key)| == |s|
    ensures forall x :: x in SortDesc(s, key) <==> x in s
  {
    var r := SortDesc(s, key);
    assert |r| == |multiset(r)| == |multiset(s)| == |s|;
    forall x ensures x in r <==> x in s {
      assert x in r <==> x in multiset(r);
      assert x in s <==> x in multiset(s);
    }
  }

  ghost predicate DistinctBy<T(!new), K(!new)>(s: seq<T>, id: T -> K)
  {
    forall i, j :: 0 <= i < j < |s| ==> id(s[i]) != id(s[j])
  }

  lemma {:induction false} InsertDescDistinct<T(!new), K(!new)>(x: T, s: seq<T>, key: T -> int, id: T -> K)
    requires SortedDesc(s, key) && DistinctBy(s, id)
    requires forall y :: y in s ==> id(y) != id(x)
    ensures DistinctBy(InsertDesc(x, s, key), id)
  {
    if s == [] || key(s[0]) <= key(x) {
      DistinctByCons(x, s, id);
    } else {
      var t := InsertDesc(x, s[1..], key);
      InsertDescDistinct(x, s[1..], key, id);
      InsertedIds(x, s, t, id);
      DistinctByCons(s[0], t, id);
    }
  }

  /** Putting in front an element whose identity no other has keeps identities distinct. */
  lemma DistinctByCons<T(!new), K(!new)>(e: T, t: seq<T>, id: T -> K)
    requires DistinctBy(t, id) && forall y :: y in t ==> id(y) != id(e)
    ensures DistinctBy([e] + t, id)
  {
    forall i, j | 0 <= i < j < |[e] + t| ensures id(([e] + t)[i]) != id(([e] + t)[j]) {
      assert ([e] + t)[j] == t[j - 1];
    }
  }

  /** What the tail holds after inserting `x` into it shares no identity with the head. */
  lemma InsertedIds<T(!new), K(!new)>(x: T, s: seq<T>, t: seq<T>, id: T -> K)
    requires s != [] && DistinctBy(s, id) && id(s[0]) != id(x)
    requires multiset(t) == multiset(s[1..]) + multiset{x}
    ensures forall y :: y in t ==> id(y) != id(s[0])
  {
    forall y | y in t ensures id(y) != id(s[0]) {
      assert y in multiset(t);
      if y != x {
        assert y in multiset(s[1..]);
        var j :| 0 <= j < |s[1..]| && s[1..][j] == y;
        assert s[j + 1] == y;
      }
    }
  }

  /** Sorting elements whose identities differ keeps them different. */
  lemma {:induction false} SortDescDistinct<T(!new), K(!new)>(s: seq<T>, key: T -> int, id: T -> K)
    requires DistinctBy(s, id)
    ensures DistinctBy(SortDesc(s, key), id)
  {
    if s != [] {
      SortDescDistinct(s[1..], key, id);
      SortDescMembers(s[1..], key);
      forall y | y in SortDesc(s[1..], key) ensures id(y) != id(s[0]) {
        var j :| 0 <= j < |s[1..]| && s[1..][j] == y;
        assert s[j + 1] == y;
      }
      InsertDescDistinct(s[0], SortDesc(s[1..], key), key, id);
    }
  }

  /** Inserting an entry adds its count to the total. */
  lemma {:induction false} SumInsert<K(!new)>(x: (K, nat), s: seq<(K, nat)>, key: ((K, nat)) -> int)
    requires SortedDesc(s, key)
    ensures SumCounts(InsertDesc(x, s, key)) == x.1 + SumCounts(s)
  {
    if s != [] && key(s[0]) > key(x) {
      SumInsert(x, s[1..], key);
    }
  }

  /** Sorting a grouping does not change its total. */
  lemma {:induction false} SumSort<K(!new)>(s: seq<(K, nat)>, key: ((K, nat)) -> int)
    ensures SumCounts(SortDesc(s, key)) == SumCounts(s)
  {
    if s != [] {
      SumSort(s[1..], key);
      SumInsert(s[0], SortDesc(s[1..], key), key);
    }
  }

  // ---------------------------------------------------------------------------
  // Groupings as the aggregation pipeline returns them

  /**
   * `g` is a grouping of `keys`: one entry per distinct key that occurs, each
   * holding the number of times its key occurs.
   */
  ghost predicate Grouping<K(!new)>(g: seq<(K, nat)>, keys: seq<K>)
  {
    && DistinctKeys(g) && Positive(g)
    && (forall i :: 0 <= i < |g| ==> g[i].1 == multiset(keys)[g[i].0])
    && (forall x :: x in KeySet(g) <==> x in keys)
    && SumCounts(g) == |keys|
  }

  lemma GroupCountGrouping<K(!new)>(keys: seq<K>)
    ensures Grouping(GroupCount(keys), keys)
  {
    forall i | 0 <= i < |GroupCount(keys)|
      ensures GroupCount(keys)[i].1 == multiset(keys)[GroupCount(keys)[i].0]
    {
      GroupCountEntry(keys, i);
    }
  }

  function First<K, V>(e: (K, V)): K
  {
    e.0
  }

  /** Sorting a grouping by any key leaves a grouping of the same keys. */
  lemma {:induction false} SortGrouping<K(!new)>(g: seq<(K, nat)>, keys: seq<K>, key: ((K, nat)) -> int)
    requires Grouping(g, keys)
    ensures Grouping(SortDesc(g, key), keys)
  {
    var r := SortDesc(g, key);
    SortDescMembers(g, key);
    assert DistinctBy(g, First);
    SortDescDistinct(g, key, First);
    assert DistinctKeys(r) by {
      forall i, j | 0 <= i < j < |r| ensures r[i].0 != r[j].0 {
        assert First(r[i]) != First(r[j]);
      }
    }
    forall i | 0 <= i < |r| ensures r[i].1 > 0 && r[i].1 == multiset(keys)[r[i].0] {
      assert r[i] in g;
      var j :| 0 <= j < |g| && g[j] == r[i];
    }
    forall x ensures x in KeySet(r) <==> x in KeySet(g) {
      if x in KeySet(r) {
        var i :| 0 <= i < |r| && r[i].0 == x;
        assert r[i] in g;
        var j :| 0 <= j < |g| && g[j] == r[i];
      }
      if x in KeySet(g) {
        var j :| 0 <= j < |g| && g[j].0 == x;
        assert g[j] in r;
        var i :| 0 <= i < |r| && r[i] == g[j];
      }
    }
    SumSort(g, key);
  }
}
