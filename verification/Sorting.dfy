/** Lists of distinct elements: first occurrences, stable sorting by a number, filtering. */
module Sorting {
  import opened Basics

  /** The elements in the order in which a JavaScript Map would list its keys. */
  function FirstSeen<T(==,!new)>(ids: seq<T>): (order: seq<T>)
    ensures forall id :: id in order <==> id in ids
    ensures Distinct(order)
  {
    if ids == [] then []
    else
      var last := ids[|ids| - 1];
      assert ids == ids[..|ids| - 1] + [last];
      var before := FirstSeen(ids[..|ids| - 1]);
      if last in before then before else before + [last]
  }

  function Insert<T>(x: T, sorted: seq<T>, key: T -> int): seq<T> {
    if sorted == [] || key(x) <= key(sorted[0]) then [x] + sorted
    else [sorted[0]] + Insert(x, sorted[1..], key)
  }

  /** `Array.prototype.sort`, which is stable, with `key(a) - key(b)` as comparison. */
  function Sort<T>(s: seq<T>, key: T -> int): seq<T> {
    if s == [] then [] else Insert(s[0], Sort(s[1..], key), key)
  }

  predicate Ascending<T>(s: seq<T>, key: T -> int) {
    forall i, j :: 0 <= i < j < |s| ==> key(s[i]) <= key(s[j])
  }

  lemma {:induction false} InsertKeepsMembers<T>(x: T, sorted: seq<T>, key: T -> int)
    ensures multiset(Insert(x, sorted, key)) == multiset{x} + multiset(sorted)
    ensures forall y :: y in Insert(x, sorted, key) <==> y == x || y in sorted
  {
    if sorted != [] && key(x) > key(sorted[0]) {
      InsertKeepsMembers(x, sorted[1..], key);
      assert sorted == [sorted[0]] + sorted[1..];
    }
  }

  lemma {:induction false} InsertSorts<T>(x: T, sorted: seq<T>, key: T -> int)
    requires Ascending(sorted, key)
    ensures Ascending(Insert(x, sorted, key), key)
  {
    if sorted != [] && key(x) > key(sorted[0]) {
      InsertSorts(x, sorted[1..], key);
      InsertKeepsBound(x, sorted[1..], key, key(sorted[0]));
    }
  }

  lemma {:induction false} InsertKeepsBound<T>(x: T, sorted: seq<T>, key: T -> int, bound: int)
    requires bound <= key(x) && forall i :: 0 <= i < |sorted| ==> bound <= key(sorted[i])
    ensures forall i :: 0 <= i < |Insert(x, sorted, key)| ==> bound <= key(Insert(x, sorted, key)[i])
  {
    if sorted != [] && key(x) > key(sorted[0]) {
      InsertKeepsBound(x, sorted[1..], key, bound);
    }
  }

  lemma {:induction false} SortSorts<T>(s: seq<T>, key: T -> int)
    ensures Ascending(Sort(s, key), key)
    ensures multiset(Sort(s, key)) == multiset(s)
    ensures forall y :: y in Sort(s, key) <==> y in s
  {
    if s != [] {
      SortSorts(s[1..], key);
      InsertSorts(s[0], Sort(s[1..], key), key);
      InsertKeepsMembers(s[0], Sort(s[1..], key), key);
      assert s == [s[0]] + s[1..];
    }
  }

  lemma {:induction false} InsertStaysDistinct<T>(x: T, sorted: seq<T>, key: T -> int)
    requires Distinct(sorted) && x !in sorted
    ensures Distinct(Insert(x, sorted, key))
  {
    if sorted != [] && key(x) > key(sorted[0]) {
      InsertStaysDistinct(x, sorted[1..], key);
      InsertKeepsMembers(x, sorted[1..], key);
      var rest := Insert(x, sorted[1..], key);
      forall j | 0 <= j < |rest| ensures sorted[0] != rest[j] {
        assert rest[j] in rest;
      }
    }
  }

  lemma {:induction false} SortStaysDistinct<T>(s: seq<T>, key: T -> int)
    requires Distinct(s)
    ensures Distinct(Sort(s, key))
  {
    if s != [] {
      SortStaysDistinct(s[1..], key);
      SortSorts(s[1..], key);
      assert s[0] !in s[1..];
      InsertStaysDistinct(s[0], Sort(s[1..], key), key);
    }
  }

  /** Elements with equal keys keep their order: each key class of the result is that of the input. */
  function Class<T>(s: seq<T>, key: T -> int, k: int): seq<T> {
    if s == [] then []
    else (if key(s[0]) == k then [s[0]] else []) + Class(s[1..], key, k)
  }

  lemma ClassCons<T>(x: T, rest: seq<T>, key: T -> int, k: int)
    ensures Class([x] + rest, key, k) == (if key(x) == k then [x] else []) + Class(rest, key, k)
  {
    assert ([x] + rest)[1..] == rest;
  }

  lemma {:induction false} InsertIsStable<T>(x: T, sorted: seq<T>, key: T -> int, k: int)
    ensures Class(Insert(x, sorted, key), key, k) == (if key(x) == k then [x] else []) + Class(sorted, key, k)
  {
    if sorted == [] || key(x) <= key(sorted[0]) {
      ClassCons(x, sorted, key, k);
    } else {
      var head, tail := sorted[0], sorted[1..];
      var rest := Insert(x, tail, key);
      assert Insert(x, sorted, key) == [head] + rest && sorted == [head] + tail;
      InsertIsStable(x, tail, key, k);
      ClassCons(head, rest, key, k);
      ClassCons(head, tail, key, k);
      hide Insert, Class;
      if key(x) != k {
        assert [] + Class(tail, key, k) == Class(tail, key, k);
        assert [] + Class(sorted, key, k) == Class(sorted, key, k);
      } else {
        assert [] + Class(rest, key, k) == Class(rest, key, k);
        assert [] + Class(tail, key, k) == Class(tail, key, k);
      }
    }
  }

  lemma {:induction false} SortIsStable<T>(s: seq<T>, key: T -> int, k: int)
    ensures Class(Sort(s, key), key, k) == Class(s, key, k)
  {
    if s != [] {
      SortIsStable(s[1..], key, k);
      InsertIsStable(s[0], Sort(s[1..], key), key, k);
    }
  }

  /** JavaScript's `slice(0, end)`; a negative end counts from the back. */
  function SliceTo<T>(s: seq<T>, end: int): seq<T> {
    var n := if end < 0 then |s| + end else end;
    s[..Max(0, Min(n, |s|))]
  }

  function Keep<T(==,!new)>(s: seq<T>, excluded: set<T>): (kept: seq<T>)
    ensures forall x :: x in kept <==> x in s && x !in excluded
    ensures Distinct(s) ==> Distinct(kept)
  {
    if s == [] then []
    else
      var rest := Keep(s[1..], excluded);
      if s[0] in excluded then rest else [s[0]] + rest
  }

  function IndexOf<T(==)>(s: seq<T>, x: T): (i: int)
    ensures x in s ==> 0 <= i < |s| && s[i] == x
    ensures x !in s ==> i == -1
  {
    if s == [] then -1
    else if s[0] == x then 0
    else
      var rest := IndexOf(s[1..], x);
      if rest == -1 then -1 else rest + 1
  }

  /** Distinct lists with the same members, both ascending by a key that tells members apart, are equal. */
  lemma {:induction false} AscendingIsUnique<T>(a: seq<T>, b: seq<T>, key: T -> int)
    requires Ascending(a, key) && Ascending(b, key) && Distinct(a) && Distinct(b)
    requires forall x :: x in a <==> x in b
    requires forall x, y :: x in a && y in a && key(x) == key(y) ==> x == y
    ensures a == b
  {
    EmptyTogether(a, b);
    if a != [] {
      SameHead(a, b, key);
      forall x ensures x in a[1..] <==> x in b[1..] {
        assert x in a <==> x == a[0] || x in a[1..];
        assert x in b <==> x == b[0] || x in b[1..];
      }
      AscendingIsUnique(a[1..], b[1..], key);
    }
  }

  lemma EmptyTogether<T>(a: seq<T>, b: seq<T>)
    requires forall x :: x in a <==> x in b
    ensures a == [] <==> b == []
  {
    if a != [] {
      assert a[0] in a;
    }
    if b != [] {
      assert b[0] in b;
    }
  }

  lemma SameHead<T>(a: seq<T>, b: seq<T>, key: T -> int)
    requires Ascending(a, key) && Ascending(b, key) && a != []
    requires forall x :: x in a <==> x in b
    requires forall x, y :: x in a && y in a && key(x) == key(y) ==> x == y
    ensures b != [] && a[0] == b[0]
  {
    assert a[0] in b;
    assert b[0] in a;
    var j :| 0 <= j < |b| && b[j] == a[0];
    var i :| 0 <= i < |a| && a[i] == b[0];
    assert key(a[0]) <= key(a[i]) && key(b[0]) <= key(b[j]);
  }

  function ByIndex<T(==)>(ranked: seq<T>): T -> int {
    x => IndexOf(ranked, x)
  }

  lemma IndexOfAt<T>(s: seq<T>, i: nat)
    requires Distinct(s) && i < |s|
    ensures IndexOf(s, s[i]) == i
  {
    var k := IndexOf(s, s[i]);
    assert s[k] == s[i];
  }

  lemma {:induction false} KeepAscending<T(!new)>(ranked: seq<T>, from: nat, excluded: set<T>)
    requires Distinct(ranked) && from <= |ranked|
    ensures Ascending(Keep(ranked[from..], excluded), ByIndex(ranked))
    decreases |ranked| - from
  {
    if from < |ranked| {
      KeepAscending(ranked, from + 1, excluded);
      assert ranked[from..][1..] == ranked[from + 1..];
      var rest := Keep(ranked[from + 1..], excluded);
      forall j | 0 <= j < |rest| ensures IndexOf(ranked, ranked[from]) <= IndexOf(ranked, rest[j]) {
        assert rest[j] in rest;
        var i :| 0 <= i < |ranked[from + 1..]| && ranked[from + 1..][i] == rest[j];
        IndexOfAt(ranked, from);
        IndexOfAt(ranked, from + 1 + i);
      }
    }
  }

  /** Sorting some members of a list by their index in it yields the list without the other members. */
  lemma SortByIndexRestores<T(!new)>(ranked: seq<T>, fetched: seq<T>)
    requires Distinct(ranked) && Distinct(fetched)
    requires forall x :: x in fetched ==> x in ranked
    ensures Sort(fetched, ByIndex(ranked)) == Keep(ranked, Elements(ranked) - Elements(fetched))
  {
    var key := ByIndex(ranked);
    SortSorts(fetched, key);
    SortStaysDistinct(fetched, key);
    KeepAscending(ranked, 0, Elements(ranked) - Elements(fetched));
    assert ranked[0..] == ranked;
    AscendingIsUnique(Sort(fetched, key), Keep(ranked, Elements(ranked) - Elements(fetched)), key);
  }

  lemma {:induction false} KeepAll<T(!new)>(s: seq<T>)
    ensures Keep(s, {}) == s
  {
    if s != [] {
      KeepAll(s[1..]);
    }
  }

  /** A prefix of a list of distinct elements in descending order leaves out nothing better. */
  lemma PrefixIsBest<T(!new)>(all: seq<T>, n: nat, score: T -> int)
    requires n <= |all| && Distinct(all)
    requires forall i, j :: 0 <= i < j < |all| ==> score(all[i]) >= score(all[j])
    ensures Distinct(all[..n])
    ensures forall x :: x in all[..n] ==> x in all
    ensures forall i, j :: 0 <= i < j < n ==> score(all[..n][i]) >= score(all[..n][j])
    ensures forall i, x :: 0 <= i < n && x in all && x !in all[..n] ==> score(all[..n][i]) >= score(x)
  {
    forall i, x | 0 <= i < n && x in all && x !in all[..n] ensures score(all[..n][i]) >= score(x) {
      var j :| 0 <= j < |all| && all[j] == x;
      assert forall k :: 0 <= k < n ==> all[..n][k] in all[..n];
    }
  }
}
