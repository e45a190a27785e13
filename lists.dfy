/**
 * The array operations the handlers use on query results: `filter`,
 * `indexOf`, `lastIndexOf`, the first match of a `findOne`, and `sort` with
 * a comparator that subtracts two integer keys. `Array.prototype.sort` is stable, so such
 * a sort is the stable sort by the key, modelled here as insertion sort.
 */
module Lists {

  // ---------------------------------------------------------------------
  // filter, indexOf, lastIndexOf, first match
  // ---------------------------------------------------------------------

  /**
   * The positions of `s` whose element satisfies `p`, in increasing order:
   * every listed position satisfies `p`, and every position that satisfies
   * `p` is listed.
   */
  function Selected<T>(s: seq<T>, p: T -> bool): (idx: seq<nat>)
    ensures |idx| <= |s|
    ensures forall i :: 0 <= i < |idx| ==> idx[i] < |s| && p(s[idx[i]])
    ensures forall i, j :: 0 <= i < j < |idx| ==> idx[i] < idx[j]
    ensures forall k :: 0 <= k < |s| && p(s[k]) ==> k in idx
    decreases |s|
  {
    if s == [] then []
    else
      var n := |s| - 1;
      assert forall i :: 0 <= i < n ==> s[..n][i] == s[i];
      Selected(s[..n], p) + (if p(s[n]) then [n] else [])
  }

  /**
   * `s.filter(p)`: the elements at the selected positions, in order, each
   * once per position; so exactly the elements that satisfy `p`.
   */
  function Filter<T>(s: seq<T>, p: T -> bool): (r: seq<T>)
    ensures |r| == |Selected(s, p)|
    ensures forall i :: 0 <= i < |r| ==> r[i] == s[Selected(s, p)[i]]
    ensures forall i :: 0 <= i < |r| ==> r[i] in s && p(r[i])
    ensures forall i :: 0 <= i < |s| && p(s[i]) ==> s[i] in r
    decreases |s|
  {
    if s == [] then []
    else
      var n := |s| - 1;
      var rest := Filter(s[..n], p);
      var r := rest + (if p(s[n]) then [s[n]] else []);
      FilterStep(s, p, rest, r);
      r
  }

  /**
   * One step of `Filter`: if `rest` is the selection of all but the last
   * element, then appending the last element when it satisfies `p` gives
   * the selection of `s`, and every satisfying element of `s` is in it.
   */
  lemma {:induction false} FilterStep<T>(s: seq<T>, p: T -> bool, rest: seq<T>, r: seq<T>)
    requires s != []
    requires |rest| == |Selected(s[..|s| - 1], p)|
    requires forall i :: 0 <= i < |rest| ==> rest[i] == s[..|s| - 1][Selected(s[..|s| - 1], p)[i]]
    requires r == rest + (if p(s[|s| - 1]) then [s[|s| - 1]] else [])
    ensures |r| == |Selected(s, p)|
    ensures forall i :: 0 <= i < |r| ==> r[i] == s[Selected(s, p)[i]]
    ensures forall k :: 0 <= k < |s| && p(s[k]) ==> s[k] in r
  {
    var n := |s| - 1;
    var sel := Selected(s[..n], p);
    assert Selected(s, p) == sel + (if p(s[n]) then [n] else []);
    forall i | 0 <= i < |r| ensures r[i] == s[Selected(s, p)[i]] {
      if i < |rest| { assert s[..n][sel[i]] == s[sel[i]]; }
    }
    forall k | 0 <= k < |s| && p(s[k]) ensures s[k] in r {
      var j :| 0 <= j < |Selected(s, p)| && Selected(s, p)[j] == k;
      assert r[j] == s[k];
    }
  }

  /** `r` lists, in order, the elements of `s` at exactly the positions where `p` holds. */
  ghost predicate IsSelection<T>(r: seq<T>, s: seq<T>, p: T -> bool)
  {
    |r| == |Selected(s, p)| && forall i :: 0 <= i < |r| ==> r[i] == s[Selected(s, p)[i]]
  }

  /** Filtering a concatenation filters each part and keeps them in order. */
  lemma {:induction false} FilterAppend<T>(a: seq<T>, b: seq<T>, p: T -> bool)
    ensures Filter(a + b, p) == Filter(a, p) + Filter(b, p)
    decreases |b|
  {
    if b == [] {
      assert a + b == a;
    } else {
      var n := |b| - 1;
      assert (a + b)[..|a + b| - 1] == a + b[..n];
      FilterAppend(a, b[..n], p);
    }
  }

  /** Position of the first element satisfying `p`, or -1: the document a `findOne` in natural order finds. */
  function FindFirst<T>(s: seq<T>, p: T -> bool): (k: int)
    ensures -1 <= k < |s|
    ensures k >= 0 ==> p(s[k]) && forall j :: 0 <= j < k ==> !p(s[j])
    ensures k == -1 <==> forall j :: 0 <= j < |s| ==> !p(s[j])
    decreases |s|
  {
    if s == [] then -1
    else if p(s[0]) then 0
    else
      var k := FindFirst(s[1..], p);
      if k == -1 then -1 else k + 1
  }

  /** `s.indexOf(x)`. */
  function IndexOf<T(==)>(s: seq<T>, x: T): (k: int)
    ensures -1 <= k < |s|
    ensures k >= 0 ==> s[k] == x && x !in s[..k]
    ensures k == -1 <==> x !in s
    decreases |s|
  {
    if s == [] then -1
    else if s[0] == x then 0
    else
      var k := IndexOf(s[1..], x);
      assert s[1..][..k + 1] == s[1..k + 2];
      if k == -1 then -1 else k + 1
  }

  /** `s.lastIndexOf(x)`: the position of the last occurrence of `x`, or -1. */
  function LastIndexOf<T(==)>(s: seq<T>, x: T): (i: int)
    ensures -1 <= i < |s|
    ensures i >= 0 ==> s[i] == x
    ensures forall k :: i < k < |s| ==> s[k] != x
    decreases |s|
  {
    if s == [] then -1
    else if s[|s| - 1] == x then |s| - 1
    else LastIndexOf(s[..|s| - 1], x)
  }

  // ---------------------------------------------------------------------
  // sort by an integer key
  // ---------------------------------------------------------------------

  predicate SortedBy<T>(s: seq<T>, key: T -> int)
  {
    forall i, j :: 0 <= i < j < |s| ==> key(s[i]) <= key(s[j])
  }

  /** The elements of `s` whose key is `k`, in order. */
  function WithKey<T>(s: seq<T>, key: T -> int, k: int): seq<T>
    decreases |s|
  {
    if s == [] then []
    else
      var n := |s| - 1;
      WithKey(s[..n], key, k) + (if key(s[n]) == k then [s[n]] else [])
  }

  /** `x` placed after every element of `t` whose key is not greater than its own. */
  function InsertBy<T>(t: seq<T>, x: T, key: T -> int): seq<T>
    decreases |t|
  {
    if t == [] || key(t[|t| - 1]) <= key(x) then t + [x]
    else InsertBy(t[..|t| - 1], x, key) + [t[|t| - 1]]
  }

  /** `s.sort((a, b) => key(a) - key(b))`. */
  function SortBy<T>(s: seq<T>, key: T -> int): seq<T>
    decreases |s|
  {
    if s == [] then []
    else InsertBy(SortBy(s[..|s| - 1], key), s[|s| - 1], key)
  }

  lemma WithKeySnoc<T>(s: seq<T>, x: T, key: T -> int, k: int)
    ensures WithKey(s + [x], key, k) == WithKey(s, key, k) + (if key(x) == k then [x] else [])
  {
    assert (s + [x])[..|s|] == s;
  }

  lemma {:induction false} InsertByPermutes<T>(t: seq<T>, x: T, key: T -> int)
    ensures multiset(InsertBy(t, x, key)) == multiset(t) + multiset{x}
    decreases |t|
  {
    if !(t == [] || key(t[|t| - 1]) <= key(x)) {
      var n := |t| - 1;
      InsertByPermutes(t[..n], x, key);
      assert t == t[..n] + [t[n]];
    }
  }

  lemma {:induction false} InsertByBounded<T>(t: seq<T>, x: T, key: T -> int, b: int)
    requires forall i :: 0 <= i < |t| ==> key(t[i]) <= b
    requires key(x) <= b
    ensures forall i :: 0 <= i < |InsertBy(t, x, key)| ==> key(InsertBy(t, x, key)[i]) <= b
    decreases |t|
  {
    if !(t == [] || key(t[|t| - 1]) <= key(x)) {
      InsertByBounded(t[..|t| - 1], x, key, b);
    }
  }

  lemma {:induction false} InsertByKeepsOrder<T>(t: seq<T>, x: T, key: T -> int)
    requires SortedBy(t, key)
    ensures SortedBy(InsertBy(t, x, key), key)
    decreases |t|
  {
    if !(t == [] || key(t[|t| - 1]) <= key(x)) {
      var n := |t| - 1;
      var head := InsertBy(t[..n], x, key);
      InsertByKeepsOrder(t[..n], x, key);
      InsertByBounded(t[..n], x, key, key(t[n]));
      assert InsertBy(t, x, key) == head + [t[n]];
    }
  }

  lemma {:induction false} InsertByWithKey<T>(t: seq<T>, x: T, key: T -> int, k: int)
    ensures WithKey(InsertBy(t, x, key), key, k) == WithKey(t, key, k) + (if key(x) == k then [x] else [])
    decreases |t|
  {
    if t == [] || key(t[|t| - 1]) <= key(x) {
      WithKeySnoc(t, x, key, k);
    } else {
      var n := |t| - 1;
      InsertByWithKey(t[..n], x, key, k);
      WithKeySnoc(InsertBy(t[..n], x, key), t[n], key, k);
      assert t == t[..n] + [t[n]];
      WithKeySnoc(t[..n], t[n], key, k);
    }
  }

  /** The sorted array is ordered by the key. */
  lemma {:induction false} SortByOrders<T>(s: seq<T>, key: T -> int)
    ensures SortedBy(SortBy(s, key), key)
    decreases |s|
  {
    if s != [] {
      SortByOrders(s[..|s| - 1], key);
      InsertByKeepsOrder(SortBy(s[..|s| - 1], key), s[|s| - 1], key);
    }
  }

  /** The sorted array holds the same elements, as often as before. */
  lemma {:induction false} SortByPermutes<T>(s: seq<T>, key: T -> int)
    ensures multiset(SortBy(s, key)) == multiset(s)
    ensures |SortBy(s, key)| == |s|
    decreases |s|
  {
    if s != [] {
      var n := |s| - 1;
      SortByPermutes(s[..n], key);
      InsertByPermutes(SortBy(s[..n], key), s[n], key);
      assert s == s[..n] + [s[n]];
      assert |multiset(SortBy(s, key))| == |SortBy(s, key)|;
    }
  }

  /** Stability: elements with equal keys keep their relative order. */
  lemma {:induction false} SortByIsStable<T>(s: seq<T>, key: T -> int, k: int)
    ensures WithKey(SortBy(s, key), key, k) == WithKey(s, key, k)
    decreases |s|
  {
    if s != [] {
      var n := |s| - 1;
      SortByIsStable(s[..n], key, k);
      InsertByWithKey(SortBy(s[..n], key), s[n], key, k);
    }
  }

  /**
   * Everything the sort promises at once: ordered by the key, the same
   * elements as often as before, and elements with equal keys in their
   * original order.
   */
  lemma SortBySpec<T>(s: seq<T>, key: T -> int)
    ensures SortedBy(SortBy(s, key), key)
    ensures multiset(SortBy(s, key)) == multiset(s) && |SortBy(s, key)| == |s|
    ensures forall k :: WithKey(SortBy(s, key), key, k) == WithKey(s, key, k)
  {
    SortByOrders(s, key);
    SortByPermutes(s, key);
    forall k ensures WithKey(SortBy(s, key), key, k) == WithKey(s, key, k) {
      SortByIsStable(s, key, k);
    }
  }

  /** Two arrangements of the same elements hold the same members. */
  lemma SameMembers<T>(a: seq<T>, b: seq<T>)
    requires multiset(a) == multiset(b)
    ensures forall i :: 0 <= i < |a| ==> a[i] in b
    ensures forall i :: 0 <= i < |b| ==> b[i] in a
  {
    forall i | 0 <= i < |a| ensures a[i] in b {
      assert a[i] in multiset(a);
    }
    forall i | 0 <= i < |b| ensures b[i] in a {
      assert b[i] in multiset(b);
    }
  }
}
