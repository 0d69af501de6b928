/**
 * The two orderings the engine relies on, both as the source gets them from
 * JavaScript's stable `Array.prototype.sort`: a stable ascending sort by a
 * numeric key, and "the first element of the stably sorted list", i.e. the
 * first minimum in list order under a lexicographic two-part key.
 */
module Ordering {

  /** A sort key compared lexicographically: `a.primary - b.primary || a.secondary - b.secondary`. */
  datatype Key = Key(primary: real, secondary: real)

  predicate KeyLess(a: Key, b: Key) {
    a.primary < b.primary || (a.primary == b.primary && a.secondary < b.secondary)
  }

  /**
   * The index of the element a stable ascending sort by `key` puts first: no
   * element has a smaller key, and every element before it has a strictly
   * larger one.
   */
  function FirstMin<T>(s: seq<T>, key: T -> Key): (r: nat)
    requires |s| > 0
    ensures r < |s|
    ensures forall j :: 0 <= j < |s| ==> !KeyLess(key(s[j]), key(s[r]))
    ensures forall j :: 0 <= j < r ==> KeyLess(key(s[r]), key(s[j]))
  {
    if |s| == 1 then 0
    else
      var k := FirstMin(s[1..], key) + 1;
      if KeyLess(key(s[k]), key(s[0])) then k else 0
  }

  /** `s.filter(f)`, keeping list order. */
  function Filter<T(!new)>(s: seq<T>, f: T -> bool): (r: seq<T>)
    ensures |r| <= |s|
    ensures forall x :: x in r <==> x in s && f(x)
  {
    if |s| == 0 then []
    else
      assert forall x :: x in s <==> x == s[0] || x in s[1..];
      (if f(s[0]) then [s[0]] else []) + Filter(s[1..], f)
  }

  /**
   * Filtering keeps list order: the element kept at position `a` sits at some
   * position of `s`, and every element before that position which passes was
   * kept before `a`.
   */
  lemma {:induction false} FilterOrder<T(!new)>(s: seq<T>, f: T -> bool, a: nat)
    requires a < |Filter(s, f)|
    ensures exists k :: 0 <= k < |s| && s[k] == Filter(s, f)[a]
                        && forall j :: 0 <= j < k && f(s[j]) ==> s[j] in Filter(s, f)[..a]
    decreases |s|, 1
  {
    if f(s[0]) && a == 0 {
      assert s[0] == Filter(s, f)[0];
    } else if f(s[0]) {
      FilterOrderKept(s, f, a);
    } else {
      FilterOrderSkipped(s, f, a);
    }
  }

  /** `FilterOrder` when the head passes and `a` is past it. */
  lemma {:induction false} FilterOrderKept<T(!new)>(s: seq<T>, f: T -> bool, a: nat)
    requires |s| > 0 && f(s[0]) && 0 < a < |Filter(s, f)|
    ensures exists k :: 0 <= k < |s| && s[k] == Filter(s, f)[a]
                        && forall j :: 0 <= j < k && f(s[j]) ==> s[j] in Filter(s, f)[..a]
    decreases |s|, 0
  {
    var r := Filter(s, f);
    var t := Filter(s[1..], f);
    assert r == [s[0]] + t;
    FilterOrder(s[1..], f, a - 1);
    var k :| 0 <= k < |s[1..]| && s[1..][k] == t[a - 1]
             && forall j :: 0 <= j < k && f(s[1..][j]) ==> s[1..][j] in t[..a - 1];
    assert r[..a] == [s[0]] + t[..a - 1];
    forall j | 0 <= j < k + 1 && f(s[j]) ensures s[j] in r[..a] {
      if j == 0 {
        assert r[..a][0] == s[0];
      } else {
        assert s[j] == s[1..][j - 1];
        assert s[j] in t[..a - 1];
      }
    }
    assert s[k + 1] == r[a];
  }

  /** `FilterOrder` when the head does not pass. */
  lemma {:induction false} FilterOrderSkipped<T(!new)>(s: seq<T>, f: T -> bool, a: nat)
    requires |s| > 0 && !f(s[0]) && a < |Filter(s, f)|
    ensures exists k :: 0 <= k < |s| && s[k] == Filter(s, f)[a]
                        && forall j :: 0 <= j < k && f(s[j]) ==> s[j] in Filter(s, f)[..a]
    decreases |s|, 0
  {
    var r := Filter(s, f);
    var t := Filter(s[1..], f);
    assert r == t;
    FilterOrder(s[1..], f, a);
    var k :| 0 <= k < |s[1..]| && s[1..][k] == t[a]
             && forall j :: 0 <= j < k && f(s[1..][j]) ==> s[1..][j] in t[..a];
    forall j | 0 <= j < k + 1 && f(s[j]) ensures s[j] in r[..a] {
      assert s[j] == s[1..][j - 1];
    }
    assert s[k + 1] == r[a];
  }

  /**
   * `x` is what a stable ascending sort by `key` puts first among the
   * elements of `s` that pass `f`: it passes, no passing element has a
   * smaller key, and every passing element before it in `s` has a strictly
   * larger one.
   */
  predicate FirstInOrder<T(==)>(s: seq<T>, f: T -> bool, key: T -> Key, x: T) {
    && f(x)
    && (forall j :: 0 <= j < |s| && f(s[j]) ==> !KeyLess(key(s[j]), key(x)))
    && exists i :: 0 <= i < |s| && s[i] == x && forall j :: 0 <= j < i && f(s[j]) ==> KeyLess(key(x), key(s[j]))
  }

  /** Sorting the filtered list and taking its head gives the first in order. */
  lemma FirstMinOfFilter<T(!new)>(s: seq<T>, f: T -> bool, key: T -> Key)
    requires |Filter(s, f)| > 0
    ensures FirstInOrder(s, f, key, Filter(s, f)[FirstMin(Filter(s, f), key)])
  {
    var r := Filter(s, f);
    var i := FirstMin(r, key);
    assert r[i] in r;
    FilterOrder(s, f, i);
    var k :| 0 <= k < |s| && s[k] == r[i] && forall j :: 0 <= j < k && f(s[j]) ==> s[j] in r[..i];
    forall j | 0 <= j < k && f(s[j]) ensures KeyLess(key(r[i]), key(s[j])) {
      var a :| 0 <= a < i && r[..i][a] == s[j];
      assert r[a] == s[j];
    }
    forall j | 0 <= j < |s| && f(s[j]) ensures !KeyLess(key(s[j]), key(r[i])) {
      assert s[j] in r;
    }
  }

  predicate SortedBy<T>(s: seq<T>, key: T -> real) {
    forall i, j :: 0 <= i < j < |s| ==> key(s[i]) <= key(s[j])
  }

  /** Inserts `x` before the first element whose key is not smaller (so equal keys keep `x` first). */
  function Insert<T>(x: T, s: seq<T>, key: T -> real): (r: seq<T>)
    requires SortedBy(s, key)
    ensures multiset(r) == multiset(s) + multiset{x}
    ensures SortedBy(r, key)
    ensures |r| == |s| + 1
  {
    if |s| == 0 then [x]
    else if key(x) <= key(s[0]) then [x] + s
    else
      var tail := Insert(x, s[1..], key);
      assert s == [s[0]] + s[1..];
      forall i | 0 <= i < |tail| ensures key(s[0]) <= key(tail[i]) {
        assert tail[i] in multiset(tail);
        if tail[i] != x {
          assert tail[i] in multiset(s[1..]);
          var k :| 0 <= k < |s[1..]| && s[1..][k] == tail[i];
          assert s[1..][k] == s[k + 1];
        }
      }
      ConsSorted(s[0], tail, key);
      [s[0]] + tail
  }

  /** An element no larger than any element of a sorted list can go in front. */
  lemma ConsSorted<T>(h: T, t: seq<T>, key: T -> real)
    requires SortedBy(t, key)
    requires forall i :: 0 <= i < |t| ==> key(h) <= key(t[i])
    ensures SortedBy([h] + t, key)
  {
    var w := [h] + t;
    forall i, j | 0 <= i < j < |w| ensures key(w[i]) <= key(w[j]) {
      assert w[j] == t[j - 1];
      if i > 0 {
        assert w[i] == t[i - 1];
      }
    }
  }

  /** A stable insertion sort, ascending by `key`. */
  function SortBy<T>(s: seq<T>, key: T -> real): (r: seq<T>)
    ensures multiset(r) == multiset(s)
    ensures SortedBy(r, key)
    ensures |r| == |s|
  {
    if |s| == 0 then []
    else
      assert s == [s[0]] + s[1..];
      Insert(s[0], SortBy(s[1..], key), key)
  }

  /** The elements of `s` whose key is `v`, in list order. */
  function WithKey<T>(s: seq<T>, key: T -> real, v: real): seq<T> {
    if |s| == 0 then [] else (if key(s[0]) == v then [s[0]] else []) + WithKey(s[1..], key, v)
  }

  lemma WithKeyCons<T>(x: T, s: seq<T>, key: T -> real, v: real)
    ensures WithKey([x] + s, key, v) == (if key(x) == v then [x] else []) + WithKey(s, key, v)
  {
    assert ([x] + s)[0] == x;
    assert ([x] + s)[1..] == s;
  }

  lemma TailSortedBy<T>(s: seq<T>, key: T -> real)
    requires |s| > 0 && SortedBy(s, key)
    ensures SortedBy(s[1..], key)
  {
    forall i, j | 0 <= i < j < |s[1..]| ensures key(s[1..][i]) <= key(s[1..][j]) {
      assert s[1..][i] == s[i + 1] && s[1..][j] == s[j + 1];
    }
  }

  /** Inserting `x` into a sorted list puts it before every element with its own key. */
  lemma {:induction false} InsertStable<T>(x: T, s: seq<T>, key: T -> real, v: real)
    requires SortedBy(s, key)
    ensures WithKey(Insert(x, s, key), key, v) == (if key(x) == v then [x] else []) + WithKey(s, key, v)
    decreases |s|
  {
    if |s| > 0 {
      if key(x) <= key(s[0]) {
        assert Insert(x, s, key) == [x] + s;
        WithKeyCons(x, s, key, v);
      } else {
        TailSortedBy(s, key);
        var tail := Insert(x, s[1..], key);
        assert Insert(x, s, key) == [s[0]] + tail;
        InsertStable(x, s[1..], key, v);
        WithKeyCons(s[0], tail, key, v);
        var h := if key(s[0]) == v then [s[0]] else [];
        assert WithKey(s, key, v) == h + WithKey(s[1..], key, v);
        if key(x) == v {
          assert h == [];
        } else {
          assert WithKey(tail, key, v) == WithKey(s[1..], key, v);
        }
      }
    }
  }

  /** The sort is stable: for every key, its elements come out in their input order. */
  lemma {:induction false} SortStable<T>(s: seq<T>, key: T -> real, v: real)
    ensures WithKey(SortBy(s, key), key, v) == WithKey(s, key, v)
    decreases |s|
  {
    if |s| > 0 {
      assert s == [s[0]] + s[1..];
      SortStable(s[1..], key, v);
      InsertStable(s[0], SortBy(s[1..], key), key, v);
      WithKeyCons(s[0], s[1..], key, v);
    }
  }
}
