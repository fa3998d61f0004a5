/**
 * Python's `list.sort(key=k, reverse=desc)` on integer keys: a stable sort. With
 * `reverse=True` Python still keeps equal keys in their original order.
 */
module StableSort {

  /** A key `a` goes strictly before a key `b` in the requested direction. */
  predicate Before(a: int, b: int, desc: bool) {
    if desc then a > b else a < b
  }

  /** No element is preceded by one it should go strictly before. */
  ghost predicate SortedBy<T>(s: seq<T>, key: T -> int, desc: bool) {
    forall i, j :: 0 <= i < j < |s| ==> !Before(key(s[j]), key(s[i]), desc)
  }

  /** The elements whose key is `k`, in their order in `s`. */
  function WithKey<T>(s: seq<T>, key: T -> int, k: int): seq<T> {
    if s == [] then [] else (if key(s[0]) == k then [s[0]] else []) + WithKey(s[1..], key, k)
  }

  /** Inserts `x` before the first element it goes strictly before. */
  function Insert<T>(x: T, s: seq<T>, key: T -> int, desc: bool): seq<T> {
    if s == [] then [x]
    else if Before(key(x), key(s[0]), desc) then [x] + s
    else [s[0]] + Insert(x, s[1..], key, desc)
  }

  /**
   * The stable sort: a permutation of `s`, ordered by `key` in the requested direction,
   * in which the elements sharing any one key keep their relative order from `s`.
   */
  function Sort<T>(s: seq<T>, key: T -> int, desc: bool): (r: seq<T>)
    ensures |r| == |s| && multiset(r) == multiset(s)
    ensures SortedBy(r, key, desc)
    ensures forall k :: WithKey(r, key, k) == WithKey(s, key, k)
  {
    if s == [] then []
    else
      var init, last := s[..|s| - 1], s[|s| - 1];
      assert s == init + [last];
      var sorted := Sort(init, key, desc);
      InsertSorted(last, sorted, key, desc);
      forall k ensures WithKey(Insert(last, sorted, key, desc), key, k) == WithKey(s, key, k) {
        InsertWithKey(last, sorted, key, desc, k);
        WithKeyAppend(init, last, key, k);
      }
      Insert(last, sorted, key, desc)
  }

  lemma {:induction false} InsertSorted<T>(x: T, s: seq<T>, key: T -> int, desc: bool)
    requires SortedBy(s, key, desc)
    ensures var r := Insert(x, s, key, desc);
      |r| == |s| + 1 && multiset(r) == multiset(s) + multiset{x} && SortedBy(r, key, desc)
  {
    if s != [] && !Before(key(x), key(s[0]), desc) {
      var tail := Insert(x, s[1..], key, desc);
      InsertSorted(x, s[1..], key, desc);
      assert s == [s[0]] + s[1..];
      HeadBound(x, s, tail, key, desc);
      ConsSorted(s[0], tail, key, desc);
    }
  }

  /** The head of a sorted `s` goes no later than any element of `s[1..]` or `x`. */
  lemma HeadBound<T>(x: T, s: seq<T>, tail: seq<T>, key: T -> int, desc: bool)
    requires s != [] && SortedBy(s, key, desc) && !Before(key(x), key(s[0]), desc)
    requires multiset(tail) == multiset(s[1..]) + multiset{x}
    ensures forall j :: 0 <= j < |tail| ==> !Before(key(tail[j]), key(s[0]), desc)
  {
    forall j | 0 <= j < |tail| ensures !Before(key(tail[j]), key(s[0]), desc) {
      assert tail[j] in multiset(tail);
      if tail[j] != x {
        assert tail[j] in s[1..];
        var i :| 0 <= i < |s[1..]| && s[1..][i] == tail[j];
        assert s[i + 1] == tail[j];
      }
    }
  }

  /** An element that no later element goes strictly before can head a sorted sequence. */
  lemma ConsSorted<T>(y: T, t: seq<T>, key: T -> int, desc: bool)
    requires SortedBy(t, key, desc)
    requires forall j :: 0 <= j < |t| ==> !Before(key(t[j]), key(y), desc)
    ensures SortedBy([y] + t, key, desc)
  {
    var r := [y] + t;
    forall i, j | 0 <= i < j < |r| ensures !Before(key(r[j]), key(r[i]), desc) {
      assert r[j] == t[j - 1];
      if i > 0 {
        assert r[i] == t[i - 1];
      }
    }
  }

  /** Concatenation is associative. */
  lemma ConcatAssoc<T>(a: seq<T>, b: seq<T>, c: seq<T>)
    ensures a + (b + c) == (a + b) + c
  {
  }

  /** The elements of `s` from the first one `x` goes strictly before never share `x`'s key. */
  lemma {:induction false} NoneWithKeyAfter<T>(x: T, s: seq<T>, key: T -> int, desc: bool)
    requires SortedBy(s, key, desc)
    requires s != [] && Before(key(x), key(s[0]), desc)
    ensures WithKey(s, key, key(x)) == []
  {
    if |s| > 1 {
      assert !Before(key(s[1]), key(s[0]), desc);
      NoneWithKeyAfter(x, s[1..], key, desc);
    }
  }

  lemma {:induction false} InsertWithKey<T>(x: T, s: seq<T>, key: T -> int, desc: bool, k: int)
    requires SortedBy(s, key, desc)
    ensures WithKey(Insert(x, s, key, desc), key, k) ==
      WithKey(s, key, k) + (if key(x) == k then [x] else [])
  {
    var tail := if key(x) == k then [x] else [];
    if s == [] {
      assert WithKey([x], key, k) == tail + WithKey([], key, k);
    } else if Before(key(x), key(s[0]), desc) {
      var r := [x] + s;
      assert r[1..] == s;
      assert WithKey(r, key, k) == tail + WithKey(s, key, k);
      if key(x) == k {
        NoneWithKeyAfter(x, s, key, desc);
      }
    } else {
      var rest := Insert(x, s[1..], key, desc);
      var r := [s[0]] + rest;
      assert r[1..] == rest;
      var head := if key(s[0]) == k then [s[0]] else [];
      InsertWithKey(x, s[1..], key, desc, k);
      calc {
        WithKey(r, key, k);
        head + WithKey(rest, key, k);
        head + (WithKey(s[1..], key, k) + tail);
        { ConcatAssoc(head, WithKey(s[1..], key, k), tail); }
        (head + WithKey(s[1..], key, k)) + tail;
        WithKey(s, key, k) + tail;
      }
    }
  }

  lemma {:induction false} WithKeyAppend<T>(s: seq<T>, x: T, key: T -> int, k: int)
    ensures WithKey(s + [x], key, k) == WithKey(s, key, k) + (if key(x) == k then [x] else [])
  {
    if s != [] {
      assert (s + [x])[1..] == s[1..] + [x];
      WithKeyAppend(s[1..], x, key, k);
    }
  }
}
