/** The standard library's `sort_by` with a key comparison, which two of the solvers call:
    a stable insertion sort, specified by the order it produces and the fact that it only
    rearranges. */
module Sorting {

  ghost predicate SortedBy<T>(s: seq<T>, key: T -> int) {
    forall i, j :: 0 <= i < j < |s| ==> key(s[i]) <= key(s[j])
  }

  /** Places `x` before the first element whose key is at least key(x). */
  function InsertBy<T>(x: T, s: seq<T>, key: T -> int): (r: seq<T>)
    requires SortedBy(s, key)
    ensures SortedBy(r, key)
    ensures multiset(r) == multiset(s) + multiset{x}
  {
    if s == [] || key(x) <= key(s[0]) then
      SortedCons(s, key);
      SortedPrepend(x, s, key);
      [x] + s
    else
      SortedCons(s, key);
      var tail := InsertBy(x, s[1..], key);
      InsertedBounded(s[0], tail, s[1..], x, key);
      SortedPrepend(s[0], tail, key);
      assert s == [s[0]] + s[1..];
      [s[0]] + tail
  }

  /** A sorted sequence: its tail is sorted and no element of the tail is below its head. */
  lemma SortedCons<T>(s: seq<T>, key: T -> int)
    requires SortedBy(s, key)
    ensures s != [] ==> SortedBy(s[1..], key)
    ensures s != [] ==> forall k :: 0 <= k < |s| ==> key(s[0]) <= key(s[k])
  {
  }

  /** An element whose key is at most every key of a sorted sequence can go in front. */
  lemma SortedPrepend<T>(h: T, t: seq<T>, key: T -> int)
    requires SortedBy(t, key) && forall k :: 0 <= k < |t| ==> key(h) <= key(t[k])
    ensures SortedBy([h] + t, key)
  {
    var s := [h] + t;
    forall i, j | 0 <= i < j < |s| ensures key(s[i]) <= key(s[j]) {
      assert s[j] == t[j - 1];
      if i > 0 {
        assert s[i] == t[i - 1];
      }
    }
  }

  /** Inserting an element whose key is above h's into a sequence bounded below by h keeps
      the bound. */
  lemma InsertedBounded<T>(h: T, tail: seq<T>, rest: seq<T>, x: T, key: T -> int)
    requires multiset(tail) == multiset(rest) + multiset{x}
    requires key(h) <= key(x) && forall k :: 0 <= k < |rest| ==> key(h) <= key(rest[k])
    ensures forall k :: 0 <= k < |tail| ==> key(h) <= key(tail[k])
  {
    forall k | 0 <= k < |tail| ensures key(h) <= key(tail[k]) {
      assert tail[k] in multiset(tail);
      if tail[k] != x {
        assert tail[k] in multiset(rest);
        var j :| 0 <= j < |rest| && rest[j] == tail[k];
      }
    }
  }

  /** The permutation of `s` whose keys never decrease. */
  function SortBy<T>(s: seq<T>, key: T -> int): (r: seq<T>)
    ensures SortedBy(r, key)
    ensures multiset(r) == multiset(s)
    ensures |r| == |s|
  {
    if s == [] then []
    else
      var r := InsertBy(s[0], SortBy(s[1..], key), key);
      assert s == [s[0]] + s[1..];
      assert |r| == |multiset(r)| == |multiset(s)| == |s|;
      r
  }

  /** The elements with key k, in their order in s. */
  function WithKey<T>(s: seq<T>, key: T -> int, k: int): seq<T> {
    if s == [] then [] else (if key(s[0]) == k then [s[0]] else []) + WithKey(s[1..], key, k)
  }

  lemma WithKeyCons<T>(a: T, t: seq<T>, key: T -> int, k: int)
    ensures WithKey([a] + t, key, k) == (if key(a) == k then [a] else []) + WithKey(t, key, k)
  {
    assert ([a] + t)[1..] == t;
  }

  /** Insertion puts x ahead of every element with its key and behind those with smaller
      keys, so among the elements with any one key x comes first and the rest keep their
      order. */
  lemma {:induction false} InsertByWithKey<T>(x: T, s: seq<T>, key: T -> int, k: int)
    requires SortedBy(s, key)
    ensures WithKey(InsertBy(x, s, key), key, k) == (if key(x) == k then [x] else []) + WithKey(s, key, k)
  {
    if s == [] || key(x) <= key(s[0]) {
      WithKeyCons(x, s, key, k);
    } else {
      SortedCons(s, key);
      InsertByWithKey(x, s[1..], key, k);
      var tail := InsertBy(x, s[1..], key);
      WithKeyCons(s[0], tail, key, k);
      WithKeyCons(s[0], s[1..], key, k);
      assert s == [s[0]] + s[1..];
    }
  }

  /** The sort is stable: the elements with any one key keep their order. */
  lemma {:induction false} SortByStable<T>(s: seq<T>, key: T -> int, k: int)
    ensures WithKey(SortBy(s, key), key, k) == WithKey(s, key, k)
  {
    if s != [] {
      SortByStable(s[1..], key, k);
      InsertByWithKey(s[0], SortBy(s[1..], key), key, k);
    }
  }
}
