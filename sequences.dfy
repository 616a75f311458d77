/**
 * Sorting by a real-valued key and the subsequence relation.
 *
 * The ranking step builds its descending order as `argsort()[::-1]`: an ascending sort,
 * then a reversal. `SortDesc` is built the same way. `DataFrame.sort_values(ascending=False)`
 * instead reverses the column, sorts it ascending and reverses the result again. That puts
 * equal keys in a different order, but gives the same order otherwise. Neither library sort is
 * stable by default, so nothing below promises an order among equal keys.
 */
module Sequences {

  predicate SortedAsc<T>(s: seq<T>, key: T -> real) {
    forall i, j :: 0 <= i < j < |s| ==> key(s[i]) <= key(s[j])
  }

  predicate SortedDesc<T>(s: seq<T>, key: T -> real) {
    forall i, j :: 0 <= i < j < |s| ==> key(s[i]) >= key(s[j])
  }

  /** Puts `x` into the ascending sequence `s` before the first element whose key is not smaller. */
  function Insert<T>(x: T, s: seq<T>, key: T -> real): (r: seq<T>)
    ensures multiset(r) == multiset(s) + multiset{x}
  {
    if s == [] then [x]
    else if key(x) <= key(s[0]) then [x] + s
    else
      assert s == [s[0]] + s[1..];
      [s[0]] + Insert(x, s[1..], key)
  }

  lemma {:induction false} InsertSorted<T>(x: T, s: seq<T>, key: T -> real)
    requires SortedAsc(s, key)
    ensures SortedAsc(Insert(x, s, key), key)
  {
    if s != [] && key(x) > key(s[0]) {
      var rest := Insert(x, s[1..], key);
      InsertSorted(x, s[1..], key);
      forall k | 0 <= k < |rest|
        ensures key(s[0]) <= key(rest[k])
      {
        assert rest[k] in multiset(rest);
        if rest[k] != x {
          assert rest[k] in multiset(s[1..]);
          var j :| 0 <= j < |s[1..]| && s[1..][j] == rest[k];
          assert s[1 + j] == rest[k];
        }
      }
      assert Insert(x, s, key) == [s[0]] + rest;
    }
  }

  /** Insertion sort into ascending key order. */
  function SortAsc<T>(s: seq<T>, key: T -> real): (r: seq<T>)
    ensures multiset(r) == multiset(s)
    ensures SortedAsc(r, key)
  {
    if s == [] then []
    else
      var rest := SortAsc(s[1..], key);
      InsertSorted(s[0], rest, key);
      assert s == [s[0]] + s[1..];
      Insert(s[0], rest, key)
  }

  /** `s[::-1]`. */
  function Reverse<T>(s: seq<T>): (r: seq<T>)
    ensures |r| == |s|
    ensures forall i :: 0 <= i < |s| ==> r[i] == s[|s| - 1 - i]
    ensures multiset(r) == multiset(s)
  {
    if s == [] then []
    else
      assert s == [s[0]] + s[1..];
      Reverse(s[1..]) + [s[0]]
  }

  /** Descending order by `key`: the reverse of the ascending sort. */
  function SortDesc<T>(s: seq<T>, key: T -> real): (r: seq<T>)
    ensures multiset(r) == multiset(s)
    ensures SortedDesc(r, key)
  {
    Reverse(SortAsc(s, key))
  }

  /** `a` is obtained from `b` by deleting elements, the rest kept in order. */
  predicate IsSubsequence<T(==)>(a: seq<T>, b: seq<T>)
    decreases |b|
  {
    a == [] || (b != [] && ((a[0] == b[0] && IsSubsequence(a[1..], b[1..])) || IsSubsequence(a, b[1..])))
  }

  lemma {:induction false} SubsequenceMembers<T>(a: seq<T>, b: seq<T>)
    requires IsSubsequence(a, b)
    ensures forall x :: x in a ==> x in b
    decreases |b|
  {
    if a != [] {
      if a[0] == b[0] && IsSubsequence(a[1..], b[1..]) {
        SubsequenceMembers(a[1..], b[1..]);
        forall x | x in a ensures x in b {
          if x != a[0] {
            assert x in a[1..];
          }
        }
      } else {
        SubsequenceMembers(a, b[1..]);
      }
    }
  }

  /** Deleting elements from a descending sequence leaves a descending sequence. */
  lemma {:induction false} SubsequenceSortedDesc<T>(a: seq<T>, b: seq<T>, key: T -> real)
    requires IsSubsequence(a, b) && SortedDesc(b, key)
    ensures SortedDesc(a, key)
    decreases |b|
  {
    if a != [] {
      assert SortedDesc(b[1..], key);
      if a[0] == b[0] && IsSubsequence(a[1..], b[1..]) {
        SubsequenceSortedDesc(a[1..], b[1..], key);
        SubsequenceMembers(a[1..], b[1..]);
        forall j | 0 < j < |a| ensures key(a[0]) >= key(a[j]) {
          assert a[j] in a[1..];
          var m :| 0 <= m < |b[1..]| && b[1..][m] == a[j];
          assert b[1 + m] == a[j];
        }
      } else {
        SubsequenceSortedDesc(a, b[1..], key);
      }
    }
  }

  /** An element left out of a prefix of a descending sequence is outranked by everything in the prefix. */
  lemma TopOfSorted<T>(s: seq<T>, n: nat, key: T -> real, x: T)
    requires n <= |s| && SortedDesc(s, key)
    requires x in s && x !in s[..n]
    ensures forall k :: 0 <= k < n ==> key(s[k]) >= key(x)
  {
    var p :| 0 <= p < |s| && s[p] == x;
    assert p >= n;
  }

  lemma PrefixSortedDesc<T>(s: seq<T>, n: nat, key: T -> real)
    requires n <= |s| && SortedDesc(s, key)
    ensures SortedDesc(s[..n], key)
  {
  }

  /** Deleting position `j` removes one occurrence of `s[j]`. */
  lemma RemoveAt<T>(s: seq<T>, j: nat)
    requires j < |s|
    ensures multiset(s[..j] + s[j + 1..]) == multiset(s) - multiset{s[j]}
  {
    assert s == s[..j] + [s[j]] + s[j + 1..];
  }
}
