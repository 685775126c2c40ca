/**
  Array.prototype.sort with a numeric key: stable, and a permutation.
 */
module Sorting {

  predicate SortedBy<T>(s: seq<T>, key: T -> int) {
    forall i, j :: 0 <= i < j < |s| ==> key(s[i]) <= key(s[j])
  }

  predicate StrictlySortedBy<T>(s: seq<T>, key: T -> int) {
    forall i, j :: 0 <= i < j < |s| ==> key(s[i]) < key(s[j])
  }

  // `x` goes behind every element whose key is not greater.
  function Insert<T>(s: seq<T>, x: T, key: T -> int): (r: seq<T>)
    requires SortedBy(s, key)
    ensures SortedBy(r, key)
    ensures multiset(r) == multiset(s) + multiset{x}
  {
    if s == [] then [x]
    else
      var n := |s| - 1;
      if key(s[n]) <= key(x) then s + [x]
      else
        var t := Insert(s[..n], x, key);
        InsertBelow(s, x, t, key);
        t + [s[n]]
  }

  lemma InsertBelow<T>(s: seq<T>, x: T, t: seq<T>, key: T -> int)
    requires s != [] && SortedBy(s, key) && SortedBy(t, key) && key(s[|s| - 1]) > key(x)
    requires multiset(t) == multiset(s[..|s| - 1]) + multiset{x}
    ensures SortedBy(t + [s[|s| - 1]], key)
    ensures multiset(t + [s[|s| - 1]]) == multiset(s) + multiset{x}
  {
    var n := |s| - 1;
    assert s == s[..n] + [s[n]];
    forall i | 0 <= i < |t| ensures key(t[i]) <= key(s[n]) {
      assert t[i] in multiset(t);
      if t[i] != x {
        assert t[i] in multiset(s[..n]);
        var j :| 0 <= j < n && s[..n][j] == t[i];
      }
    }
  }

  function SortBy<T>(s: seq<T>, key: T -> int): (r: seq<T>)
    ensures SortedBy(r, key) && multiset(r) == multiset(s) && |r| == |s|
  {
    if s == [] then []
    else
      var n := |s| - 1;
      assert s == s[..n] + [s[n]];
      var r := Insert(SortBy(s[..n], key), s[n], key);
      assert |r| == |multiset(r)| == |multiset(s)| == |s|;
      r
  }

  lemma SameHead<T>(a: seq<T>, b: seq<T>, key: T -> int)
    requires SortedBy(a, key) && StrictlySortedBy(b, key) && multiset(a) == multiset(b) && a != [] && b != []
    ensures a[0] == b[0]
  {
    assert a[0] in multiset(b) && b[0] in multiset(a);
    var i :| 0 <= i < |b| && b[i] == a[0];
    var j :| 0 <= j < |a| && a[j] == b[0];
    assert key(b[i]) <= key(b[0]);
  }

  lemma MultisetOfTail<T>(a: seq<T>)
    requires a != []
    ensures multiset(a[1..]) == multiset(a) - multiset{a[0]}
  {
    assert a == [a[0]] + a[1..];
  }

  lemma SameLength<T>(a: seq<T>, b: seq<T>)
    requires multiset(a) == multiset(b)
    ensures |a| == |b|
  {
    assert |multiset(a)| == |a| && |multiset(b)| == |b|;
  }

  /** A sorted rearrangement of a strictly sorted sequence is that sequence. */
  lemma {:induction false} SortedIsUnique<T>(a: seq<T>, b: seq<T>, key: T -> int)
    requires SortedBy(a, key) && StrictlySortedBy(b, key) && multiset(a) == multiset(b)
    ensures a == b
  {
    SameLength(a, b);
    if b != [] {
      SameHead(a, b, key);
      MultisetOfTail(a);
      MultisetOfTail(b);
      SortedIsUnique(a[1..], b[1..], key);
      assert a == [a[0]] + a[1..] && b == [b[0]] + b[1..];
    }
  }

  function Range(n: nat): (r: seq<nat>)
    ensures |r| == n && forall i :: 0 <= i < n ==> r[i] == i
  {
    seq(n, i requires 0 <= i < n => i)
  }
}
