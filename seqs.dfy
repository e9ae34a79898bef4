/** The JavaScript array methods the source leans on (`filter`, `findIndex`,
    `find`, `some`), stated once over Dafny sequences. */
module Seqs {
  import opened Wrappers

  /** `s.filter(p)`: the elements satisfying `p`, in their original order. */
  function Filter<T>(s: seq<T>, p: T -> bool): (r: seq<T>)
    ensures |r| <= |s|
  {
    if s == [] then [] else (if p(s[0]) then [s[0]] else []) + Filter(s[1..], p)
  }

  /** One step of the filter, at the front. */
  lemma FilterCons<T>(x: T, s: seq<T>, p: T -> bool)
    ensures Filter([x] + s, p) == (if p(x) then [x] else []) + Filter(s, p)
  {
    assert ([x] + s)[1..] == s;
  }

  /** The filter keeps exactly the elements satisfying `p`. */
  lemma {:induction false} FilterMembers<T>(s: seq<T>, p: T -> bool)
    ensures forall k :: 0 <= k < |Filter(s, p)| ==> Filter(s, p)[k] in s && p(Filter(s, p)[k])
    ensures forall k :: 0 <= k < |s| && p(s[k]) ==> s[k] in Filter(s, p)
  {
    if s != [] {
      FilterMembers(s[1..], p);
      var r := Filter(s, p);
      var head := if p(s[0]) then [s[0]] else [];
      assert r == head + Filter(s[1..], p);
      forall k | 0 <= k < |s| && p(s[k]) ensures s[k] in r {
        if k > 0 { assert s[k] == s[1..][k - 1]; }
      }
    }
  }

  /** Filtering distributes over concatenation: together with the behaviour on
      a single element this pins the filter down, order included. */
  lemma {:induction false} FilterConcat<T>(a: seq<T>, b: seq<T>, p: T -> bool)
    ensures Filter(a + b, p) == Filter(a, p) + Filter(b, p)
  {
    if a == [] {
      assert a + b == b;
    } else {
      var ab := a + b;
      assert ab[0] == a[0];
      assert ab[1..] == a[1..] + b;
      assert Filter(ab, p) == (if p(a[0]) then [a[0]] else []) + Filter(a[1..] + b, p);
      FilterConcat(a[1..], b, p);
    }
  }

  /** The positions of `s` that satisfy `p`, in increasing order. */
  function FilterPositions<T>(s: seq<T>, p: T -> bool): seq<nat> {
    if s == [] then []
    else
      var rest := FilterPositions(s[1..], p);
      (if p(s[0]) then [0] else []) + seq(|rest|, k requires 0 <= k < |rest| => rest[k] + 1)
  }

  /** There is one position per element of the filter, each within `s`. */
  lemma {:induction false} FilterPositionsInRange<T>(s: seq<T>, p: T -> bool)
    ensures |FilterPositions(s, p)| == |Filter(s, p)|
    ensures forall k :: 0 <= k < |FilterPositions(s, p)| ==> FilterPositions(s, p)[k] < |s|
  {
    if s != [] {
      FilterPositionsInRange(s[1..], p);
      var rest := FilterPositions(s[1..], p);
      var shifted := seq(|rest|, k requires 0 <= k < |rest| => rest[k] + 1);
      var head: seq<nat> := if p(s[0]) then [0] else [];
      assert FilterPositions(s, p) == head + shifted;
      assert Filter(s, p) == (if p(s[0]) then [s[0]] else []) + Filter(s[1..], p);
    }
  }

  /** The positions of the filter's elements are strictly increasing. */
  lemma {:induction false} FilterPositionsIncrease<T>(s: seq<T>, p: T -> bool)
    ensures forall k, m :: 0 <= k < m < |FilterPositions(s, p)| ==> FilterPositions(s, p)[k] < FilterPositions(s, p)[m]
  {
    if s != [] {
      FilterPositionsIncrease(s[1..], p);
      var rest := FilterPositions(s[1..], p);
      var shifted := seq(|rest|, k requires 0 <= k < |rest| => rest[k] + 1);
      var head: seq<nat> := if p(s[0]) then [0] else [];
      assert FilterPositions(s, p) == head + shifted;
    }
  }

  /** The filter keeps the order of `s`: its k-th element is the element at
      the k-th satisfying position. */
  lemma {:induction false} FilterKeepsOrder<T>(s: seq<T>, p: T -> bool)
    ensures |FilterPositions(s, p)| == |Filter(s, p)|
    ensures forall k :: 0 <= k < |Filter(s, p)| ==>
      FilterPositions(s, p)[k] < |s| && Filter(s, p)[k] == s[FilterPositions(s, p)[k]]
  {
    FilterPositionsInRange(s, p);
    if s != [] {
      FilterKeepsOrder(s[1..], p);
      var rest := FilterPositions(s[1..], p);
      var shifted := seq(|rest|, k requires 0 <= k < |rest| => rest[k] + 1);
      var head: seq<nat> := if p(s[0]) then [0] else [];
      var pos := head + shifted;
      var r := (if p(s[0]) then [s[0]] else []) + Filter(s[1..], p);
      assert FilterPositions(s, p) == pos;
      assert Filter(s, p) == r;
      forall k | 0 <= k < |r|
        ensures r[k] == s[pos[k]]
      {
        if k >= |head| {
          var j := k - |head|;
          assert pos[k] == rest[j] + 1;
          assert r[k] == Filter(s[1..], p)[j] == s[1..][rest[j]];
        }
      }
    }
  }

  /** Every position whose element satisfies `p` is listed. */
  lemma {:induction false} FilterPositionsComplete<T>(s: seq<T>, p: T -> bool)
    ensures forall k :: 0 <= k < |s| && p(s[k]) ==> k in FilterPositions(s, p)
  {
    if s != [] {
      FilterPositionsComplete(s[1..], p);
      var rest := FilterPositions(s[1..], p);
      var shifted := seq(|rest|, k requires 0 <= k < |rest| => rest[k] + 1);
      var head: seq<nat> := if p(s[0]) then [0] else [];
      assert FilterPositions(s, p) == head + shifted;
      forall k | 1 <= k < |s| && p(s[k]) ensures k in FilterPositions(s, p) {
        assert s[1..][k - 1] == s[k];
        var j :| 0 <= j < |rest| && rest[j] == k - 1;
        assert shifted[j] == k;
      }
    }
  }

  /** The filter keeps every occurrence of an element satisfying `p` and
      none of any other. */
  lemma {:induction false} FilterCount<T>(s: seq<T>, p: T -> bool)
    ensures forall x :: p(x) ==> multiset(Filter(s, p))[x] == multiset(s)[x]
    ensures forall x :: !p(x) ==> multiset(Filter(s, p))[x] == 0
  {
    if s != [] {
      FilterCount(s[1..], p);
      assert s == [s[0]] + s[1..];
      assert Filter(s, p) == (if p(s[0]) then [s[0]] else []) + Filter(s[1..], p);
    }
  }

  /** A filter that keeps every element is the identity. */
  lemma {:induction false} FilterKeepsAll<T>(s: seq<T>, p: T -> bool)
    requires forall k :: 0 <= k < |s| ==> p(s[k])
    ensures Filter(s, p) == s
  {
    if s != [] {
      FilterKeepsAll(s[1..], p);
    }
  }

  /** Filtering never adds occurrences: the result is a sub-multiset. */
  lemma {:induction false} FilterSubMultiset<T>(s: seq<T>, p: T -> bool)
    ensures multiset(Filter(s, p)) <= multiset(s)
  {
    if s != [] {
      FilterSubMultiset(s[1..], p);
      assert s == [s[0]] + s[1..];
    }
  }

  /** `s.findIndex(p)`: the first index satisfying `p`, or -1. */
  function FindIndex<T>(s: seq<T>, p: T -> bool): (i: int)
    ensures -1 <= i < |s|
    ensures i >= 0 ==> p(s[i]) && forall j :: 0 <= j < i ==> !p(s[j])
    ensures i == -1 <==> forall j :: 0 <= j < |s| ==> !p(s[j])
  {
    if s == [] then -1
    else if p(s[0]) then 0
    else
      var k := FindIndex(s[1..], p);
      if k == -1 then -1 else k + 1
  }

  /** `s.find(p)`: the first element satisfying `p`, if any. */
  function Find<T>(s: seq<T>, p: T -> bool): (r: Option<T>)
    ensures r.None? <==> forall j :: 0 <= j < |s| ==> !p(s[j])
    ensures r.Some? ==> exists i :: 0 <= i < |s| && s[i] == r.value && p(s[i]) && forall j :: 0 <= j < i ==> !p(s[j])
  {
    var i := FindIndex(s, p);
    if i == -1 then None else Some(s[i])
  }

  /** `s.some(p)`. */
  function Any<T>(s: seq<T>, p: T -> bool): (r: bool)
    ensures r <==> exists j :: 0 <= j < |s| && p(s[j])
  {
    FindIndex(s, p) != -1
  }
}
