/** Subsequences picked out by a predicate, and counting by them. */
module Sequences {

  function Last<T>(s: seq<T>): T
    requires |s| > 0
  {
    s[|s| - 1]
  }

  function Front<T>(s: seq<T>): seq<T>
    requires |s| > 0
  {
    s[..|s| - 1]
  }

  /** The elements of `s` that satisfy `p`, in order. */
  function Filter<T>(s: seq<T>, p: T -> bool): seq<T> {
    if |s| == 0 then []
    else if p(Last(s)) then Filter(Front(s), p) + [Last(s)]
    else Filter(Front(s), p)
  }

  lemma {:induction false} FilterSound<T>(s: seq<T>, p: T -> bool, e: T)
    ensures e in Filter(s, p) <==> e in s && p(e)
  {
    if |s| != 0 {
      FilterSound(Front(s), p, e);
      assert s == Front(s) + [Last(s)];
    }
  }

  lemma FilterAppend<T>(s: seq<T>, e: T, p: T -> bool)
    ensures Filter(s + [e], p) == Filter(s, p) + (if p(e) then [e] else [])
  {
    assert Front(s + [e]) == s;
  }

  lemma {:induction false} FilterConcat<T>(a: seq<T>, b: seq<T>, p: T -> bool)
    ensures Filter(a + b, p) == Filter(a, p) + Filter(b, p)
  {
    if |b| == 0 {
      assert a + b == a;
    } else {
      FilterConcat(a, Front(b), p);
      assert a + b == (a + Front(b)) + [Last(b)];
      FilterAppend(a + Front(b), Last(b), p);
    }
  }

  lemma {:induction false} FilterCommute<T>(s: seq<T>, p: T -> bool, q: T -> bool)
    ensures Filter(Filter(s, p), q) == Filter(Filter(s, q), p)
  {
    if |s| != 0 {
      var f, e := Front(s), Last(s);
      FilterCommute(f, p, q);
      FilterAppend(Filter(f, p), e, q);
      FilterAppend(Filter(f, q), e, p);
    }
  }

  lemma {:induction false} FilterNone<T>(s: seq<T>, p: T -> bool)
    requires forall k | 0 <= k < |s| :: !p(s[k])
    ensures Filter(s, p) == []
  {
    if |s| != 0 {
      forall k | 0 <= k < |Front(s)|
        ensures !p(Front(s)[k])
      {
        assert Front(s)[k] == s[k];
      }
      FilterNone(Front(s), p);
    }
  }

  /** An element that satisfies `p` lands in the subsequence after the ones picked before it. */
  lemma {:induction false} FilterRank<T>(s: seq<T>, p: T -> bool, k: nat)
    requires k < |s| && p(s[k])
    ensures |Filter(s[..k], p)| < |Filter(s, p)| && Filter(s, p)[|Filter(s[..k], p)|] == s[k]
  {
    assert s == s[..k + 1] + s[k + 1..];
    FilterConcat(s[..k + 1], s[k + 1..], p);
    assert s[..k + 1] == s[..k] + [s[k]];
    FilterAppend(s[..k], s[k], p);
  }

  lemma FilterMonotone<T>(s: seq<T>, p: T -> bool, k: nat, m: nat)
    requires k <= m <= |s|
    ensures |Filter(s[..k], p)| <= |Filter(s[..m], p)|
    ensures k < m && p(s[k]) ==> |Filter(s[..k], p)| < |Filter(s[..m], p)|
  {
    assert s[..m] == s[..k] + s[k..m];
    FilterConcat(s[..k], s[k..m], p);
    if k < m && p(s[k]) {
      assert s[k] == s[k..m][0];
      FilterSound(s[k..m], p, s[k]);
    }
  }

  /** The index at which the j-th element satisfying `p` (counting from 0) stands. */
  function Position<T>(s: seq<T>, p: T -> bool, j: nat): (k: nat)
    requires j < |Filter(s, p)|
    ensures k < |s| && p(s[k]) && |Filter(s[..k], p)| == j
  {
    if j < |Filter(Front(s), p)| then
      var k := Position(Front(s), p, j);
      assert Front(s)[..k] == s[..k];
      k
    else
      assert s[..|s| - 1] == Front(s);
      |s| - 1
  }

  lemma PositionUnique<T>(s: seq<T>, p: T -> bool, k: nat)
    requires k < |s| && p(s[k])
    ensures |Filter(s[..k], p)| < |Filter(s, p)| && Position(s, p, |Filter(s[..k], p)|) == k
  {
    FilterRank(s, p, k);
    var m := Position(s, p, |Filter(s[..k], p)|);
    if m < k {
      FilterMonotone(s, p, m, k);
    } else if k < m {
      FilterMonotone(s, p, k, m);
    }
  }

  function Is(i: nat): nat -> bool {
    (e: nat) => e == i
  }

  /** How often `i` occurs in `s`. */
  function Count(s: seq<nat>, i: nat): nat {
    |Filter(s, Is(i))|
  }

  lemma CountAppend(s: seq<nat>, e: nat, i: nat)
    ensures Count(s + [e], i) == Count(s, i) + (if e == i then 1 else 0)
  {
    FilterAppend(s, e, Is(i));
  }

  lemma CountStep(s: seq<nat>, k: nat, i: nat)
    requires k < |s|
    ensures Count(s[..k + 1], i) == Count(s[..k], i) + (if s[k] == i then 1 else 0)
  {
    assert s[..k + 1] == s[..k] + [s[k]];
    CountAppend(s[..k], s[k], i);
  }
}
