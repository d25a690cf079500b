/** Sequence operations the source takes from Array.prototype (filter, map,
    slice) and from the database's ORDER BY / LIMIT, each defined once and
    shared by every model. */
module Seqs {

  /** Array.prototype.filter: the elements that satisfy `p`, in their order. */
  function Filter<T(!new)>(s: seq<T>, p: T -> bool): (r: seq<T>)
    ensures |r| <= |s|
    ensures forall x :: x in r <==> x in s && p(x)
    ensures forall i :: 0 <= i < |r| ==> p(r[i])
    ensures multiset(r) <= multiset(s)
    decreases |s|
  {
    if s == [] then []
    else
      assert s == [s[0]] + s[1..];
      if p(s[0]) then [s[0]] + Filter(s[1..], p) else Filter(s[1..], p)
  }

  /** Filtering commutes with concatenation: the filter keeps the relative
      order of what it keeps. */
  lemma {:induction false} FilterConcat<T(!new)>(a: seq<T>, b: seq<T>, p: T -> bool)
    ensures Filter(a + b, p) == Filter(a, p) + Filter(b, p)
    decreases |a|
  {
    if a == [] {
      assert a + b == b;
    } else {
      assert (a + b)[1..] == a[1..] + b;
      FilterConcat(a[1..], b, p);
    }
  }

  /** A filter keeps everything exactly when every element passes. */
  lemma {:induction false} FilterAll<T(!new)>(s: seq<T>, p: T -> bool)
    ensures Filter(s, p) == s <==> forall i :: 0 <= i < |s| ==> p(s[i])
    decreases |s|
  {
    if s != [] {
      FilterAll(s[1..], p);
      if !p(s[0]) {
        assert |Filter(s, p)| < |s| by {
          assert Filter(s, p) == Filter(s[1..], p);
        }
      }
    }
  }

  /** A filter keeps nothing when no element passes. */
  lemma {:induction false} FilterNone<T(!new)>(s: seq<T>, p: T -> bool)
    requires forall i :: 0 <= i < |s| ==> !p(s[i])
    ensures Filter(s, p) == []
    decreases |s|
  {
    if s != [] {
      FilterNone(s[1..], p);
    }
  }

  /** When exactly the first `k` elements pass, the filter keeps that prefix. */
  lemma {:induction false} FilterPrefix<T(!new)>(s: seq<T>, k: nat, p: T -> bool)
    requires forall i :: 0 <= i < |s| ==> (p(s[i]) <==> i < k)
    ensures Filter(s, p) == Take(s, k)
    decreases |s|
  {
    if s != [] {
      if k == 0 {
        FilterNone(s, p);
      } else {
        FilterPrefix(s[1..], k - 1, p);
        assert Take(s, k) == [s[0]] + Take(s[1..], k - 1);
      }
    }
  }

  /** Two predicates that agree on the elements of `s` filter it alike. */
  lemma {:induction false} FilterCongruent<T(!new)>(s: seq<T>, p: T -> bool, q: T -> bool)
    requires forall i :: 0 <= i < |s| ==> p(s[i]) == q(s[i])
    ensures Filter(s, p) == Filter(s, q)
    decreases |s|
  {
    if s != [] {
      FilterCongruent(s[1..], p, q);
    }
  }

  /** Array.prototype.map. */
  function MapSeq<T, U>(s: seq<T>, f: T -> U): (r: seq<U>)
    ensures |r| == |s|
    ensures forall i :: 0 <= i < |s| ==> r[i] == f(s[i])
  {
    seq(|s|, i requires 0 <= i < |s| => f(s[i]))
  }

  /** Array.prototype.slice(0, n) and the database's LIMIT n. */
  function Take<T>(s: seq<T>, n: nat): (r: seq<T>)
    ensures |r| == if n < |s| then n else |s|
    ensures forall i :: 0 <= i < |r| ==> r[i] == s[i]
  {
    if n < |s| then s[..n] else s
  }

  /** `le` relates every pair one way or the other (ties allowed). */
  ghost predicate Total<T(!new)>(le: (T, T) -> bool) {
    forall a, b :: le(a, b) || le(b, a)
  }

  /** Each element is `le` its successor. */
  predicate SortedBy<T>(s: seq<T>, le: (T, T) -> bool) {
    forall i :: 0 <= i < |s| - 1 ==> le(s[i], s[i + 1])
  }

  /** Inserts `x` before the first element it is `le`; ties keep `x` first. */
  function InsertBy<T(!new)>(x: T, s: seq<T>, le: (T, T) -> bool): (r: seq<T>)
    requires Total(le) && SortedBy(s, le)
    ensures SortedBy(r, le)
    ensures multiset(r) == multiset(s) + multiset{x}
    ensures |r| == |s| + 1
    ensures r[0] == x || (s != [] && r[0] == s[0])
    decreases |s|
  {
    if s == [] || le(x, s[0]) then [x] + s
    else
      assert s == [s[0]] + s[1..];
      [s[0]] + InsertBy(x, s[1..], le)
  }

  /** A stable insertion sort: the model of ORDER BY and Array.prototype.sort. */
  function SortBy<T(!new)>(s: seq<T>, le: (T, T) -> bool): (r: seq<T>)
    requires Total(le)
    ensures SortedBy(r, le)
    ensures multiset(r) == multiset(s)
    ensures |r| == |s|
    decreases |s|
  {
    if s == [] then []
    else
      assert s == [s[0]] + s[1..];
      InsertBy(s[0], SortBy(s[1..], le), le)
  }

  /** Sorting a sequence that is already in order returns it unchanged (the
      sort is stable, as Array.prototype.sort is). */
  lemma {:induction false} SortBySorted<T(!new)>(s: seq<T>, le: (T, T) -> bool)
    requires Total(le) && SortedBy(s, le)
    ensures SortBy(s, le) == s
    decreases |s|
  {
    if s != [] {
      assert SortedBy(s[1..], le);
      SortBySorted(s[1..], le);
      assert s == [s[0]] + s[1..];
    }
  }

  /** The elements of `s` in the opposite order (a newest-first listing of an
      append-only table). */
  function Reverse<T>(s: seq<T>): (r: seq<T>)
    ensures |r| == |s|
    ensures forall i :: 0 <= i < |s| ==> r[i] == s[|s| - 1 - i]
  {
    seq(|s|, i requires 0 <= i < |s| => s[|s| - 1 - i])
  }
}
