/** Order-preserving sequence combinators: the model of a `WHERE` clause
    over a result in the store's default order, and of list comprehensions. */
module Seqs {

  /** `r` is obtained from `s` by deleting elements, keeping the order of the rest. */
  ghost predicate SubsequenceOf<T>(r: seq<T>, s: seq<T>)
    decreases |s|
  {
    if r == [] then true
    else if s == [] then false
    else (r[0] == s[0] && SubsequenceOf(r[1..], s[1..])) || SubsequenceOf(r, s[1..])
  }

  /** The elements of `s` that satisfy `p`, in the order of `s`. */
  function Filter<T(!new)>(s: seq<T>, p: T -> bool): (r: seq<T>)
    ensures |r| <= |s|
    ensures forall x :: x in r <==> x in s && p(x)
    decreases |s|
  {
    if s == [] then []
    else (if p(s[0]) then [s[0]] else []) + Filter(s[1..], p)
  }

  /** `f` applied to every element of `s`, in order. */
  function MapSeq<T, U>(f: T -> U, s: seq<T>): (r: seq<U>)
    ensures |r| == |s|
    ensures forall k :: 0 <= k < |s| ==> r[k] == f(s[k])
  {
    seq(|s|, k requires 0 <= k < |s| => f(s[k]))
  }

  /** Every element of a mapped sequence is the image of an element of the source. */
  lemma MapSeqMembership<T, U>(f: T -> U, s: seq<T>, y: U)
    ensures y in MapSeq(f, s) <==> exists x :: x in s && y == f(x)
  {
  }

  /** A filter keeps the order of what it keeps. */
  lemma {:induction false} FilterIsSubsequence<T(!new)>(s: seq<T>, p: T -> bool)
    ensures SubsequenceOf(Filter(s, p), s)
    decreases |s|
  {
    if s != [] {
      FilterIsSubsequence(s[1..], p);
      var r := Filter(s, p);
      if p(s[0]) {
        assert r[0] == s[0] && r[1..] == Filter(s[1..], p);
      } else {
        assert r == Filter(s[1..], p);
      }
    }
  }

  /** A filter that every element passes returns its input unchanged. */
  lemma {:induction false} FilterKeepsAll<T(!new)>(s: seq<T>, p: T -> bool)
    requires forall k :: 0 <= k < |s| ==> p(s[k])
    ensures Filter(s, p) == s
    decreases |s|
  {
    if s != [] {
      FilterKeepsAll(s[1..], p);
      assert [s[0]] + s[1..] == s;
    }
  }

  /** A filter shortens its input exactly when some element fails it. */
  lemma {:induction false} FilterShortens<T(!new)>(s: seq<T>, p: T -> bool)
    ensures |Filter(s, p)| < |s| <==> exists k :: 0 <= k < |s| && !p(s[k])
    decreases |s|
  {
    if s != [] {
      FilterShortens(s[1..], p);
      if exists k :: 0 <= k < |s[1..]| && !p(s[1..][k]) {
        var k :| 0 <= k < |s[1..]| && !p(s[1..][k]);
        assert !p(s[k + 1]);
      }
      if exists k :: 0 <= k < |s| && !p(s[k]) {
        var k :| 0 <= k < |s| && !p(s[k]);
        if k > 0 {
          assert !p(s[1..][k - 1]);
        }
      }
    }
  }

  /** The head of a non-empty filter is the first element of `s` that passes it. */
  lemma {:induction false} FilterHeadIsFirst<T(!new)>(s: seq<T>, p: T -> bool)
    ensures Filter(s, p) != [] ==> exists k ::
      && 0 <= k < |s| && Filter(s, p)[0] == s[k] && p(s[k])
      && forall j :: 0 <= j < k ==> !p(s[j])
    decreases |s|
  {
    if s != [] && !p(s[0]) {
      FilterHeadIsFirst(s[1..], p);
      if Filter(s, p) != [] {
        var k :| 0 <= k < |s[1..]| && Filter(s[1..], p)[0] == s[1..][k] && p(s[1..][k])
                 && forall j :: 0 <= j < k ==> !p(s[1..][j]);
        assert forall j :: 0 < j < k + 1 ==> s[j] == s[1..][j - 1];
      }
    }
  }
}
