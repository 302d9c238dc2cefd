/**
 * `Array.prototype.filter` as a function on sequences, and the subsequence
 * relation that says a list keeps its original order.
 */
module Seqs {

  /** `a` is obtained from `b` by deleting elements, keeping the rest in order. */
  ghost predicate IsSubsequence<T>(a: seq<T>, b: seq<T>)
    decreases |b|
  {
    if a == [] then true
    else if b == [] then false
    else (a[0] == b[0] && IsSubsequence(a[1..], b[1..])) || IsSubsequence(a, b[1..])
  }

  /** `s.filter(p)`: the elements that satisfy `p`, with their multiplicities, in their original order. */
  function Filter<T(!new)>(s: seq<T>, p: T -> bool): (r: seq<T>)
    ensures |r| <= |s|
    ensures forall i :: 0 <= i < |r| ==> p(r[i])
    ensures forall x :: multiset(r)[x] == if p(x) then multiset(s)[x] else 0
    ensures IsSubsequence(r, s)
  {
    if s == [] then []
    else
      var rest := Filter(s[1..], p);
      assert s == [s[0]] + s[1..];
      if p(s[0]) then
        assert ([s[0]] + rest)[1..] == rest;
        [s[0]] + rest
      else
        rest
  }

  /** An element is kept exactly when it occurs in the input and satisfies the predicate. */
  lemma FilterMembership<T(!new)>(s: seq<T>, p: T -> bool, x: T)
    ensures x in Filter(s, p) <==> x in s && p(x)
  {
    assert x in Filter(s, p) <==> multiset(Filter(s, p))[x] > 0;
    assert x in s <==> multiset(s)[x] > 0;
  }

  /** Filtering depends only on the predicate's values. */
  lemma {:induction false} FilterExtensional<T(!new)>(s: seq<T>, p: T -> bool, q: T -> bool)
    requires forall x :: p(x) == q(x)
    ensures Filter(s, p) == Filter(s, q)
  {
    if s != [] {
      FilterExtensional(s[1..], p, q);
    }
  }

  /** The conjunction of two tests. */
  function Both<T>(p: T -> bool, q: T -> bool): T -> bool {
    x => p(x) && q(x)
  }

  /** Two filters in a row select what one filter with the conjunction selects. */
  lemma {:induction false} FilterFusion<T(!new)>(s: seq<T>, p: T -> bool, q: T -> bool)
    ensures Filter(Filter(s, p), q) == Filter(s, Both(p, q))
  {
    if s != [] {
      FilterFusion(s[1..], p, q);
      var rest := Filter(s[1..], p);
      if p(s[0]) {
        assert Filter(s, p) == [s[0]] + rest;
        assert ([s[0]] + rest)[1..] == rest;
      }
    }
  }

  /** A predicate that holds everywhere keeps the whole sequence. */
  lemma {:induction false} FilterAll<T(!new)>(s: seq<T>, p: T -> bool)
    requires forall i :: 0 <= i < |s| ==> p(s[i])
    ensures Filter(s, p) == s
  {
    if s != [] {
      FilterAll(s[1..], p);
    }
  }

  /** A weaker test keeps at least as many elements. */
  lemma {:induction false} FilterLengthMonotone<T(!new)>(s: seq<T>, p: T -> bool, q: T -> bool)
    requires forall x :: p(x) ==> q(x)
    ensures |Filter(s, p)| <= |Filter(s, q)|
  {
    if s != [] {
      FilterLengthMonotone(s[1..], p, q);
    }
  }

  /** The negation of a test. */
  function Not<T>(p: T -> bool): T -> bool {
    x => !p(x)
  }

  /** Every element passes a test or its negation, never both. */
  lemma {:induction false} FilterPartition<T(!new)>(s: seq<T>, p: T -> bool)
    ensures |Filter(s, p)| + |Filter(s, Not(p))| == |s|
  {
    if s != [] {
      FilterPartition(s[1..], p);
    }
  }

  /** `s.reduce((sum, x) => sum + f(x), 0)` over integers. */
  function SumInt<T>(s: seq<T>, f: T -> int): int
  {
    if s == [] then 0 else f(s[0]) + SumInt(s[1..], f)
  }

  /** `s.reduce((sum, x) => sum + f(x), 0)` over exact decimals. */
  function SumReal<T>(s: seq<T>, f: T -> real): real
  {
    if s == [] then 0.0 else f(s[0]) + SumReal(s[1..], f)
  }

  lemma {:induction false} SumIntAppend<T>(a: seq<T>, b: seq<T>, f: T -> int)
    ensures SumInt(a + b, f) == SumInt(a, f) + SumInt(b, f)
  {
    if a != [] {
      assert (a + b)[1..] == a[1..] + b;
      SumIntAppend(a[1..], b, f);
    } else {
      assert a + b == b;
    }
  }

  lemma {:induction false} SumRealAppend<T>(a: seq<T>, b: seq<T>, f: T -> real)
    ensures SumReal(a + b, f) == SumReal(a, f) + SumReal(b, f)
  {
    if a != [] {
      assert (a + b)[1..] == a[1..] + b;
      SumRealAppend(a[1..], b, f);
    } else {
      assert a + b == b;
    }
  }

  /** The sum of a list with a given head. */
  lemma SumIntCons<T>(x: T, b: seq<T>, f: T -> int)
    ensures SumInt([x] + b, f) == f(x) + SumInt(b, f)
  {
    assert ([x] + b)[1..] == b;
  }

  lemma SumRealCons<T>(x: T, b: seq<T>, f: T -> real)
    ensures SumReal([x] + b, f) == f(x) + SumReal(b, f)
  {
    assert ([x] + b)[1..] == b;
  }

  /** Replacing one element changes the sum by the difference of its two terms. */
  lemma SumIntUpdate<T>(s: seq<T>, k: nat, x: T, f: T -> int)
    requires k < |s|
    ensures SumInt(s[k := x], f) == SumInt(s, f) - f(s[k]) + f(x)
  {
    var a, b := s[..k], s[k + 1..];
    assert s == a + ([s[k]] + b);
    assert s[k := x] == a + ([x] + b);
    SumIntAppend(a, [s[k]] + b, f);
    SumIntAppend(a, [x] + b, f);
    SumIntCons(s[k], b, f);
    SumIntCons(x, b, f);
  }

  /** Taking `x` out from between `a` and `b` takes its term out of the sum. */
  lemma SumIntRemoveParts<T>(a: seq<T>, x: T, b: seq<T>, f: T -> int)
    ensures SumInt(a + b, f) == SumInt(a + ([x] + b), f) - f(x)
  {
    SumIntAppend(a, [x] + b, f);
    SumIntCons(x, b, f);
    SumIntAppend(a, b, f);
  }

  /** Removing one element takes its term out of the sum. */
  lemma SumIntRemove<T>(s: seq<T>, k: nat, f: T -> int)
    requires k < |s|
    ensures SumInt(s[..k] + s[k + 1..], f) == SumInt(s, f) - f(s[k])
  {
    assert s == s[..k] + ([s[k]] + s[k + 1..]);
    SumIntRemoveParts(s[..k], s[k], s[k + 1..], f);
  }

  lemma SumRealUpdate<T>(s: seq<T>, k: nat, x: T, f: T -> real)
    requires k < |s|
    ensures SumReal(s[k := x], f) == SumReal(s, f) - f(s[k]) + f(x)
  {
    var a, b := s[..k], s[k + 1..];
    assert s == a + ([s[k]] + b);
    assert s[k := x] == a + ([x] + b);
    SumRealAppend(a, [s[k]] + b, f);
    SumRealAppend(a, [x] + b, f);
    SumRealCons(s[k], b, f);
    SumRealCons(x, b, f);
  }

  lemma SumRealRemoveParts<T>(a: seq<T>, x: T, b: seq<T>, f: T -> real)
    ensures SumReal(a + b, f) == SumReal(a + ([x] + b), f) - f(x)
  {
    SumRealAppend(a, [x] + b, f);
    SumRealCons(x, b, f);
    SumRealAppend(a, b, f);
  }

  lemma SumRealRemove<T>(s: seq<T>, k: nat, f: T -> real)
    requires k < |s|
    ensures SumReal(s[..k] + s[k + 1..], f) == SumReal(s, f) - f(s[k])
  {
    assert s == s[..k] + ([s[k]] + s[k + 1..]);
    SumRealRemoveParts(s[..k], s[k], s[k + 1..], f);
  }
}
