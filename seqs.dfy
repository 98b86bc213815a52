/**
 * Sequence operations the Swift sources reach for through the standard
 * library: `filter`, `compactMap`, `prefix(_:)`, `first(where:)` and
 * `removeAll(where:)`, with the facts about them the rest of the model uses.
 */
module Seqs {
  import opened Wrappers

  /** `a` is an order-preserving subsequence of `b`. */
  predicate IsSubseq<T(==)>(a: seq<T>, b: seq<T>)
    decreases |b|
  {
    |a| <= |b| &&
    (a == [] || (a[0] == b[0] && IsSubseq(a[1..], b[1..])) || IsSubseq(a, b[1..]))
  }

  lemma {:induction false} IsSubseqRefl<T>(a: seq<T>)
    ensures IsSubseq(a, a)
    decreases |a|
  {
    if a != [] {
      IsSubseqRefl(a[1..]);
    }
  }

  /** Swift's `filter`: the elements satisfying `p`, in their original order. */
  function Filter<T(==,!new)>(s: seq<T>, p: T -> bool): (r: seq<T>)
    ensures |r| <= |s|
    ensures forall i :: 0 <= i < |r| ==> p(r[i])
    ensures forall x :: x in r <==> x in s && p(x)
  {
    if s == [] then []
    else
      var rest := Filter(s[1..], p);
      assert s == [s[0]] + s[1..];
      if p(s[0]) then [s[0]] + rest else rest
  }

  /** Filtering keeps every kept element as many times as it occurs. */
  lemma {:induction false} FilterMultiset<T(!new)>(s: seq<T>, p: T -> bool)
    ensures forall x :: multiset(Filter(s, p))[x] == if p(x) then multiset(s)[x] else 0
    decreases |s|
  {
    if s != [] {
      FilterMultiset(s[1..], p);
      assert s == [s[0]] + s[1..];
    }
  }

  /** Filtering keeps the order of what it keeps. */
  lemma {:induction false} FilterIsSubseq<T(!new)>(s: seq<T>, p: T -> bool)
    ensures IsSubseq(Filter(s, p), s)
    decreases |s|
  {
    if s != [] {
      FilterIsSubseq(s[1..], p);
      var rest := Filter(s[1..], p);
      if p(s[0]) {
        assert ([s[0]] + rest)[1..] == rest;
      }
    }
  }

  lemma {:induction false} FilterAppend<T(!new)>(a: seq<T>, b: seq<T>, p: T -> bool)
    ensures Filter(a + b, p) == Filter(a, p) + Filter(b, p)
    decreases |a|
  {
    if a != [] {
      assert (a + b)[0] == a[0];
      assert (a + b)[1..] == a[1..] + b;
      FilterAppend(a[1..], b, p);
      assert Filter(a + b, p) == (if p(a[0]) then [a[0]] else []) + Filter(a[1..] + b, p);
    } else {
      assert a + b == b;
    }
  }

  /** One more element: it is kept exactly when it satisfies the predicate. */
  lemma FilterSnoc<T(!new)>(s: seq<T>, x: T, p: T -> bool)
    ensures Filter(s + [x], p) == Filter(s, p) + (if p(x) then [x] else [])
  {
    FilterAppend(s, [x], p);
    assert [x][1..] == [];
  }

  /** Filtering with a predicate every element satisfies changes nothing. */
  lemma {:induction false} FilterAll<T(!new)>(s: seq<T>, p: T -> bool)
    requires forall i :: 0 <= i < |s| ==> p(s[i])
    ensures Filter(s, p) == s
    decreases |s|
  {
    if s != [] {
      FilterAll(s[1..], p);
    }
  }

  /** Filtering twice with the same predicate is filtering once. */
  lemma FilterIdempotent<T(!new)>(s: seq<T>, p: T -> bool)
    ensures Filter(Filter(s, p), p) == Filter(s, p)
  {
    FilterAll(Filter(s, p), p);
  }

  /** Swift's `compactMap`: the successful results of `f`, in order. */
  function FilterMap<T, U(==,!new)>(s: seq<T>, f: T -> Option<U>): (r: seq<U>)
    ensures |r| <= |s|
    ensures forall y :: y in r <==> exists i :: 0 <= i < |s| && f(s[i]) == Some(y)
  {
    if s == [] then []
    else
      var rest := FilterMap(s[1..], f);
      assert forall i :: 0 < i < |s| ==> s[i] == s[1..][i - 1];
      assert forall y :: (exists i :: 0 <= i < |s| - 1 && f(s[1..][i]) == Some(y)) ==>
                         (exists i :: 0 <= i < |s| && f(s[i]) == Some(y)) by {
        forall y | exists i :: 0 <= i < |s| - 1 && f(s[1..][i]) == Some(y)
          ensures exists i :: 0 <= i < |s| && f(s[i]) == Some(y)
        {
          var i :| 0 <= i < |s| - 1 && f(s[1..][i]) == Some(y);
          assert f(s[i + 1]) == Some(y);
        }
      }
      match f(s[0])
      case Some(y) => [y] + rest
      case None => rest
  }

  lemma {:induction false} FilterMapAppend<T, U(!new)>(a: seq<T>, b: seq<T>, f: T -> Option<U>)
    ensures FilterMap(a + b, f) == FilterMap(a, f) + FilterMap(b, f)
    decreases |a|
  {
    if a != [] {
      assert (a + b)[1..] == a[1..] + b;
      FilterMapAppend(a[1..], b, f);
    } else {
      assert a + b == b;
    }
  }

  /** One more element decoded: the list grows by its result, if any. */
  lemma FilterMapSnoc<T, U(!new)>(s: seq<T>, x: T, f: T -> Option<U>)
    ensures FilterMap(s + [x], f) == FilterMap(s, f) + (if f(x).Some? then [f(x).value] else [])
  {
    FilterMapAppend(s, [x], f);
    assert [x][1..] == [];
  }

  /**
   * The decoding loop the services share: each child is decoded in turn,
   * the failures skipped and the successes appended.
   */
  method CompactMap<T, U(==,!new)>(s: seq<T>, f: T -> Option<U>) returns (r: seq<U>)
    ensures r == FilterMap(s, f)
  {
    r := [];
    for i := 0 to |s|
      invariant r == FilterMap(s[..i], f)
    {
      ghost var done := s[..i];
      FilterMapSnoc(done, s[i], f);
      assert done + [s[i]] == s[..i + 1];
      var y := f(s[i]);
      if y.Some? {
        r := r + [y.value];
      }
    }
    assert s[..|s|] == s;
  }

  /** The lookup loop that returns on the first child that decodes. */
  method FirstDecoded<T, U(==)>(s: seq<T>, f: T -> Option<U>) returns (r: Option<U>)
    ensures r == FirstSome(s, f)
  {
    var i := 0;
    while i < |s|
      invariant 0 <= i <= |s|
      invariant forall j :: 0 <= j < i ==> f(s[j]).None?
    {
      var y := f(s[i]);
      if y.Some? {
        FirstSomeAt(s, f, i);
        return y;
      }
      i := i + 1;
    }
    return None;
  }

  /** A success after only failures is the first success. */
  lemma FirstSomeAt<T, U>(s: seq<T>, f: T -> Option<U>, i: nat)
    requires i < |s| && f(s[i]).Some? && forall j :: 0 <= j < i ==> f(s[j]).None?
    ensures FirstSome(s, f) == f(s[i])
  {
    var r := FirstSome(s, f);
    var k :| 0 <= k < |s| && f(s[k]) == r && forall j :: 0 <= j < k ==> f(s[j]).None?;
    assert k >= i;
  }

  /** The first successful result of `f` (a loop over the children that returns on the first match). */
  function FirstSome<T, U(==)>(s: seq<T>, f: T -> Option<U>): (r: Option<U>)
    ensures r.None? <==> forall i :: 0 <= i < |s| ==> f(s[i]).None?
    ensures r.Some? ==> exists i :: 0 <= i < |s| && f(s[i]) == r &&
                         forall j :: 0 <= j < i ==> f(s[j]).None?
  {
    if s == [] then None
    else if f(s[0]).Some? then f(s[0])
    else
      var r := FirstSome(s[1..], f);
      assert forall i :: 0 < i < |s| ==> s[i] == s[1..][i - 1];
      if r.Some? then
        var i :| 0 <= i < |s| - 1 && f(s[1..][i]) == r && forall j :: 0 <= j < i ==> f(s[1..][j]).None?;
        assert f(s[i + 1]) == r && forall j :: 0 <= j < i + 1 ==> f(s[j]).None?;
        r
      else
        r
  }

  /** The first success is the head of the list of all successes. */
  lemma {:induction false} FirstSomeIsHeadOfFilterMap<T, U(!new)>(s: seq<T>, f: T -> Option<U>)
    ensures FirstSome(s, f) == if FilterMap(s, f) == [] then None else Some(FilterMap(s, f)[0])
    decreases |s|
  {
    if s != [] && f(s[0]).None? {
      FirstSomeIsHeadOfFilterMap(s[1..], f);
    }
  }

  /** Swift's `prefix(n)`: the first `n` elements, or all of them when there are fewer. */
  function Take<T>(s: seq<T>, n: nat): (r: seq<T>)
    ensures |r| == if |s| < n then |s| else n
    ensures r == s[..|r|]
  {
    if |s| <= n then s else s[..n]
  }
}
