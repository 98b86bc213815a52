/**
 * Swift's `sorted(by:)` for the orderings the app uses.  Every comparator
 * in the sources compares a key lexicographically (a string's character
 * codes, a timestamp, an "exact match" flag followed by the string), so an
 * ordering is given here by a key function into `seq<int>`, and sorting
 * is a stable insertion sort on that key.
 */
module Ordering {

  /** Lexicographic `<=` on integer sequences. */
  predicate LexLe(a: seq<int>, b: seq<int>)
    decreases |a|
  {
    a == [] || (b != [] && (a[0] < b[0] || (a[0] == b[0] && LexLe(a[1..], b[1..]))))
  }

  lemma {:induction false} LexLeRefl(a: seq<int>)
    ensures LexLe(a, a)
    decreases |a|
  {
    if a != [] { LexLeRefl(a[1..]); }
  }

  lemma {:induction false} LexLeTotal(a: seq<int>, b: seq<int>)
    ensures LexLe(a, b) || LexLe(b, a)
    decreases |a|
  {
    if a != [] && b != [] && a[0] == b[0] { LexLeTotal(a[1..], b[1..]); }
  }

  lemma {:induction false} LexLeTrans(a: seq<int>, b: seq<int>, c: seq<int>)
    requires LexLe(a, b) && LexLe(b, c)
    ensures LexLe(a, c)
    decreases |a|
  {
    if a != [] && a[0] == b[0] && b[0] == c[0] { LexLeTrans(a[1..], b[1..], c[1..]); }
  }

  lemma {:induction false} LexLeAntisym(a: seq<int>, b: seq<int>)
    requires LexLe(a, b) && LexLe(b, a)
    ensures a == b
    decreases |a|
  {
    if a != [] {
      LexLeAntisym(a[1..], b[1..]);
      assert a == [a[0]] + a[1..] && b == [b[0]] + b[1..];
    }
  }

  /** The character codes of a string; Swift's `<` on ASCII strings is `LexLe` on them. */
  function Codes(s: string): (c: seq<int>)
    ensures |c| == |s|
  {
    seq(|s|, i requires 0 <= i < |s| => s[i] as int)
  }

  lemma CodesInjective(a: string, b: string)
    requires Codes(a) == Codes(b)
    ensures a == b
  {
    assert |a| == |Codes(a)|;
    forall i | 0 <= i < |a| ensures a[i] == b[i] {
      assert Codes(a)[i] == Codes(b)[i];
    }
  }

  /** Every earlier element's key is at most every later element's key. */
  ghost predicate SortedBy<T>(s: seq<T>, key: T -> seq<int>) {
    forall i, j :: 0 <= i < j < |s| ==> LexLe(key(s[i]), key(s[j]))
  }

  /** Inserts `x` before the first element whose key is not below it. */
  function InsertByKey<T(!new)>(x: T, s: seq<T>, key: T -> seq<int>): (r: seq<T>)
    requires SortedBy(s, key)
    ensures SortedBy(r, key)
    ensures multiset(r) == multiset(s) + multiset{x}
    decreases |s|
  {
    if s == [] then [x]
    else if LexLe(key(x), key(s[0])) then
      assert forall j :: 0 <= j < |s| ==> LexLe(key(x), key(s[j])) by {
        forall j | 0 <= j < |s| ensures LexLe(key(x), key(s[j])) {
          if j > 0 { LexLeTrans(key(x), key(s[0]), key(s[j])); }
        }
      }
      [x] + s
    else
      var rest := InsertByKey(x, s[1..], key);
      LexLeTotal(key(x), key(s[0]));
      assert s == [s[0]] + s[1..];
      InsertLowerBound(s[0], x, s[1..], rest, key);
      [s[0]] + rest
  }

  lemma InsertLowerBound<T>(lo: T, x: T, s: seq<T>, r: seq<T>, key: T -> seq<int>)
    requires SortedBy(r, key)
    requires LexLe(key(lo), key(x))
    requires forall j :: 0 <= j < |s| ==> LexLe(key(lo), key(s[j]))
    requires multiset(r) == multiset(s) + multiset{x}
    ensures SortedBy([lo] + r, key)
  {
    var t := [lo] + r;
    forall j | 1 <= j < |t| ensures LexLe(key(lo), key(t[j])) {
      assert t[j] in multiset(r);
      if t[j] != x {
        assert t[j] in multiset(s);
        var k :| 0 <= k < |s| && s[k] == t[j];
      }
    }
  }

  /** `sorted(by:)` as a stable insertion sort on `key`. */
  function SortByKey<T(!new)>(s: seq<T>, key: T -> seq<int>): (r: seq<T>)
    ensures SortedBy(r, key)
    ensures multiset(r) == multiset(s)
    decreases |s|
  {
    if s == [] then []
    else
      assert s == [s[0]] + s[1..];
      InsertByKey(s[0], SortByKey(s[1..], key), key)
  }

  /**
   * With an injective key there is only one sorted arrangement of a
   * multiset, so the sorted result does not depend on the input order.
   */
  lemma {:induction false} SortedUnique<T>(a: seq<T>, b: seq<T>, key: T -> seq<int>)
    requires forall x, y :: key(x) == key(y) ==> x == y
    requires SortedBy(a, key) && SortedBy(b, key)
    requires multiset(a) == multiset(b)
    ensures a == b
    decreases |a|
  {
    assert |a| == |multiset(a)| == |b|;
    if a != [] {
      SortedHeadsEqual(a, b, key);
      TailsSameMultiset(a, b);
      SortedUnique(a[1..], b[1..], key);
      assert a == [a[0]] + a[1..] && b == [b[0]] + b[1..];
    }
  }

  lemma SortedHeadsEqual<T>(a: seq<T>, b: seq<T>, key: T -> seq<int>)
    requires forall x, y :: key(x) == key(y) ==> x == y
    requires SortedBy(a, key) && SortedBy(b, key)
    requires multiset(a) == multiset(b) && a != [] && b != []
    ensures a[0] == b[0]
  {
    assert a[0] in multiset(b) && b[0] in multiset(a);
    var i :| 0 <= i < |b| && b[i] == a[0];
    var j :| 0 <= j < |a| && a[j] == b[0];
    if i > 0 { assert LexLe(key(b[0]), key(a[0])); } else { LexLeRefl(key(a[0])); }
    if j > 0 { assert LexLe(key(a[0]), key(b[0])); } else { LexLeRefl(key(a[0])); }
    LexLeAntisym(key(a[0]), key(b[0]));
  }

  lemma TailsSameMultiset<T>(a: seq<T>, b: seq<T>)
    requires a != [] && b != [] && a[0] == b[0] && multiset(a) == multiset(b)
    ensures multiset(a[1..]) == multiset(b[1..])
  {
    assert a == [a[0]] + a[1..] && b == [b[0]] + b[1..];
    assert multiset(a[1..]) == multiset(a) - multiset{a[0]};
    assert multiset(b[1..]) == multiset(b) - multiset{b[0]};
  }

  /** Sorting two arrangements of the same multiset with an injective key gives one result. */
  lemma SortByKeyCanonical<T(!new)>(a: seq<T>, b: seq<T>, key: T -> seq<int>)
    requires forall x, y :: key(x) == key(y) ==> x == y
    requires multiset(a) == multiset(b)
    ensures SortByKey(a, key) == SortByKey(b, key)
  {
    SortedUnique(SortByKey(a, key), SortByKey(b, key), key);
  }
}
