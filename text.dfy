/**
 * The string operations of Swift and Foundation that the app relies on,
 * on `string = seq<char>`.  Case folding, "alphanumeric" and "whitespace"
 * are restricted to ASCII; decimal rendering is Swift's `"\(n)"`.
 */
module Text {
  import opened Wrappers

  predicate IsDigit(c: char) { '0' <= c <= '9' }
  predicate IsUpper(c: char) { 'A' <= c <= 'Z' }
  predicate IsLower(c: char) { 'a' <= c <= 'z' }

  /** ASCII part of `CharacterSet.alphanumerics`. */
  predicate IsAlnum(c: char) { IsDigit(c) || IsUpper(c) || IsLower(c) }

  /** `CharacterSet.alphanumerics.inverted` */
  predicate NotAlnum(c: char) { !IsAlnum(c) }

  /** ASCII part of `CharacterSet.whitespacesAndNewlines`. */
  predicate IsWhitespace(c: char) {
    c == ' ' || c == '\t' || c == '\n' || c == '\r' || c == '\U{000B}' || c == '\U{000C}'
  }

  predicate AllDigits(s: string) { forall i :: 0 <= i < |s| ==> IsDigit(s[i]) }

  function ToUpper(c: char): (u: char)
    ensures IsLower(c) ==> IsUpper(u) && u as int == c as int - 32
    ensures !IsLower(c) ==> u == c
  {
    if IsLower(c) then (c as int - 32) as char else c
  }

  function ToLower(c: char): (l: char)
    ensures IsUpper(c) ==> IsLower(l) && l as int == c as int + 32
    ensures !IsUpper(c) ==> l == c
  {
    if IsUpper(c) then (c as int + 32) as char else c
  }

  /** `String.uppercased()` */
  function Uppercased(s: string): string {
    seq(|s|, i requires 0 <= i < |s| => ToUpper(s[i]))
  }

  /** `String.lowercased()` */
  function Lowercased(s: string): string {
    seq(|s|, i requires 0 <= i < |s| => ToLower(s[i]))
  }

  /** `a` occurs in `b` as a contiguous block. */
  predicate IsInfix(a: string, b: string) {
    exists i :: 0 <= i <= |b| && a <= b[i..]
  }

  /** `localizedCaseInsensitiveCompare(b) == .orderedSame` */
  predicate CaseInsensitiveEqual(a: string, b: string) {
    Lowercased(a) == Lowercased(b)
  }

  /**
   * `s.localizedCaseInsensitiveContains(q)`: Foundation answers false for
   * the empty needle.
   */
  predicate CaseInsensitiveContains(s: string, q: string) {
    q != [] && IsInfix(Lowercased(q), Lowercased(s))
  }

  lemma CaseInsensitiveContainsSelf(s: string)
    requires s != []
    ensures CaseInsensitiveContains(s, s)
  {
    assert Lowercased(s) <= Lowercased(s)[0..];
  }

  /** Drops the leading characters that satisfy `drop`. */
  function TrimStart(s: string, drop: char -> bool): (r: string)
    ensures |r| <= |s| && r == s[|s| - |r|..]
    ensures r == [] || !drop(r[0])
    ensures forall i :: 0 <= i < |s| - |r| ==> drop(s[i])
    decreases |s|
  {
    if s != [] && drop(s[0]) then
      var r := TrimStart(s[1..], drop);
      assert forall i :: 1 <= i < |s| ==> s[i] == s[1..][i - 1];
      r
    else s
  }

  /** Drops the trailing characters that satisfy `drop`. */
  function TrimEnd(s: string, drop: char -> bool): (r: string)
    ensures |r| <= |s| && r == s[..|r|]
    ensures r == [] || !drop(r[|r| - 1])
    ensures forall i :: |r| <= i < |s| ==> drop(s[i])
    decreases |s|
  {
    if s != [] && drop(s[|s| - 1]) then TrimEnd(s[..|s| - 1], drop) else s
  }

  /**
   * `trimmingCharacters(in:)`: the block of `s` left once the characters
   * satisfying `drop` are removed from both ends.
   */
  function Trim(s: string, drop: char -> bool): (r: string)
    ensures r == [] <==> forall i :: 0 <= i < |s| ==> drop(s[i])
    ensures r != [] ==> !drop(r[0]) && !drop(r[|r| - 1])
  {
    TrimEnds(s, drop);
    TrimEnd(TrimStart(s, drop), drop)
  }

  lemma TrimEnds(s: string, drop: char -> bool)
    ensures var r := TrimEnd(TrimStart(s, drop), drop);
            (r == [] <==> forall i :: 0 <= i < |s| ==> drop(s[i])) &&
            (r != [] ==> !drop(r[0]) && !drop(r[|r| - 1]))
  {
    var t := TrimStart(s, drop);
    var r := TrimEnd(t, drop);
    TrimEmptyIfAllDropped(s, drop, t, r);
    TrimAllDroppedIfEmpty(s, drop, t, r);
    TrimFirstKept(t, drop, r);
  }

  /**
   * The trimmed text is a block of `s` starting where the dropped prefix
   * ends, with only dropped characters around it.
   */
  lemma TrimIsBlock(s: string, drop: char -> bool)
    ensures var r := Trim(s, drop);
            var lo := |s| - |TrimStart(s, drop)|;
            0 <= lo <= |s| - |r| && r <= s[lo..] &&
            (forall i :: 0 <= i < lo ==> drop(s[i])) &&
            (forall i :: lo + |r| <= i < |s| ==> drop(s[i]))
  {
    var t := TrimStart(s, drop);
    var r := TrimEnd(t, drop);
    TrimBlock(s, drop, t, r);
    TrimHeadDropped(s, drop, t);
    TrimTailDropped(s, drop, t, r);
  }

  lemma TrimFirstKept(t: string, drop: char -> bool, r: string)
    requires t == [] || !drop(t[0])
    requires r == TrimEnd(t, drop)
    ensures r != [] ==> !drop(r[0]) && !drop(r[|r| - 1])
  {
    if r != [] {
      assert r[0] == t[0];
    }
  }

  lemma TrimBlock(s: string, drop: char -> bool, t: string, r: string)
    requires t == TrimStart(s, drop) && r == TrimEnd(t, drop)
    ensures 0 <= |s| - |t| <= |s| - |r| && r <= s[|s| - |t|..]
  {
  }

  lemma TrimHeadDropped(s: string, drop: char -> bool, t: string)
    requires t == TrimStart(s, drop)
    ensures forall i :: 0 <= i < |s| - |t| ==> drop(s[i])
  {
  }

  lemma TrimTailDropped(s: string, drop: char -> bool, t: string, r: string)
    requires t == TrimStart(s, drop) && r == TrimEnd(t, drop)
    ensures forall i :: |s| - |t| + |r| <= i < |s| ==> drop(s[i])
  {
    var lo := |s| - |t|;
    assert t == s[lo..];
    forall i | lo + |r| <= i < |s| ensures drop(s[i]) {
      assert s[i] == t[i - lo];
    }
  }

  lemma TrimAllDroppedIfEmpty(s: string, drop: char -> bool, t: string, r: string)
    requires t == TrimStart(s, drop) && r == TrimEnd(t, drop)
    ensures r == [] ==> forall i :: 0 <= i < |s| ==> drop(s[i])
  {
    assert t == s[|s| - |t|..];
  }

  lemma TrimEmptyIfAllDropped(s: string, drop: char -> bool, t: string, r: string)
    requires t == TrimStart(s, drop) && r == TrimEnd(t, drop)
    ensures (forall i :: 0 <= i < |s| ==> drop(s[i])) ==> r == []
  {
  }

  /** `trimmingCharacters(in: .whitespacesAndNewlines)` */
  function TrimWhitespace(s: string): (r: string)
    ensures r == [] <==> forall i :: 0 <= i < |s| ==> IsWhitespace(s[i])
  {
    Trim(s, IsWhitespace)
  }

  /**
   * `components(separatedBy: [sep])`: the pieces between occurrences of
   * `sep`, empty pieces included, so there is always at least one.
   */
  function Split(s: string, sep: char): (parts: seq<string>)
    ensures |parts| >= 1
    ensures forall i :: 0 <= i < |parts| ==> sep !in parts[i]
    decreases |s|
  {
    if s == [] then [[]]
    else
      var rest := Split(s[1..], sep);
      if s[0] == sep then [[]] + rest
      else [[s[0]] + rest[0]] + rest[1..]
  }

  /** `joined(separator:)` */
  function Join(parts: seq<string>, sep: string): string
    decreases |parts|
  {
    if parts == [] then []
    else if |parts| == 1 then parts[0]
    else parts[0] + sep + Join(parts[1..], sep)
  }

  lemma JoinConsHead(a: string, p: string, ps: seq<string>, sep: string)
    ensures Join([a + p] + ps, sep) == a + Join([p] + ps, sep)
  {
    if ps != [] {
      assert ([a + p] + ps)[1..] == ps;
      assert ([p] + ps)[1..] == ps;
    }
  }

  /** Joining the pieces with the separator gives the string back. */
  lemma {:induction false} JoinSplit(s: string, sep: char)
    ensures Join(Split(s, sep), [sep]) == s
    decreases |s|
  {
    if s != [] {
      var rest := Split(s[1..], sep);
      JoinSplit(s[1..], sep);
      if s[0] == sep {
        assert ([[]] + rest)[1..] == rest;
        assert s == [sep] + s[1..];
      } else {
        assert rest == [rest[0]] + rest[1..];
        JoinConsHead([s[0]], rest[0], rest[1..], [sep]);
        assert s == [s[0]] + s[1..];
      }
    }
  }

  lemma {:induction false} SplitNoSep(p: string, sep: char)
    requires sep !in p
    ensures Split(p, sep) == [p]
    decreases |p|
  {
    if p != [] {
      SplitNoSep(p[1..], sep);
      assert [p[0]] + p[1..] == p;
    }
  }

  lemma {:induction false} SplitSepAfter(p: string, t: string, sep: char)
    requires sep !in p
    ensures Split(p + [sep] + t, sep) == [p] + Split(t, sep)
    decreases |p|
  {
    if p == [] {
      assert (p + [sep] + t)[1..] == t;
    } else {
      assert (p + [sep] + t)[1..] == p[1..] + [sep] + t;
      SplitSepAfter(p[1..], t, sep);
      assert [p[0]] + p[1..] == p;
    }
  }

  /** Splitting a join of separator-free pieces gives the pieces back. */
  lemma {:induction false} SplitJoin(parts: seq<string>, sep: char)
    requires |parts| >= 1
    requires forall i :: 0 <= i < |parts| ==> sep !in parts[i]
    ensures Split(Join(parts, [sep]), sep) == parts
    decreases |parts|
  {
    if |parts| == 1 {
      SplitNoSep(parts[0], sep);
    } else {
      SplitJoin(parts[1..], sep);
      assert parts[0] + [sep] + Join(parts[1..], [sep]) == Join(parts, [sep]);
      SplitSepAfter(parts[0], Join(parts[1..], [sep]), sep);
      assert [parts[0]] + parts[1..] == parts;
    }
  }

  function DigitChar(d: nat): (c: char)
    requires d < 10
    ensures IsDigit(c)
  {
    ('0' as int + d) as char
  }

  function DigitValue(c: char): (d: nat)
    requires IsDigit(c)
    ensures d < 10 && DigitChar(d) == c
  {
    c as int - '0' as int
  }

  /** Swift's `"\(n)"` for a non-negative `Int`: decimal, no leading zero. */
  function NatToString(n: nat): (s: string)
    ensures s != [] && AllDigits(s)
    ensures s[0] == '0' ==> n == 0
    decreases n
  {
    if n < 10 then [DigitChar(n)] else NatToString(n / 10) + [DigitChar(n % 10)]
  }

  /** The number a string of decimal digits denotes. */
  function DigitsValue(s: string): nat
    requires AllDigits(s)
    decreases |s|
  {
    if s == [] then 0 else DigitsValue(s[..|s| - 1]) * 10 + DigitValue(s[|s| - 1])
  }

  lemma {:induction false} DigitsValueOfNatToString(n: nat)
    ensures DigitsValue(NatToString(n)) == n
    decreases n
  {
    if n >= 10 {
      var s := NatToString(n);
      assert s[..|s| - 1] == NatToString(n / 10);
      DigitsValueOfNatToString(n / 10);
    }
  }

  /** Swift's `"\(i)"` for an `Int`. */
  function IntToString(i: int): (s: string)
    ensures s != []
    ensures forall k :: 1 <= k < |s| ==> IsDigit(s[k])
    ensures s[0] == '-' <==> i < 0
  {
    if i < 0 then "-" + NatToString(-i) else NatToString(i)
  }

  /** Reads back an optional minus sign followed by decimal digits. */
  function ParseInt(s: string): Option<int> {
    if |s| >= 2 && s[0] == '-' && AllDigits(s[1..]) then
      var v: int := DigitsValue(s[1..]); Some(-v)
    else if s != [] && AllDigits(s) then Some(DigitsValue(s))
    else None
  }

  /** Decimal rendering has an inverse. */
  lemma ParseIntToString(i: int)
    ensures ParseInt(IntToString(i)) == Some(i)
  {
    if i < 0 {
      assert IntToString(i)[1..] == NatToString(-i);
      DigitsValueOfNatToString(-i);
    } else {
      DigitsValueOfNatToString(i);
    }
  }

  /** Index of the first `c` at or after `from`. */
  function IndexOf(s: string, c: char, from: nat): (r: Option<nat>)
    requires from <= |s|
    ensures r.Some? ==> from <= r.value < |s| && s[r.value] == c &&
                        forall j :: from <= j < r.value ==> s[j] != c
    ensures r.None? ==> forall j :: from <= j < |s| ==> s[j] != c
    decreases |s| - from
  {
    if from == |s| then None
    else if s[from] == c then Some(from)
    else IndexOf(s, c, from + 1)
  }

  /** Index of the last `c`. */
  function LastIndexOf(s: string, c: char): (r: Option<nat>)
    ensures r.Some? ==> r.value < |s| && s[r.value] == c &&
                        forall j :: r.value < j < |s| ==> s[j] != c
    ensures r.None? ==> c !in s
    decreases |s|
  {
    if s == [] then None
    else if s[|s| - 1] == c then Some(|s| - 1)
    else
      var r := LastIndexOf(s[..|s| - 1], c);
      assert forall j :: 0 <= j < |s| - 1 ==> s[j] == s[..|s| - 1][j];
      r
  }
}
