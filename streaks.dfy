/**
 * The streak calendar: chunking the days into week rows, the sample data
 * of the view model, and the integer part of `Color(hex:)`.
 */
module Streaks {
  import opened Wrappers
  import opened Text

  /** `chunked(into:)`: how many pieces `stride(from: 0, to: count, by: size)` visits. */
  function ChunkCount(count: nat, size: int): nat
    requires size != 0
  {
    if size < 0 then 0 else (count + size - 1) / size
  }

  function Min(a: int, b: int): int { if a < b then a else b }

  /**
   * `chunked(into:)`: consecutive slices of `size` elements, the last one
   * possibly shorter.  A zero step traps in Swift, hence the precondition;
   * a negative step visits nothing.
   */
  function Chunked<T>(s: seq<T>, size: int): (r: seq<seq<T>>)
    requires size != 0
    ensures |r| == ChunkCount(|s|, size)
  {
    if size < 0 then []
    else
      var n := ChunkCount(|s|, size);
      ChunkCountBounds(|s|, size);
      seq(n, i requires 0 <= i < n => ChunkAt(s, size, i))
  }

  function ChunkAt<T>(s: seq<T>, size: nat, i: nat): seq<T>
    requires size > 0 && i < ChunkCount(|s|, size)
  {
    ChunkCountBounds(|s|, size);
    ChunkStartInRange(|s|, size, i);
    s[i * size .. Min(i * size + size, |s|)]
  }

  /** The chunk count is the ceiling of count / size. */
  lemma ChunkCountBounds(count: nat, size: int)
    requires size > 0
    ensures ChunkCount(count, size) * size >= count
    ensures count > 0 ==> (ChunkCount(count, size) - 1) * size < count
    ensures count == 0 ==> ChunkCount(count, size) == 0
  {
    var n := ChunkCount(count, size);
    var rem := (count + size - 1) % size;
    assert count + size - 1 == n * size + rem;
  }

  lemma ChunkStartInRange(count: nat, size: nat, i: nat)
    requires size > 0 && i < ChunkCount(count, size)
    ensures i * size < count
  {
    ChunkCountBounds(count, size);
    assert i * size <= (ChunkCount(count, size) - 1) * size;
  }

  /** Every chunk is non-empty and has at most `size` elements; all but the last have exactly `size`. */
  lemma ChunkedShape<T>(s: seq<T>, size: int)
    requires size > 0
    ensures forall i :: 0 <= i < |Chunked(s, size)| ==> 1 <= |Chunked(s, size)[i]| <= size
    ensures forall i :: 0 <= i < |Chunked(s, size)| - 1 ==> |Chunked(s, size)[i]| == size
  {
    var r := Chunked(s, size);
    forall i | 0 <= i < |r| ensures 1 <= |r[i]| <= size && (i < |r| - 1 ==> |r[i]| == size) {
      ChunkStartInRange(|s|, size, i);
      if i < |r| - 1 {
        ChunkStartInRange(|s|, size, i + 1);
        assert (i + 1) * size == i * size + size;
      }
    }
  }

  /** Swift's `joined()` on an array of arrays. */
  function Flatten<T>(ss: seq<seq<T>>): seq<T>
    decreases |ss|
  {
    if ss == [] then [] else ss[0] + Flatten(ss[1..])
  }

  /** Removing the first chunk leaves the chunks of the rest. */
  lemma ChunkedTail<T>(s: seq<T>, size: int)
    requires size > 0 && |s| > 0
    ensures Chunked(s, size) == [s[..Min(size, |s|)]] + Chunked(s[Min(size, |s|)..], size)
  {
    if |s| <= size {
      ChunkedOne(s, size);
    } else {
      ChunkedMany(s, size);
    }
  }

  lemma ChunkedOne<T>(s: seq<T>, size: int)
    requires 0 < |s| <= size
    ensures Chunked(s, size) == [s] && Chunked(s[|s|..], size) == []
  {
    ChunkCountOne(|s|, size);
    ChunkCountBounds(0, size);
    assert Chunked(s, size)[0] == ChunkAt(s, size, 0) == s;
  }

  lemma ChunkedMany<T>(s: seq<T>, size: int)
    requires 0 < size < |s|
    ensures Chunked(s, size) == [s[..size]] + Chunked(s[size..], size)
  {
    var r := Chunked(s, size);
    var rt := Chunked(s[size..], size);
    var e := [s[..size]] + rt;
    ChunkCountStep(|s|, size);
    forall j | 0 <= j < |r| ensures r[j] == e[j] {
      ChunkedIndex(s, size, j);
      if j > 0 {
        ChunkedIndex(s[size..], size, j - 1);
        ChunkChunkShift(s, size, j - 1);
      }
    }
  }

  lemma ChunkedIndex<T>(s: seq<T>, size: int, i: nat)
    requires size > 0 && i < ChunkCount(|s|, size)
    ensures Chunked(s, size)[i] == ChunkAt(s, size, i)
  {
  }

  lemma ChunkChunkShift<T>(s: seq<T>, size: int, i: nat)
    requires size > 0 && |s| > size && i < ChunkCount(|s| - size, size)
    ensures i + 1 < ChunkCount(|s|, size)
    ensures ChunkAt(s, size, i + 1) == ChunkAt(s[size..], size, i)
  {
    ChunkCountStep(|s|, size);
    ChunkStartInRange(|s| - size, size, i);
    var lo := i * size;
    MulSucc(i, size);
    SliceAfterPrefix(s, size, lo, Min(lo + size, |s| - size));
  }

  lemma MulSucc(i: nat, size: nat)
    ensures (i + 1) * size == i * size + size
  {
  }

  /** A slice of `s[k..]` is the slice of `s` shifted by `k`. */
  lemma SliceAfterPrefix<T>(s: seq<T>, k: nat, lo: nat, hi: nat)
    requires k <= |s| && lo <= hi <= |s| - k
    ensures s[k..][lo..hi] == s[lo + k..hi + k]
  {
  }

  lemma ChunkCountStep(count: nat, size: int)
    requires size > 0 && count > size
    ensures ChunkCount(count, size) == ChunkCount(count - size, size) + 1
  {
    var q0 := (count - 1) / size;
    var r0 := (count - 1) % size;
    assert count - 1 == q0 * size + r0;
    assert (q0 + 1) * size == q0 * size + size;
    DivModUnique(count + size - 1, q0 + 1, size, r0);
  }

  lemma ChunkCountOne(count: nat, size: int)
    requires 0 < count <= size
    ensures ChunkCount(count, size) == 1
  {
    DivModUnique(count + size - 1, 1, size, count - 1);
  }

  lemma MulAtLeast(d: int, m: int)
    requires d >= 1 && m > 0
    ensures d * m >= m
  {
  }

  /** Division is determined by quotient and remainder. */
  lemma DivModUnique(v: int, q: int, m: int, r: int)
    requires m > 0 && 0 <= r < m && v == q * m + r
    ensures v / m == q && v % m == r
  {
    var q0 := v / m;
    var r0 := v % m;
    assert v == q0 * m + r0 && 0 <= r0 < m;
    assert (q - q0) * m == r0 - r;
    if q - q0 >= 1 {
      MulAtLeast(q - q0, m);
    } else if q0 - q >= 1 {
      MulAtLeast(q0 - q, m);
    }
  }

  /** Joining the chunks gives the original array back. */
  lemma {:induction false} ChunkedFlatten<T>(s: seq<T>, size: int)
    requires size > 0
    ensures Flatten(Chunked(s, size)) == s
    decreases |s|
  {
    if |s| == 0 {
      ChunkCountBounds(0, size);
    } else {
      var k := Min(size, |s|);
      ChunkedTail(s, size);
      ChunkedFlatten(s[k..], size);
      assert ([s[..k]] + Chunked(s[k..], size))[1..] == Chunked(s[k..], size);
      assert s[..k] + s[k..] == s;
    }
  }

  /** `StreakDay`: `date` is kept as the number of days before today. */
  datatype StreakDay = StreakDay(daysAgo: int, hasPosted: Option<bool>)

  /** Day `i` of the sample data: no data for the first five days, then posted on days 5, 6 and 13. */
  function SampleDay(i: nat): StreakDay {
    StreakDay(i, if i < 5 then None else Some(i < 7 || i == 13))
  }

  /** `generateSampleData()` */
  method GenerateSampleData() returns (days: seq<StreakDay>)
    ensures |days| == 14
    ensures forall i :: 0 <= i < 14 ==> days[i] == SampleDay(i)
    ensures forall i :: 0 <= i < 14 ==> days[i].daysAgo == i && (days[i].hasPosted.None? <==> i < 5)
    ensures forall i :: 5 <= i < 14 ==> (days[i].hasPosted == Some(true) <==> i == 5 || i == 6 || i == 13)
  {
    days := [];
    for i := 0 to 14
      invariant |days| == i
      invariant forall j :: 0 <= j < i ==> days[j] == SampleDay(j)
    {
      var hasPosted: Option<bool>;
      if i < 5 {
        hasPosted := None;
      } else {
        hasPosted := Some(i < 7 || i == 13);
      }
      days := days + [StreakDay(i, hasPosted)];
    }
  }

  /** `StreaksViewModel`'s published state. */
  class StreaksViewModel {
    var streakDays: seq<StreakDay>
    var currentStreak: int

    constructor()
      ensures streakDays == [] && currentStreak == 0
    {
      streakDays := [];
      currentStreak := 0;
    }

    /** `weekRows`: the days in rows of seven. */
    function WeekRows(): (rows: seq<seq<StreakDay>>)
      reads this
      ensures Flatten(rows) == streakDays
      ensures forall i :: 0 <= i < |rows| ==> 1 <= |rows[i]| <= 7
      ensures forall i :: 0 <= i < |rows| - 1 ==> |rows[i]| == 7
      ensures |rows| * 7 >= |streakDays| && (|rows| > 0 ==> (|rows| - 1) * 7 < |streakDays|)
    {
      ChunkedFlatten(streakDays, 7);
      ChunkedShape(streakDays, 7);
      ChunkCountBounds(|streakDays|, 7);
      Chunked(streakDays, 7)
    }

    /** The completion of `loadStreakDataFromFirebase`: both published values are replaced. */
    method Loaded(days: seq<StreakDay>, streak: int)
      modifies this
      ensures streakDays == days && currentStreak == streak
    {
      streakDays := days;
      currentStreak := streak;
    }
  }

  /** The channels of a colour, as the integers `Color(hex:)` divides by 255. */
  datatype Argb = Argb(a: int, r: int, g: int, b: int)

  predicate IsHexDigit(c: char) {
    IsDigit(c) || 'a' <= c <= 'f' || 'A' <= c <= 'F'
  }

  predicate AllHex(s: string) { forall i :: 0 <= i < |s| ==> IsHexDigit(s[i]) }

  function HexDigitValue(c: char): (d: nat)
    requires IsHexDigit(c)
    ensures d < 16
  {
    if IsDigit(c) then c as int - '0' as int
    else if 'a' <= c <= 'f' then c as int - 'a' as int + 10
    else c as int - 'A' as int + 10
  }

  function Pow16(n: nat): (p: nat)
    ensures p >= 1
  {
    if n == 0 then 1 else 16 * Pow16(n - 1)
  }

  /** The number a string of hex digits denotes. */
  function HexValue(s: string): nat
    requires AllHex(s)
    decreases |s|
  {
    if s == [] then 0 else HexValue(s[..|s| - 1]) * 16 + HexDigitValue(s[|s| - 1])
  }

  /** The longest prefix made of hex digits, where `scanHexInt64` stops. */
  function HexRun(s: string): (r: string)
    ensures AllHex(r) && r <= s
    ensures r == s || !IsHexDigit(s[|r|])
    decreases |s|
  {
    if s != [] && IsHexDigit(s[0]) then [s[0]] + HexRun(s[1..]) else []
  }

  predicate IsByte(n: int) { 0 <= n <= 255 }

  /** `scanHexInt64`: the value of the leading hex digits, 0 when there are none. */
  function ScanHex(s: string): (v: nat)
    ensures v < Pow16(|s|)
    ensures AllHex(s) ==> v == HexValue(s)
    ensures s == [] || !IsHexDigit(s[0]) ==> v == 0
  {
    var run := HexRun(s);
    HexValueBound(run);
    Pow16Mono(|run|, |s|);
    WholeRunIfAllHex(s);
    HexValue(run)
  }

  lemma WholeRunIfAllHex(s: string)
    ensures AllHex(s) ==> HexRun(s) == s
  {
    if AllHex(s) { HexRunOfHex(s); }
  }

  /** `Color(hex:)`: the channel integers, chosen by the digit count after trimming. */
  function ColorComponents(hex: string): (c: Argb)
    ensures IsByte(c.a) && IsByte(c.r) && IsByte(c.g) && IsByte(c.b)
  {
    var h := Trim(hex, NotAlnum);
    Channels(|h|, ScanHex(h))
  }

  /**
   * The `switch hex.count` of `Color(hex:)`, on the scanned value `v`:
   * any value the digits can spell gives byte channels, and a count other
   * than 3, 6 or 8 gives (1, 1, 1, 0).
   */
  function Channels(count: nat, v: nat): (c: Argb)
    ensures v < Pow16(count) ==> IsByte(c.a) && IsByte(c.r) && IsByte(c.g) && IsByte(c.b)
    ensures count != 3 && count != 6 && count != 8 ==> c == Argb(1, 1, 1, 0)
  {
    Pow16Values();
    if count == 3 then Argb(255, (v / 256) * 17, (v / 16 % 16) * 17, (v % 16) * 17)
    else if count == 6 then Argb(255, v / 65536, v / 256 % 256, v % 256)
    else if count == 8 then Argb(v / 16777216, v / 65536 % 256, v / 256 % 256, v % 256)
    else Argb(1, 1, 1, 0)
  }

  lemma HexValueSnoc(s: string)
    requires AllHex(s) && s != []
    ensures AllHex(s[..|s| - 1]) && HexValue(s) == HexValue(s[..|s| - 1]) * 16 + HexDigitValue(s[|s| - 1])
  {
  }

  lemma Regroup(x: int, p: int, y: int, d: int)
    ensures (x * p + y) * 16 + d == x * (16 * p) + (y * 16 + d)
  {
  }

  lemma {:induction false} HexValueAppend(a: string, b: string)
    requires AllHex(a) && AllHex(b)
    ensures AllHex(a + b) && HexValue(a + b) == HexValue(a) * Pow16(|b|) + HexValue(b)
    decreases |b|
  {
    assert AllHex(a + b) by {
      assert forall i :: 0 <= i < |a + b| ==> (a + b)[i] == if i < |a| then a[i] else b[i - |a|];
    }
    if b == [] {
      assert a + b == a;
    } else {
      var b' := b[..|b| - 1];
      var d := HexDigitValue(b[|b| - 1]);
      assert (a + b)[..|a + b| - 1] == a + b';
      assert (a + b)[|a + b| - 1] == b[|b| - 1];
      HexValueSnoc(a + b);
      HexValueSnoc(b);
      HexValueAppend(a, b');
      Regroup(HexValue(a), Pow16(|b'|), HexValue(b'), d);
    }
  }

  lemma {:induction false} HexValueBound(s: string)
    requires AllHex(s)
    ensures HexValue(s) < Pow16(|s|)
    decreases |s|
  {
    if s != [] {
      HexValueSnoc(s);
      HexValueBound(s[..|s| - 1]);
    }
  }

  lemma {:induction false} HexRunOfHex(s: string)
    requires AllHex(s)
    ensures HexRun(s) == s
    decreases |s|
  {
    if s != [] {
      HexRunOfHex(s[1..]);
    }
  }

  lemma HexValueOfTwo(s: string)
    requires |s| == 2 && AllHex(s)
    ensures HexValue(s) == HexDigitValue(s[0]) * 16 + HexDigitValue(s[1])
  {
    HexValueSnoc(s);
    assert s[..1][..0] == [];
    HexValueSnoc(s[..1]);
  }

  /** Three digits: each channel is one digit repeated (`* 17`), opaque alpha. */
  lemma ColorThreeDigits(hex: string)
    requires var h := Trim(hex, NotAlnum); |h| == 3 && AllHex(h)
    ensures var h := Trim(hex, NotAlnum);
            ColorComponents(hex) == Argb(255, HexDigitValue(h[0]) * 17, HexDigitValue(h[1]) * 17, HexDigitValue(h[2]) * 17)
  {
    var h := Trim(hex, NotAlnum);
    HexRunOfHex(h);
    var d0, d1, d2 := HexDigitValue(h[0]), HexDigitValue(h[1]), HexDigitValue(h[2]);
    HexValueSnoc(h);
    HexValueOfTwo(h[..2]);
    var v := ScanHex(h);
    assert v == d0 * 256 + d1 * 16 + d2;
    SplitThree(v, d0, d1, d2);
  }

  lemma SplitThree(v: int, d0: int, d1: int, d2: int)
    requires 0 <= d0 < 16 && 0 <= d1 < 16 && 0 <= d2 < 16 && v == d0 * 256 + d1 * 16 + d2
    ensures Channels(3, v) == Argb(255, d0 * 17, d1 * 17, d2 * 17)
  {
    assert v / 256 == d0 && v / 16 % 16 == d1 && v % 16 == d2;
  }

  lemma Pow16Values()
    ensures Pow16(2) == 256 && Pow16(3) == 4096 && Pow16(4) == 65536
    ensures Pow16(6) == 16777216 && Pow16(8) == 4294967296
  {
    assert Pow16(1) == 16;
    assert Pow16(5) == 1048576;
    assert Pow16(7) == 268435456;
  }

  lemma Pow16Two()
    ensures Pow16(2) == 256
  {
    assert Pow16(1) == 16;
  }

  lemma HexByteBound(s: string)
    requires |s| == 2 && AllHex(s)
    ensures HexValue(s) < 256
  {
    HexValueOfTwo(s);
  }

  /** A six-digit value is its three bytes, most significant first. */
  lemma HexValueSix(h: string)
    requires |h| == 6 && AllHex(h)
    ensures AllHex(h[0..2]) && AllHex(h[2..4]) && AllHex(h[4..6])
    ensures HexValue(h) == HexValue(h[0..2]) * 65536 + HexValue(h[2..4]) * 256 + HexValue(h[4..6])
  {
    var a, b, c := h[0..2], h[2..4], h[4..6];
    assert AllHex(a) && AllHex(b) && AllHex(c);
    assert a + b + c == h by {
      assert a + b == h[..4];
    }
    HexValueThree(a, b, c);
  }

  lemma HexValueThree(a: string, b: string, c: string)
    requires AllHex(a) && AllHex(b) && AllHex(c) && |b| == 2 && |c| == 2
    ensures AllHex(a + b) && AllHex(a + b + c)
    ensures HexValue(a + b + c) == HexValue(a) * 65536 + HexValue(b) * 256 + HexValue(c)
  {
    HexValueAppend(a, b);
    HexValueAppend(a + b, c);
    Pow16Two();
    var x, y, z := HexValue(a), HexValue(b), HexValue(c);
    assert HexValue(a + b) == x * 256 + y;
    assert HexValue(a + b + c) == (x * 256 + y) * 256 + z;
  }

  /** Six digits: opaque alpha, then one byte per pair of digits. */
  lemma ColorSixDigits(hex: string)
    requires var h := Trim(hex, NotAlnum); |h| == 6 && AllHex(h)
    ensures var h := Trim(hex, NotAlnum);
            AllHex(h[0..2]) && AllHex(h[2..4]) && AllHex(h[4..6]) &&
            ColorComponents(hex) == Argb(255, HexValue(h[0..2]), HexValue(h[2..4]), HexValue(h[4..6]))
  {
    var h := Trim(hex, NotAlnum);
    HexRunOfHex(h);
    HexValueSix(h);
    HexByteBound(h[0..2]);
    HexByteBound(h[2..4]);
    HexByteBound(h[4..6]);
    SplitSix(ScanHex(h), HexValue(h[0..2]), HexValue(h[2..4]), HexValue(h[4..6]));
  }

  lemma SplitSix(v: int, r: int, g: int, b: int)
    requires 0 <= r < 256 && 0 <= g < 256 && 0 <= b < 256 && v == r * 65536 + g * 256 + b
    ensures Channels(6, v) == Argb(255, r, g, b)
  {
    assert v / 65536 == r && v / 256 % 256 == g && v % 256 == b;
  }

  lemma SplitEight(v: int, a: int, r: int, g: int, b: int)
    requires 0 <= a < 256 && 0 <= r < 256 && 0 <= g < 256 && 0 <= b < 256
    requires v == a * 16777216 + r * 65536 + g * 256 + b
    ensures Channels(8, v) == Argb(a, r, g, b)
  {
    var low24 := r * 65536 + g * 256 + b;
    assert 0 <= low24 < 16777216 && v == a * 16777216 + low24;
    assert v / 16777216 == a;
    var high16 := a * 256 + r;
    assert v == high16 * 65536 + (g * 256 + b);
    assert v / 65536 == high16 && high16 % 256 == r;
    var high24 := high16 * 256 + g;
    assert v == high24 * 256 + b;
    assert v / 256 == high24 && high24 % 256 == g;
    assert v % 256 == b;
  }

  /** An eight-digit value is its four bytes, most significant first. */
  lemma HexValueFourBytes(h: string)
    requires |h| == 8 && AllHex(h)
    ensures AllHex(h[0..2]) && AllHex(h[2..4]) && AllHex(h[4..6]) && AllHex(h[6..8])
    ensures HexValue(h[0..2]) < 256 && HexValue(h[2..4]) < 256 && HexValue(h[4..6]) < 256 && HexValue(h[6..8]) < 256
    ensures HexValue(h) == HexValue(h[0..2]) * 16777216 + HexValue(h[2..4]) * 65536 +
                           HexValue(h[4..6]) * 256 + HexValue(h[6..8])
  {
    var a, b, c, d := h[0..2], h[2..4], h[4..6], h[6..8];
    EightDigitPairs(h);
    HexValueFour(a, b, c, d);
    HexByteBound(a);
    HexByteBound(b);
    HexByteBound(c);
    HexByteBound(d);
  }

  lemma EightDigitPairs(h: string)
    requires |h| == 8 && AllHex(h)
    ensures AllHex(h[0..2]) && AllHex(h[2..4]) && AllHex(h[4..6]) && AllHex(h[6..8])
    ensures h[0..2] + (h[2..4] + h[4..6] + h[6..8]) == h
  {
    assert h[2..4] + h[4..6] == h[2..6];
    assert h[2..6] + h[6..8] == h[2..8];
  }

  lemma HexValueFour(a: string, b: string, c: string, d: string)
    requires AllHex(a) && AllHex(b) && AllHex(c) && AllHex(d) && |b| == 2 && |c| == 2 && |d| == 2
    ensures AllHex(b + c + d) && AllHex(a + (b + c + d))
    ensures HexValue(a + (b + c + d)) == HexValue(a) * 16777216 + HexValue(b) * 65536 + HexValue(c) * 256 + HexValue(d)
  {
    HexValueThree(b, c, d);
    HexValueAppend(a, b + c + d);
    Pow16Six();
  }

  lemma Pow16Six()
    ensures Pow16(6) == 16777216
  {
    assert Pow16(2) == 256;
    assert Pow16(4) == 65536;
  }

  /** Eight digits: alpha is the first pair, then red, green and blue. */
  lemma ColorEightDigits(hex: string)
    requires var h := Trim(hex, NotAlnum); |h| == 8 && AllHex(h)
    ensures var h := Trim(hex, NotAlnum);
            AllHex(h[0..2]) && AllHex(h[2..4]) && AllHex(h[4..6]) && AllHex(h[6..8]) &&
            ColorComponents(hex) == Argb(HexValue(h[0..2]), HexValue(h[2..4]), HexValue(h[4..6]), HexValue(h[6..8]))
  {
    var h := Trim(hex, NotAlnum);
    HexRunOfHex(h);
    HexValueFourBytes(h);
    SplitEight(ScanHex(h), HexValue(h[0..2]), HexValue(h[2..4]), HexValue(h[4..6]), HexValue(h[6..8]));
  }

  /** Any other length gives the fallback channels, whatever the digits. */
  lemma ColorOtherLength(hex: string)
    requires var n := |Trim(hex, NotAlnum)|; n != 3 && n != 6 && n != 8
    ensures ColorComponents(hex) == Argb(1, 1, 1, 0)
  {
  }

  lemma {:induction false} Pow16Mono(m: nat, n: nat)
    requires m <= n
    ensures Pow16(m) <= Pow16(n)
    decreases n
  {
    if m < n { Pow16Mono(m, n - 1); }
  }

  function HexDigitChar(d: nat): (c: char)
    requires d < 16
    ensures IsHexDigit(c) && IsAlnum(c) && HexDigitValue(c) == d
  {
    if d < 10 then ('0' as int + d) as char else ('a' as int + d - 10) as char
  }

  /** Two lower-case hex digits for a byte. */
  function HexByte(n: nat): (s: string)
    requires n < 256
    ensures |s| == 2 && AllHex(s) && HexValue(s) == n
    ensures forall i :: 0 <= i < 2 ==> IsAlnum(s[i])
  {
    var s := [HexDigitChar(n / 16), HexDigitChar(n % 16)];
    HexValueOfTwo(s);
    s
  }

  lemma TrimLeadingMark(mark: char, h: string)
    requires NotAlnum(mark) && h != [] && forall i :: 0 <= i < |h| ==> IsAlnum(h[i])
    ensures Trim([mark] + h, NotAlnum) == h
  {
    var s := [mark] + h;
    assert s[1..] == h;
    assert TrimStart(h, NotAlnum) == h;
    assert TrimStart(s, NotAlnum) == h;
    assert TrimEnd(h, NotAlnum) == h;
  }

  lemma SixHexDigitsText(r: nat, g: nat, b: nat)
    requires r < 256 && g < 256 && b < 256
    ensures var h := HexByte(r) + HexByte(g) + HexByte(b);
            |h| == 6 && AllHex(h) && (forall i :: 0 <= i < |h| ==> IsAlnum(h[i])) &&
            h[0..2] == HexByte(r) && h[2..4] == HexByte(g) && h[4..6] == HexByte(b)
  {
    var x, y, z := HexByte(r), HexByte(g), HexByte(b);
    var h := x + y + z;
    forall i | 0 <= i < 6 ensures IsAlnum(h[i]) && IsHexDigit(h[i]) {
      if i < 2 { assert h[i] == x[i]; }
      else if i < 4 { assert h[i] == y[i - 2]; }
      else { assert h[i] == z[i - 4]; }
    }
    assert h[0..2] == x && h[2..4] == y && h[4..6] == z;
  }

  /** Writing "#rrggbb" and decoding it gives the three bytes back, fully opaque. */
  lemma ColorHexRoundTrip(r: nat, g: nat, b: nat)
    requires r < 256 && g < 256 && b < 256
    ensures ColorComponents("#" + HexByte(r) + HexByte(g) + HexByte(b)) == Argb(255, r, g, b)
  {
    var h := HexByte(r) + HexByte(g) + HexByte(b);
    assert "#" + HexByte(r) + HexByte(g) + HexByte(b) == ['#'] + h;
    SixHexDigitsText(r, g, b);
    TrimLeadingMark('#', h);
    ColorSixDigits(['#'] + h);
  }
}
