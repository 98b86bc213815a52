/**
 * The verse picker: book autocomplete over the verse table and the
 * clamping applied when the chapter or a verse field is edited.
 */
module VersePicker {
  import opened Wrappers
  import opened Seqs
  import opened Text
  import opened Ordering

  /**
   * `BibleData.bibleVerseMap`: book name to (chapter to number of verses).
   * The table's contents are not part of this model; it is a parameter.
   */
  type VerseTable = map<string, map<int, int>>

  /** Chapters are numbered from 1 and have at least one verse. */
  ghost predicate WellFormedTable(t: VerseTable) {
    forall b, c :: b in t && c in t[b] ==> c >= 1 && t[b][c] >= 1
  }

  lemma IntSetHasElement(s: set<int>)
    requires s != {}
    ensures exists x :: x in s
  {
    if forall x :: x !in s { assert false; }
  }

  lemma {:induction false} IntSetHasMax(s: set<int>)
    requires s != {}
    ensures exists m :: m in s && forall y :: y in s ==> y <= m
    decreases |s|
  {
    IntSetHasElement(s);
    var x :| x in s;
    var rest := s - {x};
    if rest == {} {
      OnlyElementIsMax(s, x);
    } else {
      IntSetHasMax(rest);
      var m :| m in rest && forall y :: y in rest ==> y <= m;
      MaxWithOneMore(s, x, m);
    }
  }

  lemma OnlyElementIsMax(s: set<int>, x: int)
    requires x in s && s - {x} == {}
    ensures forall y :: y in s ==> y <= x
  {
    forall y | y in s ensures y <= x {
      assert y !in s - {x};
    }
  }

  lemma MaxWithOneMore(s: set<int>, x: int, m: int)
    requires x in s && m in s - {x} && forall y :: y in s - {x} ==> y <= m
    ensures var top := if m < x then x else m;
            top in s && forall y :: y in s ==> y <= top
  {
    var top := if m < x then x else m;
    forall y | y in s ensures y <= top {
      if y != x {
        assert y in s - {x};
      }
    }
  }

  /** `max()` of a non-empty set of integers. */
  function SetMax(s: set<int>): (m: int)
    requires s != {}
    ensures m in s && forall y :: y in s ==> y <= m
  {
    IntSetHasMax(s);
    var m :| m in s && forall y | y in s :: y <= m;
    m
  }

  /** `bibleVerseMap[book]?.keys.max()`: the lookup is by exact, case-sensitive key. */
  function MaxChapter(t: VerseTable, book: string): (r: Option<int>)
    ensures r.None? <==> book !in t || t[book] == map[]
    ensures r.Some? ==> r.value in t[book] && forall c :: c in t[book] ==> c <= r.value
  {
    if book in t && t[book].Keys != {} then Some(SetMax(t[book].Keys)) else None
  }

  /** `BibleData.getMaxVerses(book:chapter:)`, taken to be a lookup in the table. */
  function MaxVerses(t: VerseTable, book: string, chapter: int): Option<int> {
    if book in t && chapter in t[book] then Some(t[book][chapter]) else None
  }

  /**
   * One `onChange` handler: values below 1 become 1, and values above the
   * bound, when there is one, become the bound.  The second test looks at
   * the value typed, not at the value after the first test.
   */
  function Clamp(v: int, bound: Option<int>): (r: int)
    ensures bound.None? ==> r == if v < 1 then 1 else v
    ensures bound.Some? && bound.value >= 1 ==> 1 <= r <= bound.value
    ensures v >= 1 && (bound.None? || v <= bound.value) ==> r == v
    ensures bound.Some? && v > bound.value ==> r == bound.value
  {
    if bound.Some? && v > bound.value then bound.value
    else if v < 1 then 1
    else v
  }

  /** Re-running the handler on its own output, as SwiftUI does after the assignment, changes nothing. */
  lemma ClampIdempotent(v: int, bound: Option<int>)
    requires bound.None? || bound.value >= 1
    ensures Clamp(Clamp(v, bound), bound) == Clamp(v, bound)
  {
  }

  /** With a bound below 1 the two assignments fight: the handler's output is not a fixed point. */
  lemma ClampNotIdempotentBelowOne()
    ensures Clamp(Clamp(5, Some(0)), Some(0)) != Clamp(5, Some(0))
  {
  }

  function ClampChapter(t: VerseTable, book: string, v: int): int {
    Clamp(v, MaxChapter(t, book))
  }

  function ClampVerse(t: VerseTable, book: string, chapter: int, v: int): int {
    Clamp(v, MaxVerses(t, book, chapter))
  }

  /**
   * After a chapter edit the chapter is at least 1, and at most the
   * book's last chapter when the book is a key of the table; a chapter
   * already in range is kept.
   */
  lemma ClampChapterBounds(t: VerseTable, book: string, v: int)
    requires WellFormedTable(t)
    ensures ClampChapter(t, book, v) >= 1
    ensures book in t && t[book] != map[] ==> ClampChapter(t, book, v) <= MaxChapter(t, book).value
    ensures v >= 1 && (book !in t || exists c :: c in t[book] && v <= c) ==> ClampChapter(t, book, v) == v
  {
    var m := MaxChapter(t, book);
    if m.Some? {
      assert m.value in t[book];
    }
  }

  /** A book that is not an exact key gets only the lower bound. */
  lemma ClampChapterUnknownBook(t: VerseTable, book: string, v: int)
    requires book !in t
    ensures ClampChapter(t, book, v) == if v < 1 then 1 else v
  {
  }

  /** A verse edit lands in [1, max verses] when the chapter is in the table, and is kept when already there. */
  lemma ClampVerseBounds(t: VerseTable, book: string, chapter: int, v: int)
    requires WellFormedTable(t)
    ensures var r := ClampVerse(t, book, chapter, v);
            r >= 1 &&
            (book in t && chapter in t[book] ==> r <= t[book][chapter]) &&
            (v >= 1 && (book in t && chapter in t[book] ==> v <= t[book][chapter]) ==> r == v)
  {
  }

  /** The two verse fields are clamped separately, so the start can end up after the end. */
  lemma VerseRangeMayBeReversed()
    ensures var t: VerseTable := map["Genesis" := map[1 := 31]];
            ClampVerse(t, "Genesis", 1, 10) > ClampVerse(t, "Genesis", 1, 5)
  {
  }

  /** The filter of the autocomplete: the key contains the query, ignoring case. */
  function ContainsQuery(q: string): string -> bool {
    k => CaseInsensitiveContains(k, q)
  }

  /** Sort key of the autocomplete: exact (case-insensitive) matches first, then `<`. */
  function SuggestionKey(q: string): string -> seq<int> {
    k => [if CaseInsensitiveEqual(k, q) then 0 else 1] + Codes(k)
  }

  lemma LexLeCons(a: int, x: seq<int>, b: int, y: seq<int>)
    ensures LexLe([a] + x, [b] + y) <==> a < b || (a == b && LexLe(x, y))
  {
    assert ([a] + x)[1..] == x && ([b] + y)[1..] == y;
  }

  lemma SuggestionKeyInjective(q: string)
    ensures forall x, y :: SuggestionKey(q)(x) == SuggestionKey(q)(y) ==> x == y
  {
    forall x, y | SuggestionKey(q)(x) == SuggestionKey(q)(y) ensures x == y {
      assert SuggestionKey(q)(x)[1..] == Codes(x);
      assert SuggestionKey(q)(y)[1..] == Codes(y);
      CodesInjective(x, y);
    }
  }

  /**
   * The sorted matches of the query among the table's keys, listed in
   * the dictionary's iteration order `keys`.
   */
  function Matches(keys: seq<string>, q: string): (r: seq<string>)
    ensures forall k :: k in r <==> k in keys && CaseInsensitiveContains(k, q)
    ensures forall k :: multiset(r)[k] == if CaseInsensitiveContains(k, q) then multiset(keys)[k] else 0
    ensures forall i, j :: 0 <= i < j < |r| && CaseInsensitiveEqual(r[j], q) ==> CaseInsensitiveEqual(r[i], q)
    ensures forall i, j :: 0 <= i < j < |r| && CaseInsensitiveEqual(r[i], q) == CaseInsensitiveEqual(r[j], q) ==>
              LexLe(Codes(r[i]), Codes(r[j]))
  {
    var found := Filter(keys, ContainsQuery(q));
    FilterMultiset(keys, ContainsQuery(q));
    var r := SortByKey(found, SuggestionKey(q));
    assert multiset(r) == multiset(found);
    assert forall k :: k in r <==> k in found by {
      forall k ensures k in r <==> k in found {
        assert k in r <==> k in multiset(r);
        assert k in found <==> k in multiset(found);
      }
    }
    forall i, j | 0 <= i < j < |r|
      ensures CaseInsensitiveEqual(r[j], q) ==> CaseInsensitiveEqual(r[i], q)
      ensures CaseInsensitiveEqual(r[i], q) == CaseInsensitiveEqual(r[j], q) ==> LexLe(Codes(r[i]), Codes(r[j]))
    {
      assert LexLe(SuggestionKey(q)(r[i]), SuggestionKey(q)(r[j]));
      LexLeCons(if CaseInsensitiveEqual(r[i], q) then 0 else 1, Codes(r[i]),
                if CaseInsensitiveEqual(r[j], q) then 0 else 1, Codes(r[j]));
    }
    r
  }

  /**
   * What the picker lists under the book field: nothing unless the field
   * is focused and non-empty; otherwise the first five matches.
   */
  function Suggestions(keys: seq<string>, q: string, focused: bool): (r: seq<string>)
    ensures |r| <= 5
    ensures !focused || q == [] ==> r == []
    ensures focused && q != [] ==> |r| == (if |Matches(keys, q)| < 5 then |Matches(keys, q)| else 5) &&
                                   r == Matches(keys, q)[..|r|]
  {
    if !focused || q == [] then [] else Take(Matches(keys, q), 5)
  }

  /** Every suggestion is one of the keys and contains the query. */
  lemma SuggestionsAreMatches(keys: seq<string>, q: string, focused: bool)
    ensures forall k :: k in Suggestions(keys, q, focused) ==> k in keys && CaseInsensitiveContains(k, q)
  {
    var r := Suggestions(keys, q, focused);
    forall k | k in r ensures k in keys && CaseInsensitiveContains(k, q) {
      var i :| 0 <= i < |r| && r[i] == k;
      assert k in Matches(keys, q);
    }
  }

  /** The suggestions depend only on which keys the table has, not on the order they are visited in. */
  lemma SuggestionsIgnoreKeyOrder(keys1: seq<string>, keys2: seq<string>, q: string, focused: bool)
    requires multiset(keys1) == multiset(keys2)
    ensures Suggestions(keys1, q, focused) == Suggestions(keys2, q, focused)
  {
    var f1 := Filter(keys1, ContainsQuery(q));
    var f2 := Filter(keys2, ContainsQuery(q));
    FilterMultiset(keys1, ContainsQuery(q));
    FilterMultiset(keys2, ContainsQuery(q));
    assert forall k :: multiset(f1)[k] == multiset(f2)[k];
    assert multiset(f1) == multiset(f2);
    SuggestionKeyInjective(q);
    SortByKeyCanonical(f1, f2, SuggestionKey(q));
  }

  /** A non-empty focused query that spells a key, in any case, lists that key first. */
  lemma ExactMatchListedFirst(keys: seq<string>, q: string, k: string)
    requires k in keys && CaseInsensitiveEqual(k, q) && q != []
    ensures |Suggestions(keys, q, true)| >= 1 && CaseInsensitiveEqual(Suggestions(keys, q, true)[0], q)
  {
    CaseInsensitiveContainsSelf(k);
    assert CaseInsensitiveContains(k, q) by {
      assert Lowercased(q) == Lowercased(k);
    }
    var m := Matches(keys, q);
    assert k in m;
    var j :| 0 <= j < |m| && m[j] == k;
    if j > 0 {
      assert CaseInsensitiveEqual(m[0], q);
    }
  }

  /** The bound state of the picker: the four text fields and the focus of the book field. */
  class VersePickerView {
    const table: VerseTable
    var book: string
    var chapter: int
    var verseStart: int
    var verseEnd: int
    var bookFocused: bool

    constructor(table: VerseTable, book: string, chapter: int, verseStart: int, verseEnd: int)
      ensures this.table == table && this.book == book && this.chapter == chapter
      ensures this.verseStart == verseStart && this.verseEnd == verseEnd && !bookFocused
    {
      this.table := table;
      this.book := book;
      this.chapter := chapter;
      this.verseStart := verseStart;
      this.verseEnd := verseEnd;
      this.bookFocused := false;
    }

    /** The suggestions currently shown, with `keys` the table's keys in iteration order. */
    function Shown(keys: seq<string>): seq<string>
      reads this
    {
      Suggestions(keys, book, bookFocused)
    }

    /** Tapping the `i`-th suggestion copies it into the book field and ends editing. */
    method TapSuggestion(keys: seq<string>, i: nat)
      requires forall k :: k in keys <==> k in table
      requires i < |Shown(keys)|
      modifies this
      ensures book == old(Shown(keys))[i] && book in table
      ensures !bookFocused
      ensures chapter == old(chapter) && verseStart == old(verseStart) && verseEnd == old(verseEnd)
    {
      SuggestionsAreMatches(keys, book, bookFocused);
      assert Shown(keys)[i] in Shown(keys);
      book := Shown(keys)[i];
      bookFocused := false;
    }

    /** The chapter field's `onChange` handler, run with the value just typed. */
    method EditChapter(newValue: int)
      modifies this
      ensures chapter == ClampChapter(table, book, newValue)
      ensures book == old(book) && verseStart == old(verseStart) && verseEnd == old(verseEnd)
      ensures bookFocused == old(bookFocused)
    {
      chapter := newValue;
      if newValue < 1 {
        chapter := 1;
      }
      var maxChapter := MaxChapter(table, book);
      if maxChapter.Some? && newValue > maxChapter.value {
        chapter := maxChapter.value;
      }
    }

    /** The first verse field's `onChange` handler. */
    method EditVerseStart(newValue: int)
      modifies this
      ensures verseStart == ClampVerse(table, book, chapter, newValue)
      ensures book == old(book) && chapter == old(chapter) && verseEnd == old(verseEnd)
      ensures bookFocused == old(bookFocused)
    {
      verseStart := newValue;
      if newValue < 1 {
        verseStart := 1;
      }
      var maxVerse := MaxVerses(table, book, chapter);
      if maxVerse.Some? && newValue > maxVerse.value {
        verseStart := maxVerse.value;
      }
    }

    /** The last verse field's `onChange` handler. */
    method EditVerseEnd(newValue: int)
      modifies this
      ensures verseEnd == ClampVerse(table, book, chapter, newValue)
      ensures book == old(book) && chapter == old(chapter) && verseStart == old(verseStart)
      ensures bookFocused == old(bookFocused)
    {
      verseEnd := newValue;
      if newValue < 1 {
        verseEnd := 1;
      }
      var maxVerse := MaxVerses(table, book, chapter);
      if maxVerse.Some? && newValue > maxVerse.value {
        verseEnd := maxVerse.value;
      }
    }
  }
}
