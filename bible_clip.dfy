/**
 * A clip is a verse range inside one chapter of one book.  This module
 * holds the clip itself (overlap, containment, its human-readable
 * reference) and the queries over a list of clips.
 */
module BibleClips {
  import opened Wrappers
  import opened Seqs
  import opened Text

  datatype BibleClip = BibleClip(id: string, book: string, chapter: int, startVerse: int, endVerse: int)
  {
    /**
     * `overlaps(with:)`.  Only the chapters are compared; the books are
     * not, so clips of two different books can overlap.
     */
    predicate Overlaps(other: BibleClip) {
      chapter == other.chapter && !(endVerse < other.startVerse || startVerse > other.endVerse)
    }

    /** `contains(verse:)` */
    predicate ContainsVerse(verse: int) {
      verse >= startVerse && verse <= endVerse
    }

    /** A clip whose range is not reversed. */
    predicate WellOrdered() {
      startVerse <= endVerse
    }

    /** `humanReadable()`: "Book C:S", or "Book C:S-E" when the range has more than one verse. */
    function HumanReadable(): string {
      book + " " + IntToString(chapter) + ":" + VersesText(startVerse, endVerse)
    }
  }

  /** Different chapters never overlap, whatever the verses. */
  lemma OverlapsNeedsSameChapter(a: BibleClip, b: BibleClip)
    requires a.chapter != b.chapter
    ensures !a.Overlaps(b)
  {
  }

  /** The book plays no part in `Overlaps`. */
  lemma OverlapsIgnoresBook(a: BibleClip, b: BibleClip, book1: string, book2: string)
    ensures a.(book := book1).Overlaps(b.(book := book2)) == a.Overlaps(b)
  {
  }

  /** Two clips of different books, same chapter and intersecting verses, overlap. */
  lemma OverlapsAcrossBooks()
    ensures BibleClip("a", "Genesis", 1, 1, 3).Overlaps(BibleClip("b", "Exodus", 1, 2, 5))
  {
  }

  lemma OverlapsSymmetric(a: BibleClip, b: BibleClip)
    ensures a.Overlaps(b) <==> b.Overlaps(a)
  {
  }

  lemma OverlapsReflexive(a: BibleClip)
    requires a.WellOrdered()
    ensures a.Overlaps(a)
  {
  }

  /**
   * For well-ordered clips, overlapping means sharing a chapter and a
   * verse; the shared verse can be taken to be the later start.
   */
  lemma OverlapsIffSharedVerse(a: BibleClip, b: BibleClip)
    requires a.WellOrdered() && b.WellOrdered()
    ensures a.Overlaps(b) <==>
            a.chapter == b.chapter && exists v :: a.ContainsVerse(v) && b.ContainsVerse(v)
  {
    if a.Overlaps(b) {
      var v := if a.startVerse < b.startVerse then b.startVerse else a.startVerse;
      assert a.ContainsVerse(v) && b.ContainsVerse(v);
    }
  }

  /** A reversed clip contains no verse and does not overlap itself, yet it can overlap another clip. */
  lemma ReversedClipOverlaps()
    ensures var a := BibleClip("a", "Genesis", 1, 5, 3);
            (forall v :: !a.ContainsVerse(v)) && !a.Overlaps(a) && a.Overlaps(BibleClip("b", "Genesis", 1, 1, 10))
  {
  }

  /** A well-ordered clip contains both endpoints and neither neighbour outside them. */
  lemma ContainsVerseEndpoints(c: BibleClip)
    requires c.WellOrdered()
    ensures c.ContainsVerse(c.startVerse) && c.ContainsVerse(c.endVerse)
    ensures !c.ContainsVerse(c.startVerse - 1) && !c.ContainsVerse(c.endVerse + 1)
  {
  }

  /** A clip that contains a verse overlaps the one-verse clip of that verse, in any book. */
  lemma ContainsVerseOverlapsPoint(c: BibleClip, verse: int, id: string, book: string)
    requires c.ContainsVerse(verse)
    ensures c.Overlaps(BibleClip(id, book, c.chapter, verse, verse))
  {
  }

  /** "S" when the range is one verse, "S-E" otherwise. */
  function VersesText(startVerse: int, endVerse: int): (s: string)
    ensures forall k :: 0 <= k < |s| ==> s[k] == '-' || IsDigit(s[k])
  {
    IntToString(startVerse) + (if startVerse == endVerse then "" else "-" + IntToString(endVerse))
  }

  /** The parts of a reference: book, chapter, first and last verse. */
  datatype Reference = Reference(book: string, chapter: int, startVerse: int, endVerse: int)

  /**
   * Reads a reference written by `HumanReadable` back: the book is what
   * precedes the last space, the chapter what precedes the first colon
   * after it, and the verses are separated by the first dash that is not
   * a leading minus sign.
   */
  function ParseReference(s: string): Option<Reference> {
    match LastIndexOf(s, ' ')
    case None => None
    case Some(sp) =>
      match ParseChapterAndVerses(s[sp + 1..])
      case Some((ch, sv, ev)) => Some(Reference(s[..sp], ch, sv, ev))
      case None => None
  }

  /** Reads "C:S" or "C:S-E". */
  function ParseChapterAndVerses(rest: string): Option<(int, int, int)> {
    match IndexOf(rest, ':', 0)
    case None => None
    case Some(colon) =>
      match (ParseInt(rest[..colon]), ParseVerses(rest[colon + 1..]))
      case (Some(ch), Some((sv, ev))) => Some((ch, sv, ev))
      case _ => None
  }

  function ParseVerses(verses: string): Option<(int, int)> {
    if verses == [] then None
    else
      match IndexOf(verses, '-', 1)
      case None =>
        (match ParseInt(verses)
         case Some(v) => Some((v, v))
         case None => None)
      case Some(dash) =>
        (match (ParseInt(verses[..dash]), ParseInt(verses[dash + 1..]))
         case (Some(sv), Some(ev)) => Some((sv, ev))
         case _ => None)
  }

  lemma LastIndexOfAt(s: string, c: char, k: nat)
    requires k < |s| && s[k] == c && forall j :: k < j < |s| ==> s[j] != c
    ensures LastIndexOf(s, c) == Some(k)
  {
  }

  lemma IndexOfAt(s: string, c: char, from: nat, k: nat)
    requires from <= k < |s| && s[k] == c && forall j :: from <= j < k ==> s[j] != c
    ensures IndexOf(s, c, from) == Some(k)
  {
  }

  lemma ParseVersesText(sv: int, ev: int)
    ensures ParseVerses(VersesText(sv, ev)) == Some((sv, ev))
  {
    var svs := IntToString(sv);
    var verses := VersesText(sv, ev);
    ParseIntToString(sv);
    if sv == ev {
      assert verses == svs;
      assert IndexOf(verses, '-', 1) == None;
    } else {
      IndexOfAt(verses, '-', 1, |svs|);
      assert verses[..|svs|] == svs;
      assert verses[|svs| + 1..] == IntToString(ev);
      ParseIntToString(ev);
    }
  }

  lemma ParseAtColon(chapter: int, verses: string)
    requires forall k :: 0 <= k < |verses| ==> verses[k] == '-' || IsDigit(verses[k])
    ensures var rest := IntToString(chapter) + ":" + verses;
            IndexOf(rest, ':', 0) == Some(|IntToString(chapter)|) &&
            rest[..|IntToString(chapter)|] == IntToString(chapter) &&
            rest[|IntToString(chapter)| + 1..] == verses
  {
    var chs := IntToString(chapter);
    var rest := chs + ":" + verses;
    IndexOfAt(rest, ':', 0, |chs|);
    assert rest[..|chs|] == chs;
    assert rest[|chs| + 1..] == verses;
  }

  lemma ParseAtSpace(book: string, rest: string)
    requires ' ' !in rest
    ensures var s := book + " " + rest;
            LastIndexOf(s, ' ') == Some(|book|) && s[..|book|] == book && s[|book| + 1..] == rest
  {
    var s := book + " " + rest;
    assert forall j :: |book| < j < |s| ==> s[j] == rest[j - |book| - 1];
    LastIndexOfAt(s, ' ', |book|);
    assert s[..|book|] == book;
    assert s[|book| + 1..] == rest;
  }

  lemma ParseChapterAndVersesText(chapter: int, sv: int, ev: int)
    ensures ParseChapterAndVerses(IntToString(chapter) + ":" + VersesText(sv, ev)) == Some((chapter, sv, ev))
  {
    ParseAtColon(chapter, VersesText(sv, ev));
    ParseIntToString(chapter);
    ParseVersesText(sv, ev);
  }

  lemma ChapterAndVersesHaveNoSpace(chapter: int, sv: int, ev: int)
    ensures ' ' !in IntToString(chapter) + ":" + VersesText(sv, ev)
  {
    var chs := IntToString(chapter);
    var verses := VersesText(sv, ev);
    var rest := chs + ":" + verses;
    forall k | 0 <= k < |rest| ensures rest[k] != ' ' {
      if k < |chs| { assert rest[k] == chs[k]; }
      else if k > |chs| { assert rest[k] == verses[k - |chs| - 1]; }
    }
  }

  /** The human-readable reference determines the clip's book, chapter and verses. */
  lemma ParseHumanReadable(c: BibleClip)
    ensures ParseReference(c.HumanReadable()) == Some(Reference(c.book, c.chapter, c.startVerse, c.endVerse))
  {
    var rest := IntToString(c.chapter) + ":" + VersesText(c.startVerse, c.endVerse);
    assert c.HumanReadable() == c.book + " " + rest;
    ChapterAndVersesHaveNoSpace(c.chapter, c.startVerse, c.endVerse);
    ParseAtSpace(c.book, rest);
    ParseChapterAndVersesText(c.chapter, c.startVerse, c.endVerse);
  }

  /** `clips(overlapping:)` */
  function ClipsOverlapping(clips: seq<BibleClip>, clip: BibleClip): (r: seq<BibleClip>)
    ensures forall c :: c in r <==> c in clips && c.Overlaps(clip)
    ensures forall c :: multiset(r)[c] == if c.Overlaps(clip) then multiset(clips)[c] else 0
    ensures IsSubseq(r, clips)
  {
    FilterMultiset(clips, (c: BibleClip) => c.Overlaps(clip));
    FilterIsSubseq(clips, (c: BibleClip) => c.Overlaps(clip));
    Filter(clips, (c: BibleClip) => c.Overlaps(clip))
  }

  /** `humanReadableList()` */
  function HumanReadableList(clips: seq<BibleClip>): (r: string)
    ensures clips == [] ==> r == ""
    ensures |clips| == 1 ==> r == clips[0].HumanReadable()
  {
    Join(Labels(clips), ", ")
  }

  /** The `humanReadable` label of each clip, in order. */
  function Labels(clips: seq<BibleClip>): (r: seq<string>)
    ensures |r| == |clips|
    decreases |clips|
  {
    if clips == [] then [] else [clips[0].HumanReadable()] + Labels(clips[1..])
  }

  lemma {:induction false} LabelsAt(clips: seq<BibleClip>, i: nat)
    requires i < |clips|
    ensures Labels(clips)[i] == clips[i].HumanReadable()
    decreases |clips|
  {
    if i > 0 {
      LabelsAt(clips[1..], i - 1);
    }
  }

  lemma {:induction false} LabelsAppend(a: seq<BibleClip>, b: seq<BibleClip>)
    ensures Labels(a + b) == Labels(a) + Labels(b)
    decreases |a|
  {
    if a != [] {
      assert (a + b)[1..] == a[1..] + b;
      LabelsAppend(a[1..], b);
    } else {
      assert a + b == b;
    }
  }

  lemma {:induction false} JoinAppend(a: seq<string>, b: seq<string>, sep: string)
    requires a != [] && b != []
    ensures Join(a + b, sep) == Join(a, sep) + sep + Join(b, sep)
    decreases |a|
  {
    if |a| == 1 {
      assert (a + b)[1..] == b;
    } else {
      assert (a + b)[1..] == a[1..] + b;
      JoinAppend(a[1..], b, sep);
    }
  }

  /** The list of two non-empty lists reads as the first list, ", ", then the second. */
  lemma HumanReadableListAppend(a: seq<BibleClip>, b: seq<BibleClip>)
    requires a != [] && b != []
    ensures HumanReadableList(a + b) == HumanReadableList(a) + ", " + HumanReadableList(b)
  {
    LabelsAppend(a, b);
    JoinAppend(Labels(a), Labels(b), ", ");
  }

  /** `contains(verse:inBook:chapter:)` */
  function ContainsVerseInBook(clips: seq<BibleClip>, verse: int, book: string, chapter: int): (r: bool)
    ensures r <==> exists i :: 0 <= i < |clips| && clips[i].book == book &&
                              clips[i].chapter == chapter && clips[i].ContainsVerse(verse)
    decreases |clips|
  {
    if clips == [] then false
    else
      var rest := ContainsVerseInBook(clips[1..], verse, book, chapter);
      assert forall i :: 1 <= i < |clips| ==> clips[i] == clips[1..][i - 1];
      (clips[0].book == book && clips[0].chapter == chapter && clips[0].ContainsVerse(verse)) || rest
  }
}
