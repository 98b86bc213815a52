/**
 * The pieces of a comment row: the avatar initials, the relative
 * timestamp and the like button.
 */
module CommentView {
  import opened Wrappers
  import opened Text

  /** `first?.uppercased() ?? ""` on one piece of a name. */
  function FirstUpper(w: string): (r: string)
    ensures |r| <= 1 && (r == [] <==> w == [])
  {
    if w == [] then [] else [ToUpper(w[0])]
  }

  /**
   * `InitialsView.initials`: the name is cut at every single space (empty
   * pieces kept); the result is the first letter of the first piece,
   * followed by the first letter of the last piece when there are two
   * pieces or more.
   */
  function CommentInitials(username: string): (r: string)
    ensures |r| <= 2
    ensures forall i :: 0 <= i < |r| ==> !IsLower(r[i])
  {
    var components := Split(username, ' ');
    var firstInitial := FirstUpper(components[0]);
    var lastInitial := if |components| > 1 then FirstUpper(components[|components| - 1]) else "";
    firstInitial + lastInitial
  }

  /**
   * For a name made of space-free pieces joined by single spaces, the
   * initials are the first letters of the first and the last piece.
   */
  lemma CommentInitialsOfPieces(pieces: seq<string>)
    requires |pieces| >= 1 && forall i :: 0 <= i < |pieces| ==> ' ' !in pieces[i]
    ensures CommentInitials(Join(pieces, " ")) ==
            FirstUpper(pieces[0]) + (if |pieces| > 1 then FirstUpper(pieces[|pieces| - 1]) else "")
  {
    SplitJoin(pieces, ' ');
  }

  /** A name without spaces gives one letter, or none when it is empty. */
  lemma CommentInitialsOneWord(username: string)
    requires ' ' !in username
    ensures CommentInitials(username) == FirstUpper(username)
  {
    SplitNoSep(username, ' ');
  }

  /** A name starting with a space has an empty first piece, so only the last piece contributes. */
  lemma CommentInitialsLeadingSpace(rest: string)
    ensures CommentInitials(" " + rest) == FirstUpper(Split(rest, ' ')[|Split(rest, ' ')| - 1])
  {
    var name := " " + rest;
    assert name[0] == ' ' && name[1..] == rest;
    var components := Split(name, ' ');
    assert components == [[]] + Split(rest, ' ');
    assert components[|components| - 1] == Split(rest, ' ')[|Split(rest, ' ')| - 1];
  }

  /** The time since a comment, as `relativeTimeString` buckets it. */
  datatype Elapsed = JustNow | Minutes(n: int) | Hours(n: int) | Days(n: int)

  /**
   * The bucket for `difference` seconds: below a minute (the future
   * included) is "now"; otherwise whole minutes below an hour, whole
   * hours below a day, and whole days beyond.
   */
  function ElapsedSince(difference: int): (e: Elapsed)
    ensures e.JustNow? <==> difference < 60
    ensures e.Minutes? <==> 60 <= difference < 3600
    ensures e.Hours? <==> 3600 <= difference < 86400
    ensures e.Days? <==> 86400 <= difference
    ensures e.Minutes? ==> 1 <= e.n < 60 && e.n * 60 <= difference < (e.n + 1) * 60
    ensures e.Hours? ==> 1 <= e.n < 24 && e.n * 3600 <= difference < (e.n + 1) * 3600
    ensures e.Days? ==> 1 <= e.n && e.n * 86400 <= difference < (e.n + 1) * 86400
  {
    if difference < 60 then JustNow
    else if difference < 3600 then Minutes(difference / 60)
    else if difference < 86400 then Hours(difference / 3600)
    else Days(difference / 86400)
  }

  /** The unit letter of a counted bucket. */
  function UnitOf(e: Elapsed): char
    requires !e.JustNow?
  {
    if e.Minutes? then 'm' else if e.Hours? then 'h' else 'd'
  }

  /** The label shown for a bucket: "now", or the count in decimal followed by its unit letter. */
  function ElapsedText(e: Elapsed): (s: string)
    ensures s == "now" <==> e.JustNow?
    ensures !e.JustNow? ==> |s| >= 2 && s[|s| - 1] == UnitOf(e) && ParseInt(s[..|s| - 1]) == Some(e.n)
  {
    if e.JustNow? then "now"
    else
      var s := IntToString(e.n) + [UnitOf(e)];
      NumberLabelIsNotNow(e.n, UnitOf(e));
      assert s[..|s| - 1] == IntToString(e.n);
      ParseIntToString(e.n);
      s
  }

  /**
   * `relativeTimeString(from:)`, with both instants in whole seconds:
   * "now" under a minute, otherwise the whole count of the largest unit
   * that fits, then its letter.
   */
  function RelativeTimeString(now: int, createdAt: int): (s: string)
    ensures s == "now" <==> now - createdAt < 60
    ensures now - createdAt >= 60 ==>
      |s| >= 2 && ParseInt(s[..|s| - 1]) == Some(ElapsedSince(now - createdAt).n) &&
      s[|s| - 1] == (if now - createdAt < 3600 then 'm' else if now - createdAt < 86400 then 'h' else 'd')
  {
    ElapsedText(ElapsedSince(now - createdAt))
  }

  /** Reads a label back into its bucket. */
  function ParseElapsed(s: string): Option<Elapsed> {
    if s == "now" then Some(JustNow)
    else if |s| < 2 then None
    else
      match ParseInt(s[..|s| - 1])
      case None => None
      case Some(n) =>
        if s[|s| - 1] == 'm' then Some(Minutes(n))
        else if s[|s| - 1] == 'h' then Some(Hours(n))
        else if s[|s| - 1] == 'd' then Some(Days(n))
        else None
  }

  lemma NumberLabelIsNotNow(n: int, unit: char)
    ensures IntToString(n) + [unit] != "now"
  {
    var t := IntToString(n) + [unit];
    assert t[0] == IntToString(n)[0];
    if |IntToString(n)| > 1 { assert IsDigit(IntToString(n)[1]); }
  }

  /** Every label determines its bucket. */
  lemma ParseElapsedText(e: Elapsed)
    ensures ParseElapsed(ElapsedText(e)) == Some(e)
  {
  }

  /** The label of a comment reads back as the bucket of its age. */
  lemma RelativeTimeStringParses(now: int, createdAt: int)
    ensures ParseElapsed(RelativeTimeString(now, createdAt)) == Some(ElapsedSince(now - createdAt))
  {
    ParseElapsedText(ElapsedSince(now - createdAt));
  }

  /** The two bound values the like button edits. */
  datatype LikeState = LikeState(isLiked: bool, likeCount: int)

  /** One tap: flip `isLiked`, then count the new state's like. */
  function Tapped(s: LikeState): (t: LikeState)
    ensures t.isLiked == !s.isLiked
    ensures t.likeCount == s.likeCount + (if t.isLiked then 1 else -1)
  {
    var liked := !s.isLiked;
    LikeState(liked, s.likeCount + if liked then 1 else -1)
  }

  /** The likes of everyone else: unchanged by a tap. */
  function OthersLikes(s: LikeState): int {
    s.likeCount - if s.isLiked then 1 else 0
  }

  lemma TapKeepsOthersLikes(s: LikeState)
    ensures OthersLikes(Tapped(s)) == OthersLikes(s)
  {
  }

  lemma TapTwiceRestores(s: LikeState)
    ensures Tapped(Tapped(s)) == s
  {
  }

  /** `ActionsView`'s bindings. */
  class LikeButton {
    var isLiked: bool
    var likeCount: int

    constructor(isLiked: bool, likeCount: int)
      ensures this.isLiked == isLiked && this.likeCount == likeCount
    {
      this.isLiked := isLiked;
      this.likeCount := likeCount;
    }

    function State(): LikeState
      reads this
    {
      LikeState(isLiked, likeCount)
    }

    /** The button's action: `isLiked.toggle()`, then `likeCount += isLiked ? 1 : -1`. */
    method Tap()
      modifies this
      ensures State() == Tapped(old(State()))
      ensures OthersLikes(State()) == OthersLikes(old(State()))
    {
      isLiked := !isLiked;
      likeCount := likeCount + if isLiked then 1 else -1;
    }
  }
}
