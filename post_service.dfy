/**
 * `PostService`: the `posts` and `comments` nodes of the database, the
 * like toggle, and the decoders that turn stored records into posts and
 * comments, skipping the incomplete ones.  Dates are stored as text; the
 * ISO-8601 formatter and parser are parameters.
 */
module PostService {
  import opened Wrappers
  import opened Seqs
  import opened Records
  import opened Models

  /** The test `removeAll` applies to a `likedBy` list. */
  function NotUser(userId: string): string -> bool {
    x => x != userId
  }

  /**
   * The update `likePost` makes to a `likedBy` list: a user who is in it is
   * removed, every occurrence; a user who is not is appended.
   */
  function ToggledLikes(likedBy: seq<string>, userId: string): (r: seq<string>)
    ensures userId in r <==> userId !in likedBy
    ensures Filter(r, NotUser(userId)) == Filter(likedBy, NotUser(userId))
    ensures userId !in likedBy ==> |r| == |likedBy| + 1 && r[..|likedBy|] == likedBy && r[|likedBy|] == userId
    ensures userId in likedBy ==> |r| == |likedBy| - multiset(likedBy)[userId]
  {
    if userId in likedBy then
      var r := Filter(likedBy, NotUser(userId));
      FilterIdempotent(likedBy, NotUser(userId));
      FilteredLength(likedBy, userId);
      r
    else
      var r := likedBy + [userId];
      FilterAppend(likedBy, [userId], NotUser(userId));
      assert Filter([userId], NotUser(userId)) == [] by { assert [userId][1..] == []; }
      assert r[..|likedBy|] == likedBy;
      r
  }

  /** Removing a user shortens the list by the number of times they occur. */
  lemma FilteredLength(likedBy: seq<string>, userId: string)
    ensures |Filter(likedBy, NotUser(userId))| == |likedBy| - multiset(likedBy)[userId]
  {
    var r := Filter(likedBy, NotUser(userId));
    FilterMultiset(likedBy, NotUser(userId));
    assert multiset(r) == multiset(likedBy)[userId := 0] by {
      forall x ensures multiset(r)[x] == multiset(likedBy)[userId := 0][x] {
      }
    }
    MultisetRemoveAll(multiset(likedBy), userId);
  }

  lemma MultisetRemoveAll(m: multiset<string>, x: string)
    ensures |m[x := 0]| == |m| - m[x]
  {
    var rest := m[x := 0];
    var xs := multiset{}[x := m[x]];
    assert m == rest + xs;
  }

  /** Two taps from a list without the user give the list back. */
  lemma ToggleTwiceRestores(likedBy: seq<string>, userId: string)
    requires userId !in likedBy
    ensures ToggledLikes(ToggledLikes(likedBy, userId), userId) == likedBy
  {
    var once := ToggledLikes(likedBy, userId);
    assert once == likedBy + [userId];
    FilterAppend(likedBy, [userId], NotUser(userId));
    assert Filter([userId], NotUser(userId)) == [] by { assert [userId][1..] == []; }
    FilterAll(likedBy, NotUser(userId));
  }

  /** From a list holding the user twice, two taps collapse the duplicates into one trailing entry. */
  lemma ToggleTwiceDeduplicates()
    ensures ToggledLikes(ToggledLikes(["u", "v", "u"], "u"), "u") == ["v", "u"]
  {
    var l := ["u", "v", "u"];
    assert l[1..] == ["v", "u"] && l[1..][1..] == ["u"] && l[1..][1..][1..] == [];
    assert Filter(l, NotUser("u")) == ["v"];
  }

  /** `postData["likedBy"] as? [String] ?? []` */
  function LikedByOf(post: Record): seq<string> {
    StringListField(post, "likedBy")
  }

  /** A query `queryOrdered(byChild: key).queryEqual(toValue: value)` keeps the objects with that string there. */
  function FieldIs(key: string, value: string): Value -> bool {
    (v: Value) => v.Obj? && StringField(v.fields, key) == Some(value)
  }

  /** The position of the first post with id `postId`: the child `likePost` and `isLiked` use. */
  function FirstPost(posts: seq<Value>, postId: string): (r: Option<nat>)
    ensures r.None? <==> forall i :: 0 <= i < |posts| ==> !FieldIs("id", postId)(posts[i])
    ensures r.Some? ==> r.value < |posts| && FieldIs("id", postId)(posts[r.value]) &&
                        forall i :: 0 <= i < r.value ==> !FieldIs("id", postId)(posts[i])
    decreases |posts|
  {
    if posts == [] then None
    else if FieldIs("id", postId)(posts[0]) then Some(0)
    else
      match FirstPost(posts[1..], postId)
      case None => None
      case Some(i) => Some(i + 1)
  }

  /** `isLiked`: the user is in the first matching post's `likedBy`; no post means false. */
  function IsLiked(posts: seq<Value>, postId: string, userId: string): (r: bool)
    ensures r ==> exists i :: 0 <= i < |posts| && FieldIs("id", postId)(posts[i]) && userId in LikedByOf(posts[i].fields)
    ensures (forall i :: 0 <= i < |posts| ==> !FieldIs("id", postId)(posts[i])) ==> !r
    ensures FirstPost(posts, postId).Some? ==>
              (forall i :: 0 <= i < |posts| && FieldIs("id", postId)(posts[i]) ==> userId in LikedByOf(posts[i].fields)) ==>
                r
  {
    match FirstPost(posts, postId)
    case None => false
    case Some(i) => userId in LikedByOf(posts[i].fields)
  }

  /** The first post with its `likedBy` toggled for the user. */
  function LikedPosts(posts: seq<Value>, postId: string, userId: string): (r: seq<Value>)
    ensures |r| == |posts|
    ensures forall j :: 0 <= j < |posts| && FirstPost(posts, postId) != Some(j) ==> r[j] == posts[j]
    ensures FirstPost(posts, postId).Some? ==>
      var i := FirstPost(posts, postId).value;
      r[i].Obj? && LikedByOf(r[i].fields) == ToggledLikes(LikedByOf(posts[i].fields), userId) &&
      forall k :: k in posts[i].fields && k != "likedBy" ==> k in r[i].fields && r[i].fields[k] == posts[i].fields[k]
  {
    match FirstPost(posts, postId)
    case None => posts
    case Some(i) =>
      var post := posts[i].fields;
      var toggled := ToggledLikes(LikedByOf(post), userId);
      AsStringListOfValue(toggled);
      posts[i := Obj(post["likedBy" := StringListValue(toggled)])]
  }

  /** A like flips what `isLiked` reports, when the post exists. */
  lemma LikeFlipsIsLiked(posts: seq<Value>, postId: string, userId: string)
    ensures FirstPost(posts, postId).Some? ==>
      IsLiked(LikedPosts(posts, postId, userId), postId, userId) == !IsLiked(posts, postId, userId)
    ensures FirstPost(posts, postId).None? ==> LikedPosts(posts, postId, userId) == posts
  {
    var first := FirstPost(posts, postId);
    if first.Some? {
      var i := first.value;
      var post := posts[i].fields;
      var toggled := ToggledLikes(LikedByOf(post), userId);
      var liked := Obj(post["likedBy" := StringListValue(toggled)]);
      AsStringListOfValue(toggled);
      assert FieldIs("id", postId)(liked);
      FirstPostKept(posts, postId, i, liked);
    }
  }

  /** Replacing the first matching post by another with the same id keeps it the first match. */
  lemma FirstPostKept(posts: seq<Value>, postId: string, i: nat, v: Value)
    requires FirstPost(posts, postId) == Some(i) && FieldIs("id", postId)(v)
    ensures FirstPost(posts[i := v], postId) == Some(i)
  {
    var after := posts[i := v];
    assert forall j :: 0 <= j < i ==> after[j] == posts[j];
    assert FieldIs("id", postId)(after[i]);
    var r := FirstPost(after, postId);
    assert r.Some?;
    assert !(r.value < i) && !(r.value > i);
  }

  /** `ISO8601DateFormatter` in both directions, as a pair of parameters. */
  datatype DateCodec = DateCodec(format: int -> string, parse: string -> Option<int>)

  /** The parser reads back what the formatter writes. */
  predicate RoundTrips(dates: DateCodec, t: int) {
    dates.parse(dates.format(t)) == Some(t)
  }

  /**
   * The fields both comment decoders require: `id`, `creatorId`,
   * `creatorUsername`, `postId` and `text` strings and a parsable
   * `createdAt`.  The reference is left unset here.
   */
  function CommentFields(v: Value, dates: DateCodec): (c: Option<Comment>)
    ensures c.Some? <==>
      v.Obj? && StringField(v.fields, "id").Some? && StringField(v.fields, "creatorId").Some? &&
      StringField(v.fields, "creatorUsername").Some? && StringField(v.fields, "postId").Some? &&
      StringField(v.fields, "createdAt").Some? && dates.parse(StringField(v.fields, "createdAt").value).Some? &&
      StringField(v.fields, "text").Some?
    ensures c.Some? ==>
      Some(c.value.id) == StringField(v.fields, "id") && Some(c.value.creatorId) == StringField(v.fields, "creatorId") &&
      Some(c.value.postId) == StringField(v.fields, "postId") && Some(c.value.text) == StringField(v.fields, "text") &&
      Some(c.value.createdAt) == dates.parse(StringField(v.fields, "createdAt").value) &&
      c.value.referenceComment.None?
  {
    if !v.Obj? then None
    else
      var d := v.fields;
      if StringField(d, "id").Some? && StringField(d, "creatorId").Some? && StringField(d, "creatorUsername").Some? &&
         StringField(d, "postId").Some? && StringField(d, "createdAt").Some? && StringField(d, "text").Some? &&
         dates.parse(StringField(d, "createdAt").value).Some?
      then
        Some(Comment(StringField(d, "id").value, StringField(d, "creatorId").value, StringField(d, "postId").value,
                     dates.parse(StringField(d, "createdAt").value).value, StringField(d, "text").value, None))
      else None
  }

  /** `getComments`' reading of a record: a string `referenceCommentId` is kept as it is, "" included. */
  function DecodeListedComment(v: Value, dates: DateCodec): (c: Option<Comment>)
    ensures c.Some? <==> CommentFields(v, dates).Some?
    ensures c.Some? ==> c.value.(referenceComment := None) == CommentFields(v, dates).value &&
                        c.value.referenceComment == StringField(v.fields, "referenceCommentId")
  {
    match CommentFields(v, dates)
    case None => None
    case Some(c) => Some(c.(referenceComment := StringField(v.fields, "referenceCommentId")))
  }

  /** `(s).flatMap { $0.isEmpty ? nil : $0 }`: the empty reference means none. */
  function NonEmptyReference(s: Option<string>): (r: Option<string>)
    ensures r == Some("") ==> false
    ensures s.Some? && s.value != "" ==> r == s
    ensures s.None? || s == Some("") ==> r.None?
  {
    if s == Some("") then None else s
  }

  /** `getCommentById`'s reading of a record: an empty `referenceCommentId` is no reference. */
  function DecodeCommentById(v: Value, dates: DateCodec): (c: Option<Comment>)
    ensures c.Some? <==> CommentFields(v, dates).Some?
    ensures c.Some? ==> c.value.(referenceComment := None) == CommentFields(v, dates).value &&
                        c.value.referenceComment == NonEmptyReference(StringField(v.fields, "referenceCommentId"))
  {
    match CommentFields(v, dates)
    case None => None
    case Some(c) => Some(c.(referenceComment := NonEmptyReference(StringField(v.fields, "referenceCommentId"))))
  }

  /**
   * `getComments`' reading with the empty reference treated as
   * `getCommentById` treats it, so that a comment written without a
   * reference reads back without one.
   */
  function DecodeListedCommentCorrected(v: Value, dates: DateCodec): (c: Option<Comment>)
    ensures c == DecodeCommentById(v, dates)
  {
    match DecodeListedComment(v, dates)
    case None => None
    case Some(c) => Some(c.(referenceComment := NonEmptyReference(c.referenceComment)))
  }

  /** The record `createComment` writes; a missing display name is written as "Unknown". */
  function CommentRecord(commentId: string, user: AuthUser, postId: string, createdAt: string, text: string,
                         referenceCommentId: Option<string>): Record {
    map["id" := Str(commentId),
        "creatorId" := Str(user.uid),
        "creatorUsername" := Str(user.displayName.GetOr("Unknown")),
        "postId" := Str(postId),
        "createdAt" := Str(createdAt),
        "text" := Str(text),
        "referenceCommentId" := Str(referenceCommentId.GetOr(""))]
  }

  /** A written comment reads back through `getCommentById`, its optional reference included. */
  lemma CommentByIdRoundTrip(commentId: string, user: AuthUser, postId: string, now: int, text: string,
                             ref: Option<string>, dates: DateCodec)
    requires RoundTrips(dates, now) && ref != Some("")
    ensures DecodeCommentById(Obj(CommentRecord(commentId, user, postId, dates.format(now), text, ref)), dates) ==
            Some(Comment(commentId, user.uid, postId, now, text, ref))
  {
  }

  /** The corrected listing reads a written comment back the same way. */
  lemma ListedCommentCorrectedRoundTrip(commentId: string, user: AuthUser, postId: string, now: int, text: string,
                                        ref: Option<string>, dates: DateCodec)
    requires RoundTrips(dates, now) && ref != Some("")
    ensures DecodeListedCommentCorrected(Obj(CommentRecord(commentId, user, postId, dates.format(now), text, ref)), dates) ==
            Some(Comment(commentId, user.uid, postId, now, text, ref))
  {
    CommentByIdRoundTrip(commentId, user, postId, now, text, ref, dates);
  }

  /** As written, the listing reads a written comment back with its stored reference, "" for none. */
  lemma ListedCommentRoundTrip(commentId: string, user: AuthUser, postId: string, now: int, text: string,
                               ref: Option<string>, dates: DateCodec)
    requires RoundTrips(dates, now)
    ensures DecodeListedComment(Obj(CommentRecord(commentId, user, postId, dates.format(now), text, ref)), dates) ==
            Some(Comment(commentId, user.uid, postId, now, text, Some(ref.GetOr(""))))
  {
  }

  /** As written, `getComments` reads a comment written without a reference as a reply to "". */
  lemma ListedTopLevelCommentGainsReference(commentId: string, user: AuthUser, postId: string, now: int,
                                            text: string, dates: DateCodec)
    requires RoundTrips(dates, now)
    ensures DecodeListedComment(Obj(CommentRecord(commentId, user, postId, dates.format(now), text, None)), dates) ==
            Some(Comment(commentId, user.uid, postId, now, text, Some("")))
  {
  }

  /**
   * `getPosts`' reading of a record: `id`, `creatorId`, `creatorUsername`,
   * `imagePath`, `reference` and `description` strings and a parsable
   * `createdAt` are required; a missing or ill-typed `likedBy` is empty;
   * the `comments` objects the JSON decoder accepts are kept.
   */
  function DecodePost(v: Value, dates: DateCodec, decodeComment: Record -> Option<Comment>): (p: Option<Post>)
    ensures p.Some? <==>
      v.Obj? && StringField(v.fields, "id").Some? && StringField(v.fields, "creatorId").Some? &&
      StringField(v.fields, "creatorUsername").Some? && StringField(v.fields, "createdAt").Some? &&
      dates.parse(StringField(v.fields, "createdAt").value).Some? &&
      StringField(v.fields, "imagePath").Some? && StringField(v.fields, "reference").Some? &&
      StringField(v.fields, "description").Some?
    ensures p.Some? ==>
      Some(p.value.id) == StringField(v.fields, "id") && Some(p.value.creatorId) == StringField(v.fields, "creatorId") &&
      Some(p.value.creatorUsername) == StringField(v.fields, "creatorUsername") &&
      Some(p.value.createdAt) == dates.parse(StringField(v.fields, "createdAt").value) &&
      Some(p.value.imagePath) == StringField(v.fields, "imagePath") &&
      Some(p.value.reference) == StringField(v.fields, "reference") &&
      Some(p.value.description) == StringField(v.fields, "description")
    ensures p.Some? ==> p.value.likedBy == StringListField(v.fields, "likedBy")
    ensures p.Some? ==> p.value.comments == FilterMap(EmbeddedComments(v.fields), decodeComment)
  {
    if !v.Obj? then None
    else
      var d := v.fields;
      if StringField(d, "id").Some? && StringField(d, "creatorId").Some? && StringField(d, "creatorUsername").Some? &&
         StringField(d, "createdAt").Some? && StringField(d, "imagePath").Some? && StringField(d, "reference").Some? &&
         StringField(d, "description").Some? && dates.parse(StringField(d, "createdAt").value).Some?
      then
        var likedBy := StringListField(d, "likedBy");
        var commentsData := EmbeddedComments(d);
        Some(Post(StringField(d, "id").value, StringField(d, "creatorId").value, StringField(d, "creatorUsername").value,
                  dates.parse(StringField(d, "createdAt").value).value, StringField(d, "imagePath").value,
                  StringField(d, "reference").value, likedBy, StringField(d, "description").value,
                  FilterMap(commentsData, decodeComment)))
      else None
  }

  /** `dict["comments"] as? [[String: Any]] ?? []` */
  function EmbeddedComments(d: Record): (l: seq<Record>)
    ensures "comments" in d && AsRecordList(d["comments"]).Some? ==> l == AsRecordList(d["comments"]).value
    ensures !("comments" in d && AsRecordList(d["comments"]).Some?) ==> l == []
  {
    if "comments" in d then RecordListOrEmpty(d["comments"]) else []
  }

  /** The record `createPost` writes: no `likedBy` and no `comments`. */
  function PostRecord(postId: string, user: AuthUser, createdAt: string, imagePath: string, reference: string,
                      description: string): Record {
    map["id" := Str(postId),
        "creatorId" := Str(user.uid),
        "creatorUsername" := Str(user.displayName.GetOr("Unknown")),
        "createdAt" := Str(createdAt),
        "imagePath" := Str(imagePath),
        "reference" := Str(reference),
        "description" := Str(description)]
  }

  /** A new post reads back with nobody's like and no comments. */
  lemma NewPostReadsBack(postId: string, user: AuthUser, now: int, imagePath: string, reference: string,
                         description: string, dates: DateCodec, decodeComment: Record -> Option<Comment>)
    requires RoundTrips(dates, now)
    ensures DecodePost(Obj(PostRecord(postId, user, dates.format(now), imagePath, reference, description)),
                       dates, decodeComment) ==
            Some(Post(postId, user.uid, user.displayName.GetOr("Unknown"), now, imagePath, reference, [], description, []))
  {
  }

  /** The decoder `getComments` uses, as written: a stored reference is kept, "" included. */
  function ListedCommentDecoder(dates: DateCodec): Value -> Option<Comment> {
    (v: Value) => DecodeListedComment(v, dates)
  }

  /** The corrected decoder: an empty reference is no reference, as in `getCommentById`. */
  function CorrectedListedCommentDecoder(dates: DateCodec): Value -> Option<Comment> {
    (v: Value) => DecodeListedCommentCorrected(v, dates)
  }

  function CommentByIdDecoder(dates: DateCodec): Value -> Option<Comment> {
    (v: Value) => DecodeCommentById(v, dates)
  }

  function PostDecoder(dates: DateCodec, decodeComment: Record -> Option<Comment>): Value -> Option<Post> {
    (v: Value) => DecodePost(v, dates, decodeComment)
  }

  /** The loop `likePost` and `isLiked` share: the position of the first post with that id. */
  method FindPost(posts: seq<Value>, postId: string) returns (index: Option<nat>)
    ensures index == FirstPost(posts, postId)
  {
    var i := 0;
    while i < |posts|
      invariant 0 <= i <= |posts|
      invariant forall j :: 0 <= j < i ==> !FieldIs("id", postId)(posts[j])
    {
      if FieldIs("id", postId)(posts[i]) {
        FirstPostAt(posts, postId, i);
        return Some(i);
      }
      i := i + 1;
    }
    FirstPostNone(posts, postId);
    return None;
  }

  lemma FirstPostAt(posts: seq<Value>, postId: string, i: nat)
    requires i < |posts| && FieldIs("id", postId)(posts[i])
    requires forall j :: 0 <= j < i ==> !FieldIs("id", postId)(posts[j])
    ensures FirstPost(posts, postId) == Some(i)
  {
    var r := FirstPost(posts, postId);
    assert r.Some?;
    assert r.value >= i;
  }

  lemma FirstPostNone(posts: seq<Value>, postId: string)
    requires forall j :: 0 <= j < |posts| ==> !FieldIs("id", postId)(posts[j])
    ensures FirstPost(posts, postId).None?
  {
  }

  /** Every comment `getComments` lists belongs to the post asked for. */
  lemma ListedCommentsBelongToPost(comments: seq<Value>, postId: string, dates: DateCodec)
    ensures forall c :: c in FilterMap(Filter(comments, FieldIs("postId", postId)), ListedCommentDecoder(dates)) ==>
                        c.postId == postId
  {
    var children := Filter(comments, FieldIs("postId", postId));
    forall c | c in FilterMap(children, ListedCommentDecoder(dates)) ensures c.postId == postId {
      var i :| 0 <= i < |children| && ListedCommentDecoder(dates)(children[i]) == Some(c);
      assert FieldIs("postId", postId)(children[i]);
    }
  }

  /**
   * As written, a comment written for a post is listed for it after the
   * ones listed before, with its reference as stored: a comment written
   * without one comes back replying to "".
   */
  lemma CreatedCommentIsListed(comments: seq<Value>, commentId: string, user: AuthUser, postId: string, now: int,
                               text: string, ref: Option<string>, dates: DateCodec)
    requires RoundTrips(dates, now)
    ensures var written := Obj(CommentRecord(commentId, user, postId, dates.format(now), text, ref));
            FilterMap(Filter(comments + [written], FieldIs("postId", postId)), ListedCommentDecoder(dates)) ==
            FilterMap(Filter(comments, FieldIs("postId", postId)), ListedCommentDecoder(dates)) +
            [Comment(commentId, user.uid, postId, now, text, Some(ref.GetOr("")))]
  {
    var written := Obj(CommentRecord(commentId, user, postId, dates.format(now), text, ref));
    var matches := FieldIs("postId", postId);
    var decode := ListedCommentDecoder(dates);
    FilterSnoc(comments, written, matches);
    assert matches(written);
    FilterMapSnoc(Filter(comments, matches), written, decode);
    ListedCommentRoundTrip(commentId, user, postId, now, text, ref, dates);
  }

  /** The listing with the corrected decoder. */
  function CorrectedCommentListing(comments: seq<Value>, postId: string, dates: DateCodec): (r: seq<Comment>)
    ensures forall c :: c in r ==> c.postId == postId && c.referenceComment != Some("")
  {
    var children := Filter(comments, FieldIs("postId", postId));
    var r := FilterMap(children, CorrectedListedCommentDecoder(dates));
    assert forall c :: c in r ==> c.postId == postId && c.referenceComment != Some("") by {
      forall c | c in r ensures c.postId == postId && c.referenceComment != Some("") {
        var i :| 0 <= i < |children| && CorrectedListedCommentDecoder(dates)(children[i]) == Some(c);
        assert FieldIs("postId", postId)(children[i]);
      }
    }
    r
  }

  /**
   * With the corrected decoder, a comment written for a post is listed for
   * it after the ones listed before, and reads back exactly as written.
   */
  lemma CreatedCommentIsListedCorrected(comments: seq<Value>, commentId: string, user: AuthUser, postId: string,
                                        now: int, text: string, ref: Option<string>, dates: DateCodec)
    requires RoundTrips(dates, now) && ref != Some("")
    ensures var written := Obj(CommentRecord(commentId, user, postId, dates.format(now), text, ref));
            CorrectedCommentListing(comments + [written], postId, dates) ==
            CorrectedCommentListing(comments, postId, dates) + [Comment(commentId, user.uid, postId, now, text, ref)]
  {
    var written := Obj(CommentRecord(commentId, user, postId, dates.format(now), text, ref));
    var matches := FieldIs("postId", postId);
    var decode := CorrectedListedCommentDecoder(dates);
    FilterSnoc(comments, written, matches);
    assert matches(written);
    FilterMapSnoc(Filter(comments, matches), written, decode);
    ListedCommentCorrectedRoundTrip(commentId, user, postId, now, text, ref, dates);
  }

  /** The comment `getCommentById` finds has the id asked for. */
  lemma CommentByIdHasId(comments: seq<Value>, commentId: string, dates: DateCodec)
    ensures var r := FirstSome(Filter(comments, FieldIs("id", commentId)), CommentByIdDecoder(dates));
            r.Some? ==> r.value.id == commentId
  {
    var children := Filter(comments, FieldIs("id", commentId));
    var r := FirstSome(children, CommentByIdDecoder(dates));
    if r.Some? {
      var i :| 0 <= i < |children| && CommentByIdDecoder(dates)(children[i]) == r &&
               forall j :: 0 <= j < i ==> CommentByIdDecoder(dates)(children[j]).None?;
      assert FieldIs("id", commentId)(children[i]);
    }
  }

  class PostsDatabase {
    /** the children of `posts`, in query order */
    var posts: seq<Value>
    /** the children of `comments`, in query order */
    var comments: seq<Value>

    constructor(posts: seq<Value>, comments: seq<Value>)
      ensures this.posts == posts && this.comments == comments
    {
      this.posts := posts;
      this.comments := comments;
    }

    /** `likePost`: toggles the user in the first matching post's `likedBy`; other posts are untouched. */
    method LikePost(postId: string, userId: string)
      modifies this
      ensures posts == LikedPosts(old(posts), postId, userId) && comments == old(comments)
      ensures FirstPost(old(posts), postId).Some? ==>
        IsLiked(posts, postId, userId) == !IsLiked(old(posts), postId, userId)
    {
      LikeFlipsIsLiked(posts, postId, userId);
      var index := FindPost(posts, postId);
      if index.Some? {
        var i := index.value;
        var postData := posts[i].fields;
        var likedBy := LikedByOf(postData);
        if userId in likedBy {
          likedBy := Filter(likedBy, NotUser(userId));
        } else {
          likedBy := likedBy + [userId];
        }
        posts := posts[i := Obj(postData["likedBy" := StringListValue(likedBy)])];
      }
    }

    /** `isLiked`, reading the first matching post. */
    method CheckIsLiked(postId: string, userId: string) returns (liked: bool)
      ensures liked == IsLiked(posts, postId, userId)
    {
      var index := FindPost(posts, postId);
      if index.None? {
        return false;
      }
      var likedBy := LikedByOf(posts[index.value].fields);
      return userId in likedBy;
    }

    /**
     * `getComments`: the post's comments with every required field, in
     * query order, each with its stored reference ("" included).
     */
    method GetComments(postId: string, dates: DateCodec) returns (result: seq<Comment>)
      ensures result == FilterMap(Filter(comments, FieldIs("postId", postId)), ListedCommentDecoder(dates))
      ensures forall c :: c in result ==> c.postId == postId
    {
      result := CompactMap(Filter(comments, FieldIs("postId", postId)), ListedCommentDecoder(dates));
      ListedCommentsBelongToPost(comments, postId, dates);
    }

    /** `getCommentById`: the first comment with that id and every required field. */
    method GetCommentById(commentId: string, dates: DateCodec) returns (result: Option<Comment>)
      ensures result == FirstSome(Filter(comments, FieldIs("id", commentId)), CommentByIdDecoder(dates))
      ensures result.Some? ==> result.value.id == commentId
    {
      result := FirstDecoded(Filter(comments, FieldIs("id", commentId)), CommentByIdDecoder(dates));
      CommentByIdHasId(comments, commentId, dates);
    }

    /** `getPosts`: the posts with every required field, in snapshot order. */
    method GetPosts(dates: DateCodec, decodeComment: Record -> Option<Comment>) returns (result: seq<Post>)
      ensures result == FilterMap(posts, PostDecoder(dates, decodeComment))
    {
      result := CompactMap(posts, PostDecoder(dates, decodeComment));
    }

    /** `createComment`: with a signed-in user, one new comment record is appended. */
    method CreateComment(currentUser: Option<AuthUser>, commentId: string, postId: string, now: int, text: string,
                         referenceCommentId: Option<string>, dates: DateCodec)
      modifies this
      ensures posts == old(posts)
      ensures currentUser.None? ==> comments == old(comments)
      ensures currentUser.Some? ==>
        comments == old(comments) + [Obj(CommentRecord(commentId, currentUser.value, postId, dates.format(now), text,
                                                       referenceCommentId))]
    {
      if currentUser.None? {
        return;
      }
      var commentData := CommentRecord(commentId, currentUser.value, postId, dates.format(now), text, referenceCommentId);
      comments := comments + [Obj(commentData)];
    }

    /** `createPost`, once the image is stored at `imagePath`. */
    method CreatePost(currentUser: Option<AuthUser>, postId: string, now: int, imagePath: string, reference: string,
                      description: string, dates: DateCodec)
      modifies this
      ensures comments == old(comments)
      ensures currentUser.None? ==> posts == old(posts)
      ensures currentUser.Some? ==>
        posts == old(posts) + [Obj(PostRecord(postId, currentUser.value, dates.format(now), imagePath, reference,
                                              description))]
    {
      if currentUser.None? {
        return;
      }
      var postData := PostRecord(postId, currentUser.value, dates.format(now), imagePath, reference, description);
      posts := posts + [Obj(postData)];
    }
  }
}
