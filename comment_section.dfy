/**
 * `CommentSectionView`: the comment list under a post and the composer
 * below it.  The state the view keeps (`@State`) is the fields of
 * `CommentSection`; the handlers are its methods.
 */
module CommentSection {
  import opened Wrappers
  import opened Text
  import opened Ordering
  import opened Models

  /** the stand-in for the signed-in user */
  const CurrentUserId := "currentUserId"
  const CurrentUsername := "You"

  /** the placeholder names shown for known creator ids */
  const MockNames: map<string, string> := map[
    "user1" := "Sarah Chen",
    "user2" := "Michael Johnson",
    "user3" := "Emily Davis",
    "user4" := "David Kim",
    "user5" := "Rachel Adams"]

  /** `getUsernameForComment` */
  function UsernameForComment(comment: Comment): (name: string)
    ensures name == CurrentUsername <==> comment.creatorId == CurrentUserId
    ensures name == "Anonymous" <==> comment.creatorId != CurrentUserId && comment.creatorId !in MockNames
    ensures comment.creatorId != CurrentUserId && comment.creatorId in MockNames ==>
              name == MockNames[comment.creatorId]
  {
    if comment.creatorId == CurrentUserId then CurrentUsername
    else if comment.creatorId in MockNames then MockNames[comment.creatorId]
    else "Anonymous"
  }

  /** the order `sortedComments` compares on */
  function CreatedAtKey(c: Comment): seq<int> {
    [c.createdAt]
  }

  /** `sortedComments`: the comments, oldest first. */
  function SortedComments(comments: seq<Comment>): (sorted: seq<Comment>)
    ensures multiset(sorted) == multiset(comments)
    ensures forall i, j :: 0 <= i < j < |sorted| ==> sorted[i].createdAt <= sorted[j].createdAt
  {
    var sorted := SortByKey(comments, CreatedAtKey);
    forall i, j | 0 <= i < j < |sorted| ensures sorted[i].createdAt <= sorted[j].createdAt {
      assert LexLe(CreatedAtKey(sorted[i]), CreatedAtKey(sorted[j]));
      assert [sorted[i].createdAt][1..] == [];
    }
    sorted
  }

  /** Adding a comment newer than all the others puts it last in the sorted list. */
  lemma NewestSortsLast(comments: seq<Comment>, c: Comment)
    requires forall i :: 0 <= i < |comments| ==> comments[i].createdAt < c.createdAt
    ensures var sorted := SortedComments(comments + [c]);
            |sorted| == |comments| + 1 && sorted[|comments|] == c
  {
    var all := comments + [c];
    var sorted := SortedComments(all);
    SameElements(sorted, all);
    var last := sorted[|comments|];
    LastIsNewest(sorted, c);
    assert forall x :: x in comments ==> x.createdAt < c.createdAt;
    assert last in all;
  }

  lemma SameElements(a: seq<Comment>, b: seq<Comment>)
    requires multiset(a) == multiset(b)
    ensures |a| == |b| && forall x :: x in a <==> x in b
  {
    assert |multiset(a)| == |multiset(b)|;
    forall x ensures x in a <==> x in b {
      assert x in a <==> x in multiset(a);
      assert x in b <==> x in multiset(b);
    }
  }

  lemma LastIsNewest(sorted: seq<Comment>, c: Comment)
    requires c in sorted
    requires forall i, j :: 0 <= i < j < |sorted| ==> sorted[i].createdAt <= sorted[j].createdAt
    ensures c.createdAt <= sorted[|sorted| - 1].createdAt
  {
    var k :| 0 <= k < |sorted| && sorted[k] == c;
    if k < |sorted| - 1 {
      assert sorted[k].createdAt <= sorted[|sorted| - 1].createdAt;
    }
  }

  class CommentSectionState {
    const postId: string
    var comments: seq<Comment>
    var newCommentText: string
    /** the id of the comment being replied to */
    var replyingTo: Option<string>
    var showingTextField: bool

    constructor(postId: string)
      ensures this.postId == postId && comments == [] && newCommentText == "" &&
              replyingTo.None? && !showingTextField
    {
      this.postId := postId;
      comments := [];
      newCommentText := "";
      replyingTo := None;
      showingTextField := false;
    }

    /** The send button is disabled exactly when the text is blank. */
    function SendDisabled(): (disabled: bool)
      reads this
      ensures disabled <==> forall i :: 0 <= i < |newCommentText| ==> IsWhitespace(newCommentText[i])
    {
      TrimWhitespace(newCommentText) == []
    }

    /** Typing into the composer. */
    method EditText(text: string)
      modifies this
      ensures newCommentText == text
      ensures comments == old(comments) && replyingTo == old(replyingTo) && showingTextField == old(showingTextField)
    {
      newCommentText := text;
    }

    /** Tapping the text field shows it. */
    method TapTextField()
      modifies this
      ensures showingTextField
      ensures comments == old(comments) && newCommentText == old(newCommentText) && replyingTo == old(replyingTo)
    {
      showingTextField := true;
    }

    /** `handleReply(to:)` */
    method HandleReply(comment: Comment)
      modifies this
      ensures replyingTo == Some(comment.id) && showingTextField
      ensures comments == old(comments) && newCommentText == old(newCommentText)
    {
      replyingTo := Some(comment.id);
      showingTextField := true;
    }

    /** the reply indicator's cancel action */
    method CancelReply()
      modifies this
      ensures replyingTo.None? && !showingTextField
      ensures comments == old(comments) && newCommentText == old(newCommentText)
    {
      replyingTo := None;
      showingTextField := false;
    }

    /**
     * `submitComment`, given the new comment's id and the current time:
     * blank text changes nothing; otherwise the trimmed text is appended as
     * a comment by the current user replying to `replyingTo`, and the
     * composer is reset.
     */
    method SubmitComment(newId: string, now: int)
      modifies this
      ensures TrimWhitespace(old(newCommentText)) == [] ==>
        comments == old(comments) && newCommentText == old(newCommentText) &&
        replyingTo == old(replyingTo) && showingTextField == old(showingTextField)
      ensures TrimWhitespace(old(newCommentText)) != [] ==>
        comments == old(comments) +
          [Comment(newId, CurrentUserId, postId, now, TrimWhitespace(old(newCommentText)), old(replyingTo))] &&
        newCommentText == "" && replyingTo.None? && !showingTextField
    {
      var trimmedText := TrimWhitespace(newCommentText);
      if trimmedText == [] {
        return;
      }
      Post(Comment(newId, CurrentUserId, postId, now, trimmedText, replyingTo));
    }

    /** The end of `submitComment`: the comment is appended and the composer reset. */
    method Post(newComment: Comment)
      modifies this
      ensures comments == old(comments) + [newComment]
      ensures newCommentText == "" && replyingTo.None? && !showingTextField
    {
      comments := comments + [newComment];
      newCommentText := "";
      replyingTo := None;
      showingTextField := false;
    }
  }

  /** Replying, typing and sending posts a reply to the chosen comment, with the composer reset. */
  method ReplyThenSubmit(s: CommentSectionState, target: Comment, text: string, newId: string, now: int)
    requires exists i :: 0 <= i < |text| && !IsWhitespace(text[i])
    modifies s
    ensures s.comments == old(s.comments) + [Comment(newId, CurrentUserId, s.postId, now, TrimWhitespace(text), Some(target.id))]
    ensures s.newCommentText == "" && s.replyingTo.None? && !s.showingTextField
    ensures TrimWhitespace(text) != []
  {
    s.HandleReply(target);
    s.EditText(text);
    s.SubmitComment(newId, now);
  }
}
