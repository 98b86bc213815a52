/**
 * The profile screen: avatar initials, and the add-friend form with its
 * username suggestions.
 */
module ProfileView {
  import opened Wrappers
  import opened Seqs
  import opened Text
  import opened Records
  import opened UserService
  import CommentView

  predicate NonEmpty(w: string) { w != [] }

  /** `split(separator: " ")`: the non-empty pieces between spaces. */
  function Words(name: string): (ws: seq<string>)
    ensures forall i :: 0 <= i < |ws| ==> ws[i] != [] && ' ' !in ws[i]
  {
    var ws := Filter(Split(name, ' '), NonEmpty);
    assert forall w :: w in ws ==> w in Split(name, ' ');
    ws
  }

  /**
   * `initials(from:)`, both copies (the profile avatar and the friend
   * row avatar): the uppercased first letter of every word, in order.
   */
  function ProfileInitials(name: string): (r: string)
    ensures |r| == |Words(name)|
    ensures forall i :: 0 <= i < |r| ==> !IsLower(r[i])
  {
    var ws := Words(name);
    seq(|ws|, i requires 0 <= i < |ws| => ToUpper(ws[i][0]))
  }

  /** Some piece between spaces is non-empty exactly when some character is not a space. */
  lemma {:induction false} SplitHasWord(s: string)
    ensures (exists i :: 0 <= i < |Split(s, ' ')| && Split(s, ' ')[i] != []) <==>
            (exists j :: 0 <= j < |s| && s[j] != ' ')
    decreases |s|
  {
    if s != [] {
      SplitHasWord(s[1..]);
      var rest := Split(s[1..], ' ');
      var parts := Split(s, ' ');
      assert forall j :: 1 <= j < |s| ==> s[j] == s[1..][j - 1];
      if s[0] == ' ' {
        assert parts == [[]] + rest;
        assert forall i :: 1 <= i < |parts| ==> parts[i] == rest[i - 1];
        if exists j :: 0 <= j < |s| && s[j] != ' ' {
          var j :| 0 <= j < |s| && s[j] != ' ';
          assert s[1..][j - 1] != ' ';
          var i :| 0 <= i < |rest| && rest[i] != [];
          assert parts[i + 1] != [];
        }
      } else {
        assert parts[0] != [];
      }
    }
  }

  /** The initials are empty exactly when the name is empty or all spaces. */
  lemma ProfileInitialsEmpty(name: string)
    ensures ProfileInitials(name) == [] <==> forall j :: 0 <= j < |name| ==> name[j] == ' '
  {
    SplitHasWord(name);
    var parts := Split(name, ' ');
    var ws := Words(name);
    if exists i :: 0 <= i < |parts| && parts[i] != [] {
      var i :| 0 <= i < |parts| && parts[i] != [];
      assert parts[i] in ws;
    }
    if ws != [] {
      assert ws[0] in parts && ws[0] != [];
    }
  }

  /** For words joined by single spaces, the initials are each word's first letter, uppercased. */
  lemma ProfileInitialsOfWords(words: seq<string>)
    requires |words| >= 1 && forall i :: 0 <= i < |words| ==> words[i] != [] && ' ' !in words[i]
    ensures ProfileInitials(Join(words, " ")) == seq(|words|, i requires 0 <= i < |words| => ToUpper(words[i][0]))
  {
    SplitJoin(words, ' ');
    FilterAll(words, NonEmpty);
  }

  /**
   * The comment avatar keeps only the first and the last piece, so the two
   * initials differ once a name has three words.
   */
  lemma InitialsDifferForThreeWords()
    ensures ProfileInitials("Ann Marie Lee") == "AML"
    ensures CommentView.CommentInitials("Ann Marie Lee") == "AL"
  {
    var words := ["Ann", "Marie", "Lee"];
    ThreeWordsJoined();
    ProfileInitialsOfWords(words);
    CommentView.CommentInitialsOfPieces(words);
    var r := seq(|words|, i requires 0 <= i < |words| => ToUpper(words[i][0]));
    assert r[0] == 'A' && r[1] == 'M' && r[2] == 'L';
    assert r == "AML";
    assert CommentView.FirstUpper(words[0]) + CommentView.FirstUpper(words[2]) == "AL";
  }

  lemma ThreeWordsJoined()
    ensures Join(["Ann", "Marie", "Lee"], " ") == "Ann Marie Lee"
    ensures var words := ["Ann", "Marie", "Lee"];
            forall i :: 0 <= i < |words| ==> words[i] != [] && ' ' !in words[i]
  {
    var words := ["Ann", "Marie", "Lee"];
    assert words[1..] == ["Marie", "Lee"] && words[1..][1..] == ["Lee"];
    assert Join(["Lee"], " ") == "Lee";
    assert Join(["Marie", "Lee"], " ") == "Marie Lee";
  }

  /** For one or two words the two avatars agree. */
  lemma InitialsAgreeUpToTwoWords(words: seq<string>)
    requires 1 <= |words| <= 2 && forall i :: 0 <= i < |words| ==> words[i] != [] && ' ' !in words[i]
    ensures ProfileInitials(Join(words, " ")) == CommentView.CommentInitials(Join(words, " "))
  {
    ProfileInitialsOfWords(words);
    CommentView.CommentInitialsOfPieces(words);
  }

  /** `UsernameMatchesView` shows the first five matches. */
  function DisplayedMatches(matches: seq<string>): (shown: seq<string>)
    ensures |shown| <= 5 && |shown| <= |matches| && shown == matches[..|shown|]
    ensures |matches| >= 5 ==> |shown| == 5
    ensures |matches| < 5 ==> shown == matches
  {
    Take(matches, 5)
  }

  /** `(snap.value as? [[String: Any]])?.compactMap { $0["id"] as? String } ?? []` */
  function FriendIds(v: Value): (ids: seq<string>)
    ensures forall id :: id in ids <==>
      AsRecordList(v).Some? && exists i :: 0 <= i < |v.items| && StringField(v.items[i].fields, "id") == Some(id)
  {
    match AsRecordList(v)
    case None => []
    case Some(l) =>
      var ids := FilterMap(l, IdOf);
      assert forall i :: 0 <= i < |l| ==> l[i] == v.items[i].fields;
      ids
  }

  function IdOf(r: Record): Option<string> {
    StringField(r, "id")
  }

  /** The username a matched child contributes, unless it is the user or one of their friends. */
  function MatchOf(currentUserId: string, friendIds: seq<string>): ((string, Value)) -> Option<string> {
    (child: (string, Value)) =>
      var (key, value) := child;
      if value.Obj? && StringField(value.fields, "username").Some? && key != currentUserId && key !in friendIds
      then StringField(value.fields, "username")
      else None
  }

  /** The usernames `fetchUsernameMatches` keeps from the query's children, in snapshot order. */
  function UsernameMatches(children: seq<(string, Value)>, currentUserId: string, friendIds: seq<string>): (r: seq<string>)
    ensures |r| <= |children|
    ensures forall u :: u in r <==>
      exists i :: 0 <= i < |children| && children[i].0 != currentUserId && children[i].0 !in friendIds &&
                  children[i].1.Obj? && StringField(children[i].1.fields, "username") == Some(u)
  {
    FilterMap(children, MatchOf(currentUserId, friendIds))
  }

  /** Matches of a longer snapshot extend the matches of its beginning. */
  lemma UsernameMatchesAppend(a: seq<(string, Value)>, b: seq<(string, Value)>, currentUserId: string, friendIds: seq<string>)
    ensures UsernameMatches(a + b, currentUserId, friendIds) ==
            UsernameMatches(a, currentUserId, friendIds) + UsernameMatches(b, currentUserId, friendIds)
  {
    FilterMapAppend(a, b, MatchOf(currentUserId, friendIds));
  }

  /** The user and their friends never appear among the matches. */
  lemma UsernameMatchesExclude(children: seq<(string, Value)>, currentUserId: string, friendIds: seq<string>, i: nat)
    requires i < |children| && (children[i].0 == currentUserId || children[i].0 in friendIds)
    ensures UsernameMatches([children[i]], currentUserId, friendIds) == []
  {
    assert [children[i]][1..] == [];
  }

  /** A name of spaces alone is not empty, so it enables the add button, yet it trims to nothing. */
  lemma BlankNameEnablesAdd()
    ensures "  " != "" && TrimWhitespace("  ") == []
  {
    assert forall i :: 0 <= i < |"  "| ==> IsWhitespace("  "[i]);
  }

  /** The add-friend form's state. */
  class AddFriendForm {
    var newFriendUsername: string
    var usernameMatches: seq<string>
    var usernameFocused: bool

    constructor()
      ensures newFriendUsername == "" && usernameMatches == [] && !usernameFocused
    {
      newFriendUsername := "";
      usernameMatches := [];
      usernameFocused := false;
    }

    /**
     * The add button is disabled only for an empty field: a disabled button
     * always means a blank name, but a name of spaces alone enables it
     * (`BlankNameEnablesAdd`).
     */
    predicate AddDisabled(): (disabled: bool)
      reads this
      ensures disabled ==> TrimWhitespace(newFriendUsername) == []
      ensures !disabled <==> |newFriendUsername| > 0
    {
      newFriendUsername == ""
    }

    /** The suggestion list is shown while the field is focused, non-empty and has matches. */
    function Shown(): seq<string>
      reads this
    {
      if usernameFocused && newFriendUsername != [] && usernameMatches != [] then DisplayedMatches(usernameMatches) else []
    }

    /**
     * `sendFriendRequest`: with a blank field nothing happens.  Otherwise
     * the trimmed name is looked up, a request is sent to the user found,
     * if any, and the field is cleared.
     */
    method SendFriendRequest(db: FriendsDatabase, currentUid: Option<string>, now: int)
      returns (sentTo: Option<string>)
      modifies this, db
      ensures usernameMatches == old(usernameMatches) && usernameFocused == old(usernameFocused)
      ensures db.users == old(db.users)
      ensures TrimWhitespace(old(newFriendUsername)) == [] ==>
        sentTo.None? && newFriendUsername == old(newFriendUsername) && db.requests == old(db.requests)
      ensures TrimWhitespace(old(newFriendUsername)) != [] ==> newFriendUsername == ""
      ensures sentTo.Some? ==>
        sentTo.value in db.users &&
        StringField(db.users[sentTo.value], "username") == Some(TrimWhitespace(old(newFriendUsername))) &&
        db.requests == (if currentUid.Some? then old(db.requests)[(currentUid.value, sentTo.value) := Num(now)]
                        else old(db.requests))
      ensures TrimWhitespace(old(newFriendUsername)) != [] && sentTo.None? ==>
        db.requests == old(db.requests) &&
        forall k :: k in db.users ==> StringField(db.users[k], "username") != Some(TrimWhitespace(old(newFriendUsername)))
    {
      sentTo := None;
      var trimmedUsername := TrimWhitespace(newFriendUsername);
      if trimmedUsername == [] {
        return;
      }
      var friendId := db.UserIdIfExists(trimmedUsername);
      if friendId.Some? {
        db.SendFriendRequest(currentUid, friendId.value, now);
        sentTo := friendId;
      }
      newFriendUsername := "";
    }

    /**
     * `fetchUsernameMatches`, given the signed-in user and the children
     * the username query returned.  An empty query clears the matches; no
     * signed-in user leaves them; otherwise the matches are the children's
     * usernames, the user and their friends excluded.
     */
    method FetchUsernameMatches(query: string, currentUid: Option<string>, db: FriendsDatabase,
                                children: seq<(string, Value)>)
      modifies this
      ensures newFriendUsername == old(newFriendUsername) && usernameFocused == old(usernameFocused)
      ensures query == [] ==> usernameMatches == []
      ensures query != [] && currentUid.None? ==> usernameMatches == old(usernameMatches)
      ensures query != [] && currentUid.Some? ==>
        usernameMatches == UsernameMatches(children, currentUid.value, FriendIds(StoredFriends(db.users, currentUid.value)))
    {
      if query == [] {
        usernameMatches := [];
        return;
      }
      if currentUid.None? {
        return;
      }
      var currentUserId := currentUid.value;
      var currentFriendIds := FriendIds(StoredFriends(db.users, currentUserId));
      var results := CollectMatches(children, currentUserId, currentFriendIds);
      usernameMatches := results;
    }

    /** Tapping a shown suggestion copies it into the field and ends editing. */
    method SelectMatch(i: nat)
      requires i < |Shown()|
      modifies this
      ensures newFriendUsername == old(Shown())[i] && newFriendUsername in old(usernameMatches)
      ensures !usernameFocused && usernameMatches == old(usernameMatches)
    {
      var match_ := Shown()[i];
      assert match_ == usernameMatches[i];
      newFriendUsername := match_;
      usernameFocused := false;
    }
  }

  /** The loop of `fetchUsernameMatches` over the query's children. */
  method CollectMatches(children: seq<(string, Value)>, currentUserId: string, currentFriendIds: seq<string>)
    returns (results: seq<string>)
    ensures results == UsernameMatches(children, currentUserId, currentFriendIds)
  {
    results := [];
    for i := 0 to |children|
      invariant results == UsernameMatches(children[..i], currentUserId, currentFriendIds)
    {
      ghost var before := results;
      var (key, value) := children[i];
      if value.Obj? {
        var username := StringField(value.fields, "username");
        if username.Some? && key != currentUserId && key !in currentFriendIds {
          results := results + [username.value];
        }
      }
      assert results == before + MatchList(children[i], currentUserId, currentFriendIds);
      MatchStep(children, i, currentUserId, currentFriendIds);
    }
    assert children[..|children|] == children;
  }

  /** What one child contributes to the matches. */
  function MatchList(child: (string, Value), currentUserId: string, friendIds: seq<string>): seq<string> {
    match MatchOf(currentUserId, friendIds)(child)
    case Some(u) => [u]
    case None => []
  }

  lemma MatchStep(children: seq<(string, Value)>, i: nat, currentUserId: string, friendIds: seq<string>)
    requires i < |children|
    ensures UsernameMatches(children[..i + 1], currentUserId, friendIds) ==
            UsernameMatches(children[..i], currentUserId, friendIds) + MatchList(children[i], currentUserId, friendIds)
  {
    OneChildMatch(children[i], currentUserId, friendIds);
    UsernameMatchesAppend(children[..i], [children[i]], currentUserId, friendIds);
    assert children[..i] + [children[i]] == children[..i + 1];
  }

  lemma OneChildMatch(child: (string, Value), currentUserId: string, friendIds: seq<string>)
    ensures UsernameMatches([child], currentUserId, friendIds) == MatchList(child, currentUserId, friendIds)
  {
    assert [child][1..] == [];
  }
}
