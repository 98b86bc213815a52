/**
 * `OrmaUser`: the signed-in user's profile as the app holds it, the
 * username derived from the display name, and the loading of the stored
 * profile (`refreshUserData`).
 */
module OrmaUsers {
  import opened Wrappers
  import opened Seqs
  import opened Text
  import opened Records
  import opened Models

  /**
   * `components(separatedBy: set)`: the pieces between characters of the
   * set, empty pieces included.
   */
  function SplitWhere(s: string, isSep: char -> bool): (parts: seq<string>)
    ensures |parts| >= 1
    ensures forall i, j :: 0 <= i < |parts| && 0 <= j < |parts[i]| ==> !isSep(parts[i][j])
    decreases |s|
  {
    if s == [] then [[]]
    else
      var rest := SplitWhere(s[1..], isSep);
      if isSep(s[0]) then [[]] + rest
      else
        var head := [s[0]] + rest[0];
        assert forall j :: 1 <= j < |head| ==> head[j] == rest[0][j - 1];
        [head] + rest[1..]
  }

  /** Cutting at the separators and gluing the pieces back is deleting the separators. */
  lemma {:induction false} JoinSplitWhereIsFilter(s: string)
    ensures Join(SplitWhere(s, NotAlnum), "") == Filter(s, IsAlnum)
    decreases |s|
  {
    if s != [] {
      JoinSplitWhereIsFilter(s[1..]);
      FilterHead(s, IsAlnum);
      JoinSplitWhereHead(s);
    }
  }

  lemma FilterHead(s: string, p: char -> bool)
    requires s != []
    ensures Filter(s, p) == (if p(s[0]) then [s[0]] else []) + Filter(s[1..], p)
  {
  }

  /** Gluing the pieces of `s` is its first character, if kept, before the glued pieces of the rest. */
  lemma JoinSplitWhereHead(s: string)
    requires s != []
    ensures Join(SplitWhere(s, NotAlnum), "") ==
            (if NotAlnum(s[0]) then [] else [s[0]]) + Join(SplitWhere(s[1..], NotAlnum), "")
  {
    var rest := SplitWhere(s[1..], NotAlnum);
    if NotAlnum(s[0]) {
      assert SplitWhere(s, NotAlnum) == [[]] + rest;
      assert ([[]] + rest)[1..] == rest;
    } else {
      assert SplitWhere(s, NotAlnum) == [[s[0]] + rest[0]] + rest[1..];
      assert rest == [rest[0]] + rest[1..];
      JoinConsHead([s[0]], rest[0], rest[1..], "");
    }
  }

  /**
   * The username `init` derives: the display name with every
   * non-alphanumeric character deleted, or "User" without a display name.
   */
  function DeriveUsername(displayName: Option<string>): string {
    match displayName
    case None => "User"
    case Some(d) => Join(SplitWhere(d, NotAlnum), "")
  }

  /** The derived username keeps exactly the alphanumerics of the display name, in order. */
  lemma DeriveUsernameKeepsAlnums(d: string)
    ensures var u := DeriveUsername(Some(d));
      u == Filter(d, IsAlnum) &&
      (forall i :: 0 <= i < |u| ==> IsAlnum(u[i])) &&
      (forall c :: c in u <==> c in d && IsAlnum(c)) &&
      IsSubseq(u, d)
  {
    JoinSplitWhereIsFilter(d);
    FilterIsSubseq(d, IsAlnum);
  }

  /** Deriving a username from a derived username changes nothing. */
  lemma DeriveUsernameIdempotent(d: string)
    ensures DeriveUsername(Some(DeriveUsername(Some(d)))) == DeriveUsername(Some(d))
  {
    JoinSplitWhereIsFilter(d);
    JoinSplitWhereIsFilter(Filter(d, IsAlnum));
    FilterIdempotent(d, IsAlnum);
  }

  /** Without a display name, both names fall back to "User", which derivation leaves as it is. */
  lemma DefaultNamesAgree()
    ensures DeriveUsername(None) == "User"
    ensures DeriveUsername(Some("User")) == "User"
  {
    var name := "User";
    JoinSplitWhereIsFilter(name);
    assert forall i :: 0 <= i < |name| ==> IsAlnum(name[i]);
    FilterAll(name, IsAlnum);
  }

  /** The display name `init` shows. */
  function DisplayNameOf(u: AuthUser): string {
    u.displayName.GetOr("User")
  }

  /** A `friends` entry: `id`, `displayName` and `username` must all be strings. */
  function DecodeFriend(r: Record): (f: Option<OrmaFriend>)
    ensures f.Some? <==> StringField(r, "id").Some? && StringField(r, "displayName").Some? &&
                         StringField(r, "username").Some?
    ensures f.Some? ==> r["id"] == Str(f.value.id) && r["displayName"] == Str(f.value.displayName) &&
                        r["username"] == Str(f.value.username)
  {
    match (StringField(r, "id"), StringField(r, "displayName"), StringField(r, "username"))
    case (Some(id), Some(displayName), Some(username)) => Some(OrmaFriend(id, displayName, username))
    case _ => None
  }

  /** The entry `addFriend` writes for a friend. */
  function FriendRecord(f: OrmaFriend): Record {
    map["id" := Str(f.id), "displayName" := Str(f.displayName), "username" := Str(f.username)]
  }

  lemma DecodeFriendRecord(f: OrmaFriend)
    ensures DecodeFriend(FriendRecord(f)) == Some(f)
  {
  }

  /** The friends of a stored list: incomplete entries dropped, the rest in list order. */
  function DecodeFriends(l: seq<Record>): (fs: seq<OrmaFriend>)
    ensures |fs| <= |l|
    ensures forall f :: f in fs <==> exists i :: 0 <= i < |l| && DecodeFriend(l[i]) == Some(f)
  {
    FilterMap(l, DecodeFriend)
  }

  /** Decoding a list of written entries gives back the friends, in order. */
  lemma {:induction false} DecodeFriendRecords(fs: seq<OrmaFriend>)
    ensures DecodeFriends(seq(|fs|, i requires 0 <= i < |fs| => FriendRecord(fs[i]))) == fs
    decreases |fs|
  {
    var l := seq(|fs|, i requires 0 <= i < |fs| => FriendRecord(fs[i]));
    if fs != [] {
      DecodeFriendRecords(fs[1..]);
      assert l[1..] == seq(|fs[1..]|, i requires 0 <= i < |fs[1..]| => FriendRecord(fs[1..][i]));
      DecodeFriendRecord(fs[0]);
      assert fs == [fs[0]] + fs[1..];
    }
  }

  /** Decoding the entries of two lists one after the other. */
  lemma DecodeFriendsAppend(a: seq<Record>, b: seq<Record>)
    ensures DecodeFriends(a + b) == DecodeFriends(a) + DecodeFriends(b)
  {
    FilterMapAppend(a, b, DecodeFriend);
  }

  /** The profile written when none is stored yet. */
  function DefaultProfile(displayName: string, username: string): (r: Record)
    ensures StringField(r, "displayName") == Some(displayName)
    ensures StringField(r, "username") == Some(username)
    ensures "friends" in r && AsRecordList(r["friends"]) == Some([])
  {
    map["displayName" := Str(displayName), "username" := Str(username), "friends" := Arr([])]
  }

  /** `OrmaUser` */
  class OrmaUserModel {
    var firebaseUser: Option<AuthUser>
    var username: string
    var friends: seq<OrmaFriend>
    var displayName: string

    /** `init()`, given the account signed in at launch, if any. */
    constructor(currentUser: Option<AuthUser>)
      ensures firebaseUser == currentUser && friends == []
      ensures currentUser.Some? ==> displayName == DisplayNameOf(currentUser.value) &&
                                    username == DeriveUsername(currentUser.value.displayName)
      ensures currentUser.None? ==> displayName == "" && username == ""
    {
      firebaseUser := currentUser;
      username := "";
      friends := [];
      displayName := "";
      if currentUser.Some? {
        displayName := DisplayNameOf(currentUser.value);
        username := DeriveUsername(currentUser.value.displayName);
      }
    }

    predicate IsLoggedIn()
      reads this
    {
      firebaseUser.Some?
    }

    /**
     * `refreshUserData`, given the value stored at `users/<uid>` (`Null`
     * when there is none).  A stored profile overwrites each field it holds
     * in the right type; otherwise the default profile is returned as the
     * record to write.  Without a signed-in user nothing happens.
     */
    method RefreshUserData(stored: Value) returns (written: Option<Record>)
      modifies this
      ensures firebaseUser == old(firebaseUser)
      ensures old(firebaseUser).None? ==>
        written.None? && username == old(username) && displayName == old(displayName) && friends == old(friends)
      ensures old(firebaseUser).Some? && stored.Obj? ==>
        var m := stored.fields;
        written.None? &&
        username == StringField(m, "username").GetOr(old(username)) &&
        displayName == StringField(m, "displayName").GetOr(old(displayName)) &&
        friends == (if "friends" in m && AsRecordList(m["friends"]).Some?
                    then DecodeFriends(AsRecordList(m["friends"]).value) else old(friends))
      ensures old(firebaseUser).Some? && !stored.Obj? ==>
        written == Some(DefaultProfile(old(displayName), old(username))) &&
        username == old(username) && displayName == old(displayName) && friends == old(friends)
    {
      written := None;
      if firebaseUser.None? {
        return;
      }
      if stored.Obj? {
        var value := stored.fields;
        var savedUsername := StringField(value, "username");
        if savedUsername.Some? {
          username := savedUsername.value;
        }
        var savedDisplayName := StringField(value, "displayName");
        if savedDisplayName.Some? {
          displayName := savedDisplayName.value;
        }
        if "friends" in value {
          var friendsArray := AsRecordList(value["friends"]);
          if friendsArray.Some? {
            friends := DecodeFriends(friendsArray.value);
          }
        }
      } else {
        written := Some(DefaultProfile(displayName, username));
      }
    }
  }

  /** A default profile, once stored, loads back the same names and no friends. */
  method DefaultProfileReloads(u: AuthUser) returns (user: OrmaUserModel)
    ensures user.firebaseUser == Some(u)
    ensures user.displayName == DisplayNameOf(u) && user.username == DeriveUsername(u.displayName)
    ensures user.friends == []
  {
    user := new OrmaUserModel(Some(u));
    var written := user.RefreshUserData(Null);
    var reloaded := user.RefreshUserData(Obj(written.value));
  }
}
