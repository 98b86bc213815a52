/**
 * `OrmaUserService`: the friend lists stored under `users/<uid>/friends`,
 * the pending requests stored under `friendRequests/<fromId>/<toId>`, and
 * the queries over them.  The database is an object whose two nodes the
 * service's writes replace; each callback runs to completion in turn.
 */
module UserService {
  import opened Wrappers
  import opened Seqs
  import opened Text
  import opened Ordering
  import opened Records
  import opened Models
  import opened OrmaUsers

  /** Some entry of a stored friend list has this `id`. */
  predicate HasEntry(friends: seq<Record>, id: string) {
    exists i :: 0 <= i < |friends| && StringField(friends[i], "id") == Some(id)
  }

  /** `addFriend`'s update of one list: append the entry unless one with its id is there. */
  function AddEntry(friends: seq<Record>, id: string, entry: Record): (r: seq<Record>)
    ensures |friends| <= |r| <= |friends| + 1 && r[..|friends|] == friends
    ensures HasEntry(friends, id) ==> r == friends
    ensures !HasEntry(friends, id) ==> r[|friends|..] == [entry]
  {
    if HasEntry(friends, id) then friends else friends + [entry]
  }

  /** An entry for `id` added to a list is found there afterwards. */
  lemma AddEntryHas(friends: seq<Record>, id: string, entry: Record)
    requires StringField(entry, "id") == Some(id)
    ensures HasEntry(AddEntry(friends, id, entry), id)
  {
    if !HasEntry(friends, id) {
      var r := AddEntry(friends, id, entry);
      assert r[|friends|] == entry;
    }
  }

  /** Adding the same entry again changes nothing. */
  lemma AddEntryIdempotent(friends: seq<Record>, id: string, entry: Record)
    requires StringField(entry, "id") == Some(id)
    ensures AddEntry(AddEntry(friends, id, entry), id, entry) == AddEntry(friends, id, entry)
  {
    AddEntryHas(friends, id, entry);
  }

  /** The test `removeAll` applies: the entry's `id` is not `id`. */
  function IdIsNot(id: string): Record -> bool {
    r => StringField(r, "id") != Some(id)
  }

  /** `removeFriend`'s update of one list: every entry with that id removed, the rest in order. */
  function RemoveEntries(friends: seq<Record>, id: string): (r: seq<Record>)
    ensures !HasEntry(r, id)
    ensures forall e :: e in r <==> e in friends && StringField(e, "id") != Some(id)
    ensures IsSubseq(r, friends)
    ensures forall e :: multiset(r)[e] == if StringField(e, "id") == Some(id) then 0 else multiset(friends)[e]
  {
    var r := Filter(friends, IdIsNot(id));
    assert forall i :: 0 <= i < |r| ==> IdIsNot(id)(r[i]);
    FilterIsSubseq(friends, IdIsNot(id));
    FilterMultiset(friends, IdIsNot(id));
    r
  }

  /** Removing after an add leaves what removing alone leaves. */
  lemma RemoveAfterAdd(friends: seq<Record>, id: string, entry: Record)
    requires StringField(entry, "id") == Some(id)
    ensures RemoveEntries(AddEntry(friends, id, entry), id) == RemoveEntries(friends, id)
  {
    if !HasEntry(friends, id) {
      FilterAppend(friends, [entry], IdIsNot(id));
    }
  }

  /** Entries with other ids are not touched by a removal. */
  lemma RemoveEntriesWithoutId(friends: seq<Record>, id: string)
    requires !HasEntry(friends, id)
    ensures RemoveEntries(friends, id) == friends
  {
    FilterAll(friends, IdIsNot(id));
  }

  /** The names `addFriend` reads off a profile: `displayName` and `username`, both strings. */
  function ProfileNames(users: map<string, Record>, uid: string): (n: Option<(string, string)>)
    ensures n.Some? <==> uid in users && StringField(users[uid], "displayName").Some? &&
                         StringField(users[uid], "username").Some?
  {
    if uid in users then
      match (StringField(users[uid], "displayName"), StringField(users[uid], "username"))
      case (Some(d), Some(u)) => Some((d, u))
      case _ => None
    else None
  }

  /** The value at `users/<uid>/friends`, `Null` when there is none. */
  function StoredFriends(users: map<string, Record>, uid: string): Value {
    if uid in users && "friends" in users[uid] then users[uid]["friends"] else Null
  }

  /** `snap.value as? [[String: Any]] ?? []` on `users/<uid>/friends`. */
  function FriendsOf(users: map<string, Record>, uid: string): seq<Record> {
    RecordListOrEmpty(StoredFriends(users, uid))
  }

  /** `users/<uid>/friends` set to a list; a missing user node is created holding only it. */
  function SetFriends(users: map<string, Record>, uid: string, l: seq<Record>): (u: map<string, Record>)
    ensures u.Keys == users.Keys + {uid}
    ensures FriendsOf(u, uid) == l
    ensures forall v :: v in users && v != uid ==> u[v] == users[v]
    ensures uid in users ==> forall k :: k in users[uid] && k != "friends" ==> k in u[uid] && u[uid][k] == users[uid][k]
  {
    var node := if uid in users then users[uid] else map[];
    var u := users[uid := node["friends" := RecordListValue(l)]];
    AsRecordListOfValue(l);
    u
  }

  /** One side of `addFriend`: entry `entry` added to `uid`'s list, written only when it changed. */
  function AddToList(users: map<string, Record>, uid: string, id: string, entry: Record): map<string, Record> {
    var friends := FriendsOf(users, uid);
    if HasEntry(friends, id) then users else SetFriends(users, uid, AddEntry(friends, id, entry))
  }

  /**
   * Both sides of `addFriend`: the friend's entry is added to the current
   * user's list, then the current user's entry to the friend's list; both
   * need the two profiles' names, and nothing changes without them.
   */
  function AddFriends(users: map<string, Record>, me: string, friendId: string): map<string, Record> {
    match (ProfileNames(users, me), ProfileNames(users, friendId))
    case (Some((myName, myUsername)), Some((friendName, friendUsername))) =>
      var u1 := AddToList(users, me, friendId, FriendRecord(OrmaFriend(friendId, friendName, friendUsername)));
      AddToList(u1, friendId, me, FriendRecord(OrmaFriend(me, myName, myUsername)))
    case _ => users
  }

  lemma AddToListHas(users: map<string, Record>, uid: string, id: string, entry: Record)
    requires StringField(entry, "id") == Some(id)
    ensures HasEntry(FriendsOf(AddToList(users, uid, id, entry), uid), id)
  {
    AddEntryHas(FriendsOf(users, uid), id, entry);
  }

  /** An update of one list keeps every other list, and the entries already in that list. */
  lemma AddToListKeeps(users: map<string, Record>, uid: string, id: string, entry: Record, other: string, otherId: string)
    requires HasEntry(FriendsOf(users, other), otherId)
    ensures HasEntry(FriendsOf(AddToList(users, uid, id, entry), other), otherId)
  {
    var friends := FriendsOf(users, uid);
    if !HasEntry(friends, id) && other == uid {
      var r := AddEntry(friends, id, entry);
      var i :| 0 <= i < |friends| && StringField(friends[i], "id") == Some(otherId);
      assert r[i] == friends[i];
    }
  }

  /** After `addFriend`, when both profiles are complete, each user is in the other's list. */
  lemma AddFriendsSymmetric(users: map<string, Record>, me: string, friendId: string)
    requires ProfileNames(users, me).Some? && ProfileNames(users, friendId).Some?
    ensures var u := AddFriends(users, me, friendId);
      HasEntry(FriendsOf(u, me), friendId) && HasEntry(FriendsOf(u, friendId), me)
  {
    var (myName, myUsername) := ProfileNames(users, me).value;
    var (friendName, friendUsername) := ProfileNames(users, friendId).value;
    var e1 := FriendRecord(OrmaFriend(friendId, friendName, friendUsername));
    var e2 := FriendRecord(OrmaFriend(me, myName, myUsername));
    var u1 := AddToList(users, me, friendId, e1);
    AddToListHas(users, me, friendId, e1);
    AddToListHas(u1, friendId, me, e2);
    AddToListKeeps(u1, friendId, me, e2, me, friendId);
  }

  /** A user whose list already holds the other user's entry has it left alone: no duplicates. */
  lemma AddToListNoDuplicate(users: map<string, Record>, uid: string, id: string, entry: Record)
    requires HasEntry(FriendsOf(users, uid), id)
    ensures AddToList(users, uid, id, entry) == users
  {
  }

  /** The timestamp text of a request: the stored server time, formatted, or "" when it is not a number. */
  function TimestampText(v: Value, format: int -> string): string {
    if v.Num? then format(v.n) else ""
  }

  lemma PairSetHasElement(s: set<(string, string)>)
    requires s != {}
    ensures exists p :: p in s
  {
    if forall p :: p !in s { assert false; }
  }

  lemma StringSetHasElement(s: set<string>)
    requires s != {}
    ensures exists k :: k in s
  {
    if forall k :: k !in s { assert false; }
  }

  /** Friends are listed by display name, ignoring case. */
  function FriendSortKey(f: OrmaFriend): seq<int> {
    Codes(Lowercased(f.displayName))
  }

  class FriendsDatabase {
    /** `users/<uid>` */
    var users: map<string, Record>
    /** `friendRequests/<fromId>/<toId>`, holding the time the request was sent */
    var requests: map<(string, string), Value>

    constructor(users: map<string, Record>, requests: map<(string, string), Value>)
      ensures this.users == users && this.requests == requests
    {
      this.users := users;
      this.requests := requests;
    }

    /**
     * `getUserIdIfExists`: the key of a user stored with exactly that
     * username, or None when there is none.  Which of several such users
     * the query returns first is up to the database.
     */
    method UserIdIfExists(username: string) returns (id: Option<string>)
      ensures id.None? <==> forall k :: k in users ==> StringField(users[k], "username") != Some(username)
      ensures id.Some? ==> id.value in users && StringField(users[id.value], "username") == Some(username)
    {
      var matching := set k | k in users && StringField(users[k], "username") == Some(username);
      if matching == {} {
        id := None;
        forall k | k in users ensures StringField(users[k], "username") != Some(username) {
          assert k !in matching;
        }
      } else {
        StringSetHasElement(matching);
        var k :| k in matching;
        id := Some(k);
      }
    }

    /** `sendFriendRequest`: records the request from the signed-in user to `friendId`. */
    method SendFriendRequest(currentUid: Option<string>, friendId: string, now: int)
      modifies this
      ensures users == old(users)
      ensures currentUid.None? ==> requests == old(requests)
      ensures currentUid.Some? ==> requests == old(requests)[(currentUid.value, friendId) := Num(now)]
    {
      if currentUid.None? {
        return;
      }
      requests := requests[(currentUid.value, friendId) := Num(now)];
    }

    /** `declineFriendRequest`: removes the request from `friendId` to the signed-in user, and only that one. */
    method DeclineFriendRequest(currentUid: Option<string>, friendId: string)
      modifies this
      ensures users == old(users)
      ensures currentUid.None? ==> requests == old(requests)
      ensures currentUid.Some? ==> requests == old(requests) - {(friendId, currentUid.value)}
    {
      if currentUid.None? {
        return;
      }
      requests := requests - {(friendId, currentUid.value)};
    }

    /**
     * `addFriend`: both lists updated as `AddFriends` says, and the
     * requests in both directions removed, whether or not the profiles
     * were complete.
     */
    method AddFriend(currentUid: Option<string>, friendId: string)
      modifies this
      ensures currentUid.None? ==> users == old(users) && requests == old(requests)
      ensures currentUid.Some? ==>
        users == AddFriends(old(users), currentUid.value, friendId) &&
        requests == old(requests) - {(currentUid.value, friendId), (friendId, currentUid.value)}
    {
      if currentUid.None? {
        return;
      }
      var me := currentUid.value;
      var myNames := ProfileNames(users, me);
      var friendNames := ProfileNames(users, friendId);
      if myNames.Some? && friendNames.Some? {
        var currentFriend := FriendRecord(OrmaFriend(friendId, friendNames.value.0, friendNames.value.1));
        var newFriend := FriendRecord(OrmaFriend(me, myNames.value.0, myNames.value.1));
        AddToFriendList(me, friendId, currentFriend);
        AddToFriendList(friendId, me, newFriend);
      }
      requests := requests - {(me, friendId)};
      requests := requests - {(friendId, me)};
    }

    /** One list update of `addFriend`: read the list, append when the id is absent, write it back. */
    method AddToFriendList(uid: string, id: string, entry: Record)
      modifies this
      ensures users == AddToList(old(users), uid, id, entry) && requests == old(requests)
    {
      var friends := FriendsOf(users, uid);
      if !HasEntry(friends, id) {
        friends := friends + [entry];
        users := SetFriends(users, uid, friends);
      }
    }

    /** `removeFriend`: every entry of each user is removed from the other's list. */
    method RemoveFriend(currentUid: Option<string>, friendId: string)
      modifies this
      ensures requests == old(requests)
      ensures currentUid.None? ==> users == old(users)
      ensures currentUid.Some? ==>
        var me := currentUid.value;
        var u1 := SetFriends(old(users), me, RemoveEntries(FriendsOf(old(users), me), friendId));
        users == SetFriends(u1, friendId, RemoveEntries(FriendsOf(u1, friendId), me))
      ensures currentUid.Some? ==>
        !HasEntry(FriendsOf(users, currentUid.value), friendId) && !HasEntry(FriendsOf(users, friendId), currentUid.value)
    {
      if currentUid.None? {
        return;
      }
      var me := currentUid.value;
      var friends := RemoveEntries(FriendsOf(users, me), friendId);
      users := SetFriends(users, me, friends);
      var theirFriends := RemoveEntries(FriendsOf(users, friendId), me);
      users := SetFriends(users, friendId, theirFriends);
      if me != friendId {
        assert FriendsOf(users, me) == friends;
      }
    }

    /**
     * `fetchPendingFriendRequests`: one entry for each stored request
     * addressed to the signed-in user, none for the rest; nothing without
     * a signed-in user.  The order is the database's and is left open.
     */
    method FetchPendingFriendRequests(currentUid: Option<string>, format: int -> string)
      returns (result: seq<FriendRequest>)
      ensures currentUid.None? ==> result == []
      ensures currentUid.Some? ==>
        (forall i :: 0 <= i < |result| ==>
           result[i].toId == currentUid.value && (result[i].fromId, result[i].toId) in requests &&
           result[i].timestamp == TimestampText(requests[(result[i].fromId, result[i].toId)], format)) &&
        (forall fromId :: (fromId, currentUid.value) in requests ==>
           exists r :: r in result && r.fromId == fromId) &&
        (forall i, j :: 0 <= i < j < |result| ==> result[i].fromId != result[j].fromId)
    {
      result := [];
      if currentUid.None? {
        return;
      }
      var me := currentUid.value;
      var todo := requests.Keys;
      ghost var done: set<(string, string)> := {};
      while todo != {}
        invariant done + todo == requests.Keys && done !! todo
        invariant PendingSoFar(requests, me, format, done, result)
        decreases |todo|
      {
        PairSetHasElement(todo);
        var p :| p in todo;
        PendingStep(requests, me, format, done, result, p);
        result := result + PendingEntry(requests, me, format, p);
        todo := todo - {p};
        done := done + {p};
      }
      PendingComplete(requests, me, format, done, result);
    }

    /**
     * `fetchAllFriends`: the complete entries of a user's stored friends,
     * an array or an object keyed by position, sorted by display name
     * ignoring case; anything else, or nothing stored, gives no friends.
     */
    method FetchAllFriends(userId: string) returns (sorted: seq<OrmaFriend>)
      ensures SortedBy(sorted, FriendSortKey)
      ensures var v := StoredFriends(users, userId);
        AsRecordList(v).Some? ==> multiset(sorted) == multiset(DecodeFriends(AsRecordList(v).value))
      ensures var v := StoredFriends(users, userId);
        AsRecordList(v).None? && v.Obj? ==>
          |sorted| <= |v.fields| &&
          (forall f :: f in sorted <==>
            exists k :: k in v.fields && EntryFriend(v.fields, k) == Some(f)) &&
          forall f :: multiset(sorted)[f] == |KeysHolding(v.fields, v.fields.Keys, f)|
      ensures var v := StoredFriends(users, userId);
        AsRecordList(v).None? && !v.Obj? ==> sorted == []
    {
      var value := StoredFriends(users, userId);
      var friends: seq<OrmaFriend> := [];
      if value.Null? {
        return [];
      }
      var friendsArray := AsRecordList(value);
      if friendsArray.Some? {
        friends := CompactMap(friendsArray.value, DecodeFriend);
      } else if value.Obj? {
        friends := DecodeFriendDict(value.fields);
      } else {
        return [];
      }
      sorted := SortByKey(friends, FriendSortKey);
      assert forall f :: f in sorted <==> f in friends by {
        forall f ensures f in sorted <==> f in friends {
          assert f in sorted <==> f in multiset(sorted);
          assert f in friends <==> f in multiset(friends);
        }
      }
    }
  }

  /**
   * What the pending-request loop has gathered once it has visited the
   * pairs in `done`: one request per visited pair addressed to `me`, with
   * its formatted timestamp, and no sender twice.
   */
  ghost predicate PendingSoFar(requests: map<(string, string), Value>, me: string, format: int -> string,
                               done: set<(string, string)>, result: seq<FriendRequest>)
  {
    (forall i :: 0 <= i < |result| ==>
       result[i].toId == me && (result[i].fromId, me) in done && (result[i].fromId, me) in requests &&
       result[i].timestamp == TimestampText(requests[(result[i].fromId, me)], format)) &&
    (forall p :: p in done && p.1 == me ==> exists r :: r in result && r.fromId == p.0) &&
    (forall i, j :: 0 <= i < j < |result| ==> result[i].fromId != result[j].fromId)
  }

  /** What the loop adds for the pair `p`: its request when it is addressed to `me`. */
  function PendingEntry(requests: map<(string, string), Value>, me: string, format: int -> string,
                        p: (string, string)): seq<FriendRequest>
    requires p in requests
  {
    if p.1 == me then [FriendRequest(p.0, p.1, TimestampText(requests[p], format))] else []
  }

  lemma PendingStep(requests: map<(string, string), Value>, me: string, format: int -> string,
                    done: set<(string, string)>, result: seq<FriendRequest>, p: (string, string))
    requires p in requests && p !in done
    requires PendingSoFar(requests, me, format, done, result)
    ensures PendingSoFar(requests, me, format, done + {p}, result + PendingEntry(requests, me, format, p))
  {
    if p.1 == me {
      var request := FriendRequest(p.0, p.1, TimestampText(requests[p], format));
      var next := result + [request];
      assert forall i :: 0 <= i < |result| ==> result[i].fromId != p.0;
      assert next[|result|] == request;
      forall q | q in done + {p} && q.1 == me ensures exists r :: r in next && r.fromId == q.0 {
        if q == p {
          assert request in next;
        } else {
          var r :| r in result && r.fromId == q.0;
          assert r in next;
        }
      }
    }
  }

  /** Once every pair is visited, the gathered requests are the ones addressed to `me`. */
  lemma PendingComplete(requests: map<(string, string), Value>, me: string, format: int -> string,
                        done: set<(string, string)>, result: seq<FriendRequest>)
    requires done == requests.Keys
    requires PendingSoFar(requests, me, format, done, result)
    ensures forall i :: 0 <= i < |result| ==>
           result[i].toId == me && (result[i].fromId, result[i].toId) in requests &&
           result[i].timestamp == TimestampText(requests[(result[i].fromId, result[i].toId)], format)
    ensures forall fromId :: (fromId, me) in requests ==> exists r :: r in result && r.fromId == fromId
    ensures forall i, j :: 0 <= i < j < |result| ==> result[i].fromId != result[j].fromId
  {
    forall fromId | (fromId, me) in requests ensures exists r :: r in result && r.fromId == fromId {
      assert (fromId, me) in done && (fromId, me).1 == me;
    }
  }

  /**
   * The loop of `fetchAllFriends` over an object: the complete entries
   * among its values, in the dictionary's own order, which is left open.
   */
  method DecodeFriendDict(friendDict: map<string, Value>) returns (friends: seq<OrmaFriend>)
    ensures |friends| <= |friendDict|
    ensures forall f :: f in friends <==>
      exists k :: k in friendDict && EntryFriend(friendDict, k) == Some(f)
    ensures forall f :: multiset(friends)[f] == |KeysHolding(friendDict, friendDict.Keys, f)|
  {
    friends := [];
    var todo := friendDict.Keys;
    ghost var done: set<string> := {};
    while todo != {}
      invariant done + todo == friendDict.Keys && done !! todo
      invariant |friends| <= |done|
      invariant forall f :: f in friends <==> exists j :: j in done && EntryFriend(friendDict, j) == Some(f)
      invariant forall f :: multiset(friends)[f] == |KeysHolding(friendDict, done, f)|
      decreases |todo|
    {
      StringSetHasElement(todo);
      var k :| k in todo;
      EntryStep(friendDict, friends, done, k);
      EntryCountStep(friendDict, friends, done, k);
      friends := friends + EntryList(friendDict, k);
      todo := todo - {k};
      done := done + {k};
    }
    assert done == friendDict.Keys;
  }

  /** The friend an entry of a stored object holds: it must be an object with the three string fields. */
  function EntryFriend(friendDict: map<string, Value>, k: string): Option<OrmaFriend>
    requires k in friendDict
  {
    if AsRecord(friendDict[k]).Some? then DecodeFriend(friendDict[k].fields) else None
  }

  /** What the loop appends for the key `k`: its friend, when the entry is complete. */
  function EntryList(friendDict: map<string, Value>, k: string): seq<OrmaFriend>
    requires k in friendDict
  {
    if EntryFriend(friendDict, k).Some? then [EntryFriend(friendDict, k).value] else []
  }

  /** The keys among `keys` whose entry holds the friend `f`. */
  function KeysHolding(friendDict: map<string, Value>, keys: set<string>, f: OrmaFriend): set<string> {
    set k | k in keys && k in friendDict && EntryFriend(friendDict, k) == Some(f)
  }

  lemma EntryCountStep(friendDict: map<string, Value>, friends: seq<OrmaFriend>, done: set<string>, k: string)
    requires k in friendDict && k !in done
    requires forall f :: multiset(friends)[f] == |KeysHolding(friendDict, done, f)|
    ensures forall f :: multiset(friends + EntryList(friendDict, k))[f] == |KeysHolding(friendDict, done + {k}, f)|
  {
    forall f ensures multiset(friends + EntryList(friendDict, k))[f] == |KeysHolding(friendDict, done + {k}, f)| {
      var before := KeysHolding(friendDict, done, f);
      if EntryFriend(friendDict, k) == Some(f) {
        assert KeysHolding(friendDict, done + {k}, f) == before + {k};
        assert k !in before;
        assert multiset(EntryList(friendDict, k))[f] == 1;
      } else {
        assert KeysHolding(friendDict, done + {k}, f) == before;
        assert multiset(EntryList(friendDict, k))[f] == 0;
      }
    }
  }

  lemma EntryStep(friendDict: map<string, Value>, friends: seq<OrmaFriend>, done: set<string>, k: string)
    requires done <= friendDict.Keys && k in friendDict && k !in done
    requires |friends| <= |done|
    requires forall f :: f in friends <==> exists j :: j in done && EntryFriend(friendDict, j) == Some(f)
    ensures var next := friends + EntryList(friendDict, k);
            |next| <= |done + {k}| &&
            forall f :: f in next <==> exists j :: j in done + {k} && EntryFriend(friendDict, j) == Some(f)
  {
    assert |done + {k}| == |done| + 1;
    var next := friends + EntryList(friendDict, k);
    forall f ensures f in next <==> exists j :: j in done + {k} && EntryFriend(friendDict, j) == Some(f) {
      if f in next && f !in friends {
        assert EntryFriend(friendDict, k) == Some(f);
      }
      if exists j :: j in done + {k} && EntryFriend(friendDict, j) == Some(f) {
        var j :| j in done + {k} && EntryFriend(friendDict, j) == Some(f);
        if j != k {
          assert f in friends;
        }
      }
    }
  }
}
