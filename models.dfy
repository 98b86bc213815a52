/**
 * The app's value types.  Instants (`Date`) are whole seconds.
 */
module Models {
  import opened Wrappers

  /**
   * A comment, in the shape of `Models/Comment.swift`: the optional
   * `referenceComment` is the id of the comment it replies to.  The
   * service decoders also demand a `creatorUsername` field, which this
   * type does not keep.
   */
  datatype Comment = Comment(
    id: string,
    creatorId: string,
    postId: string,
    createdAt: int,
    text: string,
    referenceComment: Option<string>)

  datatype Post = Post(
    id: string,
    creatorId: string,
    creatorUsername: string,
    createdAt: int,
    imagePath: string,
    reference: string,
    likedBy: seq<string>,
    description: string,
    comments: seq<Comment>)

  /** An entry of a user's `friends` list. */
  datatype OrmaFriend = OrmaFriend(id: string, displayName: string, username: string)

  /** A pending request, as listed on the profile screen. */
  datatype FriendRequest = FriendRequest(fromId: string, toId: string, timestamp: string)

  /** The signed-in Firebase account: its uid and optional display name. */
  datatype AuthUser = AuthUser(uid: string, displayName: Option<string>)
}
