/**
 * The JSON shapes exchanged between the friend controller and the client:
 * error replies, the search result, and the socket events the controller emits.
 */
module FriendApi {
  import opened Wrappers

  type Id = string

  /** An error reply: HTTP status and the `error` text. */
  datatype HttpError = HttpError(status: nat, message: string)

  /**
   * The `user` object of a successful search. Fields the controller leaves
   * undefined are `None` or `false` here (both are falsy to the client).
   */
  datatype UserView = UserView(
    id: Id,
    username: string,
    email: string,
    avatar: string,
    bio: Option<string>,
    isFriend: bool,
    conversationId: Option<Id>,
    hasPendingRequest: bool,
    requestSentByMe: bool,
    requestId: Option<Id>)

  /** `{ success: true, user }` or `{ success: false, message }`. */
  datatype SearchReply = Found(user: UserView) | NoMatch(message: string)

  /** One entry of the friends list reply. */
  datatype FriendView = FriendView(friendId: Id, conversationId: Id, friendshipId: Id)

  datatype Event =
    | FriendRequestReceived(requestId: Id, senderId: Id)
    | FriendRequestAccepted(requestId: Id, acceptedBy: Id, conversationId: Id)
    | FriendshipCreated(friendshipId: Id, friendId: Id, conversationId: Id)
    | FriendRequestDeclined(requestId: Id, declinedBy: Id)
    | FriendshipRemoved(removedBy: Id, friendshipId: Id)

  /** An event emitted to one socket. */
  datatype Notification = Notification(socketId: string, event: Event)
}
