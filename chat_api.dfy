/** The shapes of the chat objects the client receives over the socket and the HTTP API. */
module ChatApi {
  import opened Wrappers

  /** One entry of a message's `reactions` array. */
  datatype Reaction = Reaction(userId: string, emoji: string)

  /** A message as the client holds it; `senderId` is `message.sender._id`. */
  datatype ChatMessage = ChatMessage(id: string, room: string, senderId: string, senderName: string,
                                     content: string, reactions: Option<seq<Reaction>>)

  /** A room as the client lists it; `members` are the member ids. */
  datatype RoomView = RoomView(id: string, roomType: string, members: seq<string>)

  /** An entry of the client's friend request list. */
  datatype RequestView = RequestView(id: string, senderId: string, createdAt: string)

  /** An entry of the client's friend list. */
  datatype FriendEntry = FriendEntry(userId: string, username: string, conversationId: string, friendshipId: Option<string>)
}
