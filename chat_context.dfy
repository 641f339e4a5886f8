/**
 * The chat client's state and the socket listeners and callbacks that
 * change it. A request the callback awaits is a parameter holding its
 * answer (`None` when it failed); each callback runs as one step.
 */
module ChatContextModel {
  import opened Wrappers
  import opened ChatApi

  // ---------------------------------------------------------------------
  // Transformations of the state slots
  // ---------------------------------------------------------------------

  /** `message.sender._id !== user?._id`: with nobody signed in every sender counts as someone else. */
  predicate FromOther(msg: ChatMessage, me: Option<string>)
  {
    me != Some(msg.senderId)
  }

  /** The room gets an unread count when it is not the open one and someone else wrote. */
  predicate CountsAsUnread(msg: ChatMessage, currentRoom: Option<string>, me: Option<string>)
  {
    currentRoom != Some(msg.room) && FromOther(msg, me)
  }

  /** `{ ...prev, [room]: (prev[room] || 0) + 1 }`. */
  function Bump(unread: map<string, nat>, room: string): (r: map<string, nat>)
    ensures room in r && r[room] == (if room in unread then unread[room] else 0) + 1
    ensures r.Keys == unread.Keys + {room}
    ensures forall k :: k in unread && k != room ==> r[k] == unread[k]
  {
    unread[room := (if room in unread then unread[room] else 0) + 1]
  }

  /** Every message with the event's id becomes the event's message; the rest stay in place. */
  function ReplaceById(msgs: seq<ChatMessage>, m: ChatMessage): (r: seq<ChatMessage>)
    ensures |r| == |msgs|
    ensures forall i :: 0 <= i < |msgs| && msgs[i].id != m.id ==> r[i] == msgs[i]
    ensures forall i :: 0 <= i < |msgs| && msgs[i].id == m.id ==> r[i] == m
  {
    if |msgs| == 0 then []
    else [if msgs[0].id == m.id then m else msgs[0]] + ReplaceById(msgs[1..], m)
  }

  /** Replacing twice by the same message is the same as replacing once. */
  lemma ReplaceByIdIdempotent(msgs: seq<ChatMessage>, m: ChatMessage)
    ensures ReplaceById(ReplaceById(msgs, m), m) == ReplaceById(msgs, m)
  {
    var once := ReplaceById(msgs, m);
    var twice := ReplaceById(once, m);
    forall i | 0 <= i < |msgs| ensures twice[i] == once[i] {
      if msgs[i].id == m.id {
        assert once[i] == m;
      } else {
        assert once[i] == msgs[i];
      }
    }
  }

  /** A reaction for a message the client does not hold leaves the list as it was. */
  lemma ReplaceByIdAbsent(msgs: seq<ChatMessage>, m: ChatMessage)
    requires forall i :: 0 <= i < |msgs| ==> msgs[i].id != m.id
    ensures ReplaceById(msgs, m) == msgs
  {
  }

  predicate HasRoom(rooms: seq<RoomView>, id: string)
  {
    exists i :: 0 <= i < |rooms| && rooms[i].id == id
  }

  /** `prev.find(r => r._id === room._id) ? prev : [...prev, room]`. */
  function AddRoomIfAbsent(rooms: seq<RoomView>, room: RoomView): (r: seq<RoomView>)
    ensures HasRoom(rooms, room.id) ==> r == rooms
    ensures !HasRoom(rooms, room.id) ==> r == rooms + [room]
    ensures HasRoom(r, room.id)
  {
    if HasRoom(rooms, room.id) then rooms
    else
      assert (rooms + [room])[|rooms|] == room;
      rooms + [room]
  }

  /** Adding a room twice is adding it once, and a list without duplicate ids keeps none. */
  lemma AddRoomIfAbsentIdempotent(rooms: seq<RoomView>, room: RoomView)
    ensures AddRoomIfAbsent(AddRoomIfAbsent(rooms, room), room) == AddRoomIfAbsent(rooms, room)
    ensures RoomIdsUnique(rooms) ==> RoomIdsUnique(AddRoomIfAbsent(rooms, room))
  {
    var r := AddRoomIfAbsent(rooms, room);
    if RoomIdsUnique(rooms) && !HasRoom(rooms, room.id) {
      forall i, j | 0 <= i < j < |r| ensures r[i].id != r[j].id {
        if j == |rooms| {
          assert r[i] == rooms[i];
        } else {
          assert r[i] == rooms[i] && r[j] == rooms[j];
        }
      }
    }
  }

  predicate RoomIdsUnique(rooms: seq<RoomView>)
  {
    forall i, j :: 0 <= i < j < |rooms| ==> rooms[i].id != rooms[j].id
  }

  /** `prev.filter(r => r._id !== roomId)`. */
  function RemoveRoom(rooms: seq<RoomView>, roomId: string): (r: seq<RoomView>)
    ensures forall x :: x in r <==> x in rooms && x.id != roomId
    ensures !HasRoom(r, roomId)
    ensures |r| <= |rooms|
  {
    if |rooms| == 0 then []
    else
      var rest := RemoveRoom(rooms[1..], roomId);
      assert forall x :: x in rooms <==> x == rooms[0] || x in rooms[1..];
      if rooms[0].id == roomId then rest else [rooms[0]] + rest
  }

  /** `prev.filter((req) => req._id !== requestId)`. */
  function RemoveRequest(reqs: seq<RequestView>, requestId: string): (r: seq<RequestView>)
    ensures forall x :: x in r <==> x in reqs && x.id != requestId
    ensures |r| <= |reqs|
  {
    if |reqs| == 0 then []
    else
      var rest := RemoveRequest(reqs[1..], requestId);
      assert forall x :: x in reqs <==> x == reqs[0] || x in reqs[1..];
      if reqs[0].id == requestId then rest else [reqs[0]] + rest
  }

  /** A direct room listing the user among its members. */
  predicate IsDmWith(room: RoomView, userId: string)
  {
    room.roomType == "direct" && userId in room.members
  }

  /** `rooms.find(...)` in `startDirectChat`: the first direct room with that member. */
  function FindExistingDm(rooms: seq<RoomView>, userId: string): (r: Option<RoomView>)
    ensures r.None? <==> forall i :: 0 <= i < |rooms| ==> !IsDmWith(rooms[i], userId)
    ensures r.Some? ==> exists i :: 0 <= i < |rooms| && rooms[i] == r.value && IsDmWith(rooms[i], userId)
                                    && forall j :: 0 <= j < i ==> !IsDmWith(rooms[j], userId)
  {
    if |rooms| == 0 then None
    else if IsDmWith(rooms[0], userId) then Some(rooms[0])
    else
      var r := FindExistingDm(rooms[1..], userId);
      assert forall i :: 1 <= i < |rooms| ==> rooms[i] == rooms[1..][i - 1];
      if r.None? then r
      else
        var i :| 0 <= i < |rooms[1..]| && rooms[1..][i] == r.value && IsDmWith(rooms[1..][i], userId)
                 && forall j :: 0 <= j < i ==> !IsDmWith(rooms[1..][j], userId);
        assert rooms[i + 1] == r.value;
        r
  }

  // ---------------------------------------------------------------------
  // The state
  // ---------------------------------------------------------------------

  class ChatState {
    var me: Option<string>
    var messages: seq<ChatMessage>
    var rooms: seq<RoomView>
    var currentRoom: Option<string>
    var unreadRooms: map<string, nat>
    var unreadCount: nat
    var friendRequests: seq<RequestView>
    var friends: seq<FriendEntry>

    /** Every listed unread count is positive, and the open room never has one. */
    ghost predicate Valid()
      reads this
    {
      && (forall r :: r in unreadRooms ==> unreadRooms[r] >= 1)
      && (currentRoom.Some? ==> currentRoom.value !in unreadRooms)
    }

    /** The state the provider starts with for the signed-in user. */
    constructor (me: Option<string>)
      ensures Valid()
      ensures this.me == me && messages == [] && rooms == [] && currentRoom == None
      ensures unreadRooms == map[] && unreadCount == 0 && friendRequests == [] && friends == []
    {
      this.me := me;
      messages := [];
      rooms := [];
      currentRoom := None;
      unreadRooms := map[];
      unreadCount := 0;
      friendRequests := [];
      friends := [];
    }

    /** `receive_message`: append, count it for its room unless open or own, and count it globally unless own. */
    method OnReceiveMessage(msg: ChatMessage)
      requires Valid()
      modifies this
      ensures Valid()
      ensures messages == old(messages) + [msg]
      ensures unreadRooms == if CountsAsUnread(msg, old(currentRoom), me) then Bump(old(unreadRooms), msg.room) else old(unreadRooms)
      ensures unreadCount == old(unreadCount) + if FromOther(msg, me) then 1 else 0
      ensures me == old(me) && rooms == old(rooms) && currentRoom == old(currentRoom)
      ensures friendRequests == old(friendRequests) && friends == old(friends)
    {
      messages := messages + [msg];
      if CountsAsUnread(msg, currentRoom, me) {
        unreadRooms := Bump(unreadRooms, msg.room);
      }
      if FromOther(msg, me) {
        unreadCount := unreadCount + 1;
      }
    }

    /** `private_message`: append, and count it globally unless own; no room count. */
    method OnPrivateMessage(msg: ChatMessage)
      requires Valid()
      modifies this
      ensures Valid()
      ensures messages == old(messages) + [msg]
      ensures unreadCount == old(unreadCount) + if FromOther(msg, me) then 1 else 0
      ensures me == old(me) && rooms == old(rooms) && currentRoom == old(currentRoom) && unreadRooms == old(unreadRooms)
      ensures friendRequests == old(friendRequests) && friends == old(friends)
    {
      messages := messages + [msg];
      if FromOther(msg, me) {
        unreadCount := unreadCount + 1;
      }
    }

    /** `message_reaction`: the message with the event's id is replaced by the event's message. */
    method OnMessageReaction(msg: ChatMessage)
      requires Valid()
      modifies this
      ensures Valid()
      ensures messages == ReplaceById(old(messages), msg)
      ensures me == old(me) && rooms == old(rooms) && currentRoom == old(currentRoom) && unreadRooms == old(unreadRooms)
      ensures unreadCount == old(unreadCount) && friendRequests == old(friendRequests) && friends == old(friends)
    {
      messages := ReplaceById(messages, msg);
    }

    /** `friend_request_received`: the new request goes to the front of the list. */
    method OnFriendRequestReceived(req: RequestView)
      requires Valid()
      modifies this
      ensures Valid()
      ensures friendRequests == [req] + old(friendRequests)
      ensures me == old(me) && messages == old(messages) && rooms == old(rooms) && currentRoom == old(currentRoom)
      ensures unreadRooms == old(unreadRooms) && unreadCount == old(unreadCount) && friends == old(friends)
    {
      friendRequests := [req] + friendRequests;
    }

    /** `friend_request_accepted`: the friend is appended, and the event's room, when it has one, without any check. */
    method OnFriendRequestAccepted(friend: FriendEntry, room: Option<RoomView>)
      requires Valid()
      modifies this
      ensures Valid()
      ensures friends == old(friends) + [friend]
      ensures rooms == if room.Some? then old(rooms) + [room.value] else old(rooms)
      ensures me == old(me) && messages == old(messages) && currentRoom == old(currentRoom)
      ensures unreadRooms == old(unreadRooms) && unreadCount == old(unreadCount) && friendRequests == old(friendRequests)
    {
      friends := friends + [friend];
      if room.Some? {
        rooms := rooms + [room.value];
      }
    }

    /** `friendship_created`: the friend is appended, and the event's room unless one with its id is listed. */
    method OnFriendshipCreated(friend: FriendEntry, room: Option<RoomView>)
      requires Valid()
      modifies this
      ensures Valid()
      ensures friends == old(friends) + [friend]
      ensures rooms == if room.Some? then AddRoomIfAbsent(old(rooms), room.value) else old(rooms)
      ensures me == old(me) && messages == old(messages) && currentRoom == old(currentRoom)
      ensures unreadRooms == old(unreadRooms) && unreadCount == old(unreadCount) && friendRequests == old(friendRequests)
    {
      friends := friends + [friend];
      if room.Some? {
        rooms := AddRoomIfAbsent(rooms, room.value);
      }
    }

    /** `joinRoom`: the room becomes the open one and only its unread entry goes. */
    method JoinRoom(roomId: string)
      requires Valid()
      modifies this
      ensures Valid()
      ensures currentRoom == Some(roomId)
      ensures unreadRooms == old(unreadRooms) - {roomId}
      ensures me == old(me) && messages == old(messages) && rooms == old(rooms) && unreadCount == old(unreadCount)
      ensures friendRequests == old(friendRequests) && friends == old(friends)
    {
      currentRoom := Some(roomId);
      unreadRooms := unreadRooms - {roomId};
    }

    /** `leaveRoom`: every room with that id goes, the messages are cleared, and the open room closes if it was this one. */
    method LeaveRoom(roomId: string)
      requires Valid()
      modifies this
      ensures Valid()
      ensures rooms == RemoveRoom(old(rooms), roomId)
      ensures messages == []
      ensures currentRoom == if old(currentRoom) == Some(roomId) then None else old(currentRoom)
      ensures me == old(me) && unreadRooms == old(unreadRooms) && unreadCount == old(unreadCount)
      ensures friendRequests == old(friendRequests) && friends == old(friends)
    {
      if currentRoom == Some(roomId) {
        currentRoom := None;
      }
      rooms := RemoveRoom(rooms, roomId);
      messages := [];
    }

    /** `loadRoomMessages`: the loaded messages replace the list; a failed load leaves it. */
    method LoadRoomMessages(loaded: Option<seq<ChatMessage>>)
      requires Valid()
      modifies this
      ensures Valid()
      ensures messages == if loaded.Some? then loaded.value else old(messages)
      ensures me == old(me) && rooms == old(rooms) && currentRoom == old(currentRoom) && unreadRooms == old(unreadRooms)
      ensures unreadCount == old(unreadCount) && friendRequests == old(friendRequests) && friends == old(friends)
    {
      if loaded.Some? {
        messages := loaded.value;
      }
    }

    /**
     * `startDirectChat`: open the first listed direct room with the user;
     * without one, add the room the server returns (`created`) unless its id
     * is listed, and open it. Returns the room it opened.
     */
    method StartDirectChat(userId: string, created: Option<RoomView>, loaded: Option<seq<ChatMessage>>)
      returns (joined: Option<string>)
      requires Valid()
      modifies this
      ensures Valid()
      ensures var dm := FindExistingDm(old(rooms), userId);
        && (dm.Some? ==> joined == Some(dm.value.id) && rooms == old(rooms))
        && (dm.None? && created.Some? ==> joined == Some(created.value.id) && rooms == AddRoomIfAbsent(old(rooms), created.value))
        && (dm.None? && created.None? ==> joined == None && rooms == old(rooms))
      ensures joined.Some? ==> currentRoom == joined && unreadRooms == old(unreadRooms) - {joined.value}
                               && messages == (if loaded.Some? then loaded.value else old(messages))
      ensures joined.None? ==> currentRoom == old(currentRoom) && unreadRooms == old(unreadRooms) && messages == old(messages)
      ensures me == old(me) && unreadCount == old(unreadCount) && friendRequests == old(friendRequests) && friends == old(friends)
    {
      var dm := FindExistingDm(rooms, userId);
      if dm.Some? {
        joined := Some(dm.value.id);
      } else if created.Some? {
        rooms := AddRoomIfAbsent(rooms, created.value);
        joined := Some(created.value.id);
      } else {
        return None;
      }
      JoinRoom(joined.value);
      LoadRoomMessages(loaded);
    }

    /**
     * `acceptFriendRequest` after the server answered `reply` (`None`: it
     * failed, and nothing changes): the request leaves the list, the re-fetched
     * friends and rooms replace the lists, and a returned conversation opens.
     */
    method AcceptFriendRequest(requestId: string, reply: Option<Option<string>>, fetchedFriends: Option<seq<FriendEntry>>,
                               fetchedRooms: Option<seq<RoomView>>, loaded: Option<seq<ChatMessage>>)
      requires Valid()
      modifies this
      ensures Valid()
      ensures reply.None? ==> friendRequests == old(friendRequests) && friends == old(friends) && rooms == old(rooms)
                              && currentRoom == old(currentRoom) && unreadRooms == old(unreadRooms) && messages == old(messages)
      ensures reply.Some? ==>
        && friendRequests == RemoveRequest(old(friendRequests), requestId)
        && friends == fetchedFriends.GetOr(old(friends))
        && rooms == fetchedRooms.GetOr(old(rooms))
      ensures reply.Some? && reply.value.Some? && reply.value.value != "" ==>
        var c := reply.value.value;
        currentRoom == Some(c) && unreadRooms == old(unreadRooms) - {c} && messages == loaded.GetOr(old(messages))
      ensures reply.Some? && !(reply.value.Some? && reply.value.value != "") ==>
        currentRoom == old(currentRoom) && unreadRooms == old(unreadRooms) && messages == old(messages)
      ensures me == old(me) && unreadCount == old(unreadCount)
    {
      if reply.None? {
        return;
      }
      friendRequests := RemoveRequest(friendRequests, requestId);
      friends := fetchedFriends.GetOr(friends);
      rooms := fetchedRooms.GetOr(rooms);
      if reply.value.Some? && reply.value.value != "" {
        JoinRoom(reply.value.value);
        LoadRoomMessages(loaded);
      }
    }

    /** `declineFriendRequest`: on success (`ok`) the request leaves the list; nothing else changes. */
    method DeclineFriendRequest(requestId: string, ok: bool)
      requires Valid()
      modifies this
      ensures Valid()
      ensures friendRequests == if ok then RemoveRequest(old(friendRequests), requestId) else old(friendRequests)
      ensures me == old(me) && messages == old(messages) && rooms == old(rooms) && currentRoom == old(currentRoom)
      ensures unreadRooms == old(unreadRooms) && unreadCount == old(unreadCount) && friends == old(friends)
    {
      if ok {
        friendRequests := RemoveRequest(friendRequests, requestId);
      }
    }
  }
}
