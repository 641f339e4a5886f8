/**
 * The friend controller as one sequential store: the users, friend requests,
 * friendships, rooms and messages collections, and the seven handlers over
 * them. Each handler checks its guards in the order the controller does and
 * then makes its changes as one step.
 */
module FriendController {
  import opened Wrappers
  import opened FriendApi
  import Strings
  import FR = FriendRequestModel
  import FS = FriendshipModel
  import UM = UserModel

  datatype RoomType = Public | Direct

  /** A stored room (the Room schema is not part of this model; only the fields used here). */
  datatype Room = Room(id: Id, name: string, roomType: RoomType, creator: Id, members: seq<Id>, admins: seq<Id>)

  datatype MessageKind = Text | Image | File | System

  /** A stored message (the Message schema is not part of this model; only the fields used here). */
  datatype Message = Message(id: Id, sender: Id, room: Id, content: string, messageType: MessageKind)

  /** What a successful accept replies with, and the events it emitted. */
  datatype AcceptReply = AcceptReply(friendshipId: Id, conversationId: Id, notified: seq<Notification>)

  // ---------------------------------------------------------------------
  // Identifiers and lookups
  // ---------------------------------------------------------------------

  predicate NoDup(s: seq<Id>)
  {
    forall i, j :: 0 <= i < |s| && 0 <= j < |s| && i != j ==> s[i] != s[j]
  }

  /** The ids of a collection's documents, in stored order. */
  function Ids<T>(xs: seq<T>, id: T -> Id): (r: seq<Id>)
    ensures |r| == |xs| && forall i :: 0 <= i < |xs| ==> r[i] == id(xs[i])
  {
    seq(|xs|, i requires 0 <= i < |xs| => id(xs[i]))
  }

  function UserIds(users: seq<UM.User>): seq<Id>
  {
    Ids(users, (u: UM.User) => u.id)
  }

  function RequestIds(reqs: seq<FR.FriendRequest>): seq<Id>
  {
    Ids(reqs, (q: FR.FriendRequest) => q.id)
  }

  function FriendshipIds(fs: seq<FS.Friendship>): seq<Id>
  {
    Ids(fs, (f: FS.Friendship) => f.id)
  }

  function RoomIds(rooms: seq<Room>): seq<Id>
  {
    Ids(rooms, (r: Room) => r.id)
  }

  function MessageIds(msgs: seq<Message>): seq<Id>
  {
    Ids(msgs, (m: Message) => m.id)
  }

  /** `User.findById(id)`. */
  function FindUser(users: seq<UM.User>, id: Id): (r: Option<UM.User>)
    ensures r.Some? ==> r.value in users && r.value.id == id
    ensures r.None? <==> id !in UserIds(users)
  {
    if |users| == 0 then None
    else if users[0].id == id then Some(users[0])
    else
      var r := FindUser(users[1..], id);
      assert UserIds(users) == [users[0].id] + UserIds(users[1..]);
      r
  }

  /** The stored user with that id, found by position, for users that are known to exist. */
  lemma FindUserAt(users: seq<UM.User>, i: nat)
    requires i < |users| && NoDup(UserIds(users))
    ensures FindUser(users, users[i].id) == Some(users[i])
  {
    var r := FindUser(users, users[i].id);
    var j :| 0 <= j < |users| && users[j] == r.value;
    assert UserIds(users)[j] == UserIds(users)[i];
  }

  /** `User.findOne({ email, _id: { $ne: except } })`: the first such user. */
  function FindUserByEmailExcept(users: seq<UM.User>, email: string, except: Id): (r: Option<UM.User>)
    ensures r.Some? ==> r.value in users && r.value.email == email && r.value.id != except
    ensures r.None? <==> forall i :: 0 <= i < |users| ==> !(users[i].email == email && users[i].id != except)
  {
    if |users| == 0 then None
    else if users[0].email == email && users[0].id != except then Some(users[0])
    else
      var r := FindUserByEmailExcept(users[1..], email, except);
      assert forall i :: 1 <= i < |users| ==> users[i] == users[1..][i - 1];
      r
  }

  function UsernameOf(users: seq<UM.User>, id: Id): string
  {
    match FindUser(users, id)
    case Some(u) => u.username
    case None => ""
  }

  /** `if (user.socketId)`: the socket of a user, when it is set and not empty. */
  function SocketOf(u: Option<UM.User>): (r: Option<string>)
    ensures r.Some? <==> u.Some? && u.value.socketId.Some? && u.value.socketId.value != ""
    ensures r.Some? ==> r == u.value.socketId
  {
    if u.Some? && u.value.socketId.Some? && u.value.socketId.value != "" then u.value.socketId else None
  }

  /** `$addToSet`. */
  function AddToSet(s: seq<Id>, x: Id): (r: seq<Id>)
    ensures forall y :: y in r <==> y in s || y == x
    ensures NoDup(s) ==> NoDup(r)
  {
    if x in s then s else s + [x]
  }

  /** `$pull`: every occurrence of `x` goes. */
  function Pull(s: seq<Id>, x: Id): (r: seq<Id>)
    ensures forall y :: y in r <==> y in s && y != x
    ensures NoDup(s) ==> NoDup(r)
    ensures |r| <= |s|
  {
    if |s| == 0 then []
    else
      var rest := Pull(s[1..], x);
      if s[0] == x then rest
      else
        assert NoDup(s) ==> s[0] !in s[1..] by {
          if NoDup(s) {
            forall j | 0 <= j < |s[1..]| ensures s[1..][j] != s[0] {
              assert s[1..][j] == s[j + 1];
            }
          }
        }
        [s[0]] + rest
  }

  /** `User.findByIdAndUpdate(uid, { $addToSet: { friends: fid } })`. */
  function AddFriend(users: seq<UM.User>, uid: Id, fid: Id): (r: seq<UM.User>)
    ensures |r| == |users| && UserIds(r) == UserIds(users)
    ensures forall i :: 0 <= i < |users| ==>
      r[i] == if users[i].id == uid then users[i].(friends := AddToSet(users[i].friends, fid)) else users[i]
  {
    seq(|users|, i requires 0 <= i < |users| =>
      if users[i].id == uid then users[i].(friends := AddToSet(users[i].friends, fid)) else users[i])
  }

  /** `User.findByIdAndUpdate(uid, { $pull: { friends: fid } })`; a missing user is left as is. */
  function PullFriend(users: seq<UM.User>, uid: Id, fid: Id): (r: seq<UM.User>)
    ensures |r| == |users| && UserIds(r) == UserIds(users)
    ensures forall i :: 0 <= i < |users| ==>
      r[i] == if users[i].id == uid then users[i].(friends := Pull(users[i].friends, fid)) else users[i]
  {
    seq(|users|, i requires 0 <= i < |users| =>
      if users[i].id == uid then users[i].(friends := Pull(users[i].friends, fid)) else users[i])
  }

  /** `findById(requestId)` on the requests: the position of the request with that id. */
  function RequestIndex(reqs: seq<FR.FriendRequest>, id: Id): (r: Option<nat>)
    ensures r.Some? ==> r.value < |reqs| && reqs[r.value].id == id
    ensures r.None? <==> id !in RequestIds(reqs)
  {
    if |reqs| == 0 then None
    else if reqs[0].id == id then Some(0)
    else
      match RequestIndex(reqs[1..], id)
      case None =>
        assert RequestIds(reqs) == [reqs[0].id] + RequestIds(reqs[1..]);
        None
      case Some(k) => Some(k + 1)
  }

  // ---------------------------------------------------------------------
  // The store invariant
  // ---------------------------------------------------------------------

  /** Each user's friends array holds no id twice and lists exactly the users the friendships join it with. */
  ghost predicate FriendsMatch(users: seq<UM.User>, fs: seq<FS.Friendship>)
  {
    forall i, v :: 0 <= i < |users| ==> (v in users[i].friends <==> FS.AreFriends(fs, users[i].id, v))
  }

  ghost predicate FriendsNoDup(users: seq<UM.User>)
  {
    forall i :: 0 <= i < |users| ==> NoDup(users[i].friends)
  }

  /** The room is a direct room whose two members are the friendship's two users. */
  ghost predicate IsDirectRoomOf(rooms: seq<Room>, f: FS.Friendship)
  {
    exists r :: 0 <= r < |rooms| && rooms[r].id == f.conversationRoom && rooms[r].roomType == Direct
      && |rooms[r].members| == 2 && {rooms[r].members[0], rooms[r].members[1]} == {f.user1, f.user2}
  }

  ghost predicate FriendshipsWellFormed(users: seq<UM.User>, rooms: seq<Room>, fs: seq<FS.Friendship>)
  {
    && FS.AllCanonical(fs)
    && FS.PairsUnique(fs)
    && NoDup(FriendshipIds(fs))
    && (forall k :: 0 <= k < |fs| ==>
          && fs[k].user1 != fs[k].user2
          && fs[k].user1 in UserIds(users) && fs[k].user2 in UserIds(users)
          && IsDirectRoomOf(rooms, fs[k]))
    && (forall i, j :: 0 <= i < |fs| && 0 <= j < |fs| && i != j ==> fs[i].conversationRoom != fs[j].conversationRoom)
  }

  ghost predicate RequestsWellFormed(users: seq<UM.User>, fs: seq<FS.Friendship>, reqs: seq<FR.FriendRequest>)
  {
    && NoDup(RequestIds(reqs))
    && FR.PendingPairsUnique(reqs)
    && (forall k :: 0 <= k < |reqs| ==>
          reqs[k].sender != reqs[k].receiver
          && reqs[k].sender in UserIds(users) && reqs[k].receiver in UserIds(users))
    && (forall k :: 0 <= k < |reqs| && reqs[k].status == FR.Pending ==>
          !FS.AreFriends(fs, reqs[k].sender, reqs[k].receiver))
  }

  ghost predicate RoomsWellFormed(rooms: seq<Room>, msgs: seq<Message>)
  {
    && NoDup(RoomIds(rooms))
    && NoDup(MessageIds(msgs))
    && forall m :: 0 <= m < |msgs| ==> msgs[m].room in RoomIds(rooms)
  }

  ghost predicate StoreInvariant(users: seq<UM.User>, reqs: seq<FR.FriendRequest>, fs: seq<FS.Friendship>,
                                 rooms: seq<Room>, msgs: seq<Message>)
  {
    && NoDup(UserIds(users))
    && FriendsNoDup(users)
    && FriendsMatch(users, fs)
    && FriendshipsWellFormed(users, rooms, fs)
    && RequestsWellFormed(users, fs, reqs)
    && RoomsWellFormed(rooms, msgs)
  }

  /** Under the invariant the friends arrays are symmetric: `v` lists `u` exactly when `u` lists `v`. */
  lemma FriendsSymmetric(users: seq<UM.User>, fs: seq<FS.Friendship>, i: nat, j: nat)
    requires FriendsMatch(users, fs) && i < |users| && j < |users|
    ensures users[j].id in users[i].friends <==> users[i].id in users[j].friends
  {
    FS.AreFriendsSymmetric(fs, users[i].id, users[j].id);
  }

  // ---------------------------------------------------------------------
  // Guards, in the order the handlers check them
  // ---------------------------------------------------------------------

  /** The checks `sendFriendRequest` makes before it stores anything; `None` when all pass. */
  function SendGuard(users: seq<UM.User>, fs: seq<FS.Friendship>, reqs: seq<FR.FriendRequest>,
                     senderId: Id, receiverId: Id): (r: Option<HttpError>)
    ensures r.None? <==>
      && receiverId != "" && receiverId != senderId && receiverId in UserIds(users)
      && !FS.AreFriends(fs, senderId, receiverId) && !FR.HasPendingBetween(reqs, senderId, receiverId)
    ensures r.Some? ==> r.value.status == 400 || r.value.status == 404
    ensures r.Some? && r.value.status == 404 <==>
      receiverId != "" && receiverId != senderId && receiverId !in UserIds(users)
  {
    if receiverId == "" then Some(HttpError(400, "Receiver ID is required"))
    else if senderId == receiverId then Some(HttpError(400, "Cannot send friend request to yourself"))
    else if FindUser(users, receiverId).None? then Some(HttpError(404, "User not found"))
    else if FS.FindBetweenUsers(fs, senderId, receiverId).Some? then
      Some(HttpError(400, "You are already friends with this user"))
    else if FR.FindBetweenUsers(reqs, senderId, receiverId).Some? then
      Some(HttpError(400, "A friend request already exists between you and this user"))
    else None
  }

  /** A missing or self-directed receiver is refused with 400 whatever the collections hold. */
  lemma SendValidatesBeforeLookup(users: seq<UM.User>, fs: seq<FS.Friendship>, reqs: seq<FR.FriendRequest>,
                                  users': seq<UM.User>, fs': seq<FS.Friendship>, reqs': seq<FR.FriendRequest>,
                                  senderId: Id, receiverId: Id)
    requires receiverId == "" || receiverId == senderId
    ensures SendGuard(users, fs, reqs, senderId, receiverId) == SendGuard(users', fs', reqs', senderId, receiverId)
    ensures SendGuard(users, fs, reqs, senderId, receiverId).value.status == 400
  {
  }

  /**
   * The checks `acceptFriendRequest` and `declineFriendRequest` share: the
   * request exists (404), the actor is its receiver (403), it is still
   * pending (400). On success, the request's position.
   */
  function ResolveGuard(reqs: seq<FR.FriendRequest>, requestId: Id, actorId: Id, verb: string): (r: Result<nat, HttpError>)
    requires NoDup(RequestIds(reqs))
    ensures r.Ok? ==> r.value < |reqs| && reqs[r.value].id == requestId
                      && reqs[r.value].receiver == actorId && reqs[r.value].status == FR.Pending
    ensures r.Ok? <==> exists k :: 0 <= k < |reqs| && reqs[k].id == requestId
                                   && reqs[k].receiver == actorId && reqs[k].status == FR.Pending
    ensures r.Err? ==> r.error.status in {400, 403, 404}
    ensures r.Err? && r.error.status == 404 <==> requestId !in RequestIds(reqs)
    ensures r.Err? && r.error.status == 403 <==>
      exists k :: 0 <= k < |reqs| && reqs[k].id == requestId && reqs[k].receiver != actorId
  {
    match RequestIndex(reqs, requestId)
    case None => Err(HttpError(404, "Friend request not found"))
    case Some(k) =>
      assert forall j :: 0 <= j < |reqs| && reqs[j].id == requestId ==> j == k by {
        forall j | 0 <= j < |reqs| && reqs[j].id == requestId ensures j == k {
          assert RequestIds(reqs)[j] == RequestIds(reqs)[k];
        }
      }
      if reqs[k].receiver != actorId then
        Err(HttpError(403, "You are not authorized to " + verb + " this request"))
      else if reqs[k].status != FR.Pending then
        Err(HttpError(400, "This request has already been processed"))
      else Ok(k)
  }

  /**
   * Once a request has been accepted or declined, every further accept or
   * decline of it fails: with 400 for its receiver, with 403 for anyone else.
   */
  lemma ResolvedRequestIsFinal(reqs: seq<FR.FriendRequest>, k: nat, actorId: Id, verb: string)
    requires NoDup(RequestIds(reqs)) && k < |reqs| && reqs[k].status != FR.Pending
    ensures ResolveGuard(reqs, reqs[k].id, actorId, verb).Err?
    ensures actorId == reqs[k].receiver ==> ResolveGuard(reqs, reqs[k].id, actorId, verb).error.status == 400
    ensures actorId != reqs[k].receiver ==> ResolveGuard(reqs, reqs[k].id, actorId, verb).error.status == 403
  {
    var r := ResolveGuard(reqs, reqs[k].id, actorId, verb);
    assert RequestIds(reqs)[k] == reqs[k].id;
    forall j | 0 <= j < |reqs| && reqs[j].id == reqs[k].id ensures j == k {
      assert RequestIds(reqs)[j] == RequestIds(reqs)[k];
    }
  }

  // ---------------------------------------------------------------------
  // What accept creates
  // ---------------------------------------------------------------------

  /** The direct room accept creates: both users are members and admins. */
  function DirectRoom(roomId: Id, senderName: string, receiverName: string, creator: Id, sender: Id, receiver: Id): (r: Room)
    ensures r.roomType == Direct && r.members == r.admins == [sender, receiver]
  {
    Room(roomId, senderName + " & " + receiverName, Direct, creator, [sender, receiver], [sender, receiver])
  }

  /** The friendship accept creates, as the pre-save hook orders it. */
  function NewFriendship(id: Id, sender: Id, receiver: Id, roomId: Id): (f: FS.Friendship)
    ensures FS.Canonical(f) && FS.Between(f, sender, receiver) && f.conversationRoom == roomId
  {
    var p := FS.OrderedPair(sender, receiver);
    FS.Friendship(id, p.0, p.1, roomId)
  }

  /** The system message accept posts in the new room; it names the request's sender. */
  function WelcomeText(senderName: string): string
  {
    "\U{1F389} Your journey with " + senderName + " begins here! Say hello and start chatting."
  }

  /** One event to a user's socket when the user has one, nothing otherwise. */
  function NotifyIfOnline(sock: Option<string>, e: Event): (r: seq<Notification>)
    ensures |r| <= 1 && (r != [] <==> sock.Some?)
    ensures forall n :: n in r ==> n.socketId == sock.value && n.event == e
  {
    match sock
    case Some(s) => [Notification(s, e)]
    case None => []
  }

  /** The events accept emits: two to the sender, one to the accepting user, each only with a socket. */
  function AcceptNotifications(requestId: Id, actor: Option<UM.User>, sender: Option<UM.User>,
                               actorId: Id, senderId: Id, friendshipId: Id, roomId: Id): (r: seq<Notification>)
    ensures |r| == (if SocketOf(sender).Some? then 2 else 0) + (if SocketOf(actor).Some? then 1 else 0)
    ensures forall n :: n in r ==> n.socketId in {SocketOf(sender).GetOr(""), SocketOf(actor).GetOr("")}
    ensures SocketOf(sender).Some? ==>
      r[..2] == [Notification(SocketOf(sender).value, FriendRequestAccepted(requestId, actorId, roomId)),
                 Notification(SocketOf(sender).value, FriendshipCreated(friendshipId, actorId, roomId))]
    ensures SocketOf(actor).Some? ==>
      r[|r| - 1] == Notification(SocketOf(actor).value, FriendshipCreated(friendshipId, senderId, roomId))
  {
    (match SocketOf(sender)
     case Some(s) => [Notification(s, FriendRequestAccepted(requestId, actorId, roomId)),
                      Notification(s, FriendshipCreated(friendshipId, actorId, roomId))]
     case None => [])
    + (match SocketOf(actor)
       case Some(s) => [Notification(s, FriendshipCreated(friendshipId, senderId, roomId))]
       case None => [])
  }

  // ---------------------------------------------------------------------
  // The invariant across each change
  // ---------------------------------------------------------------------

  lemma AddPendingRequest(users: seq<UM.User>, fs: seq<FS.Friendship>, reqs: seq<FR.FriendRequest>, q: FR.FriendRequest)
    requires RequestsWellFormed(users, fs, reqs)
    requires q.status == FR.Pending && q.sender != q.receiver
    requires q.sender in UserIds(users) && q.receiver in UserIds(users) && q.id !in RequestIds(reqs)
    requires !FR.HasPendingBetween(reqs, q.sender, q.receiver) && !FS.AreFriends(fs, q.sender, q.receiver)
    ensures RequestsWellFormed(users, fs, reqs + [q])
  {
    var reqs' := reqs + [q];
    assert RequestIds(reqs') == RequestIds(reqs) + [q.id];
    forall i, j | 0 <= i < |reqs'| && 0 <= j < |reqs'| && i != j && reqs'[i].status == FR.Pending
      ensures !FR.PendingBetween(reqs'[j], reqs'[i].sender, reqs'[i].receiver)
    {
      if i == |reqs| {
        assert reqs'[j] == reqs[j];
        assert !FR.PendingBetween(reqs[j], q.sender, q.receiver);
      } else if j == |reqs| {
        assert reqs'[i] == reqs[i];
        assert !FR.PendingBetween(reqs[i], q.sender, q.receiver);
      } else {
        assert reqs'[i] == reqs[i] && reqs'[j] == reqs[j];
      }
    }
  }

  /** Adding a friendship and both set-adds keeps the friends arrays matching the friendships. */
  lemma AddFriendshipKeepsFriendsMatch(users: seq<UM.User>, fs: seq<FS.Friendship>, f: FS.Friendship, s: Id, rc: Id)
    requires FriendsMatch(users, fs) && FriendsNoDup(users) && s != rc && FS.Between(f, s, rc)
    ensures FriendsMatch(AddFriend(AddFriend(users, s, rc), rc, s), fs + [f])
    ensures FriendsNoDup(AddFriend(AddFriend(users, s, rc), rc, s))
  {
    var users' := AddFriend(AddFriend(users, s, rc), rc, s);
    var fs' := fs + [f];
    forall i, v | 0 <= i < |users'|
      ensures v in users'[i].friends <==> FS.AreFriends(fs', users'[i].id, v)
    {
      var a := users[i].id;
      assert users'[i].id == a;
      assert FS.AreFriends(fs', a, v) <==> FS.AreFriends(fs, a, v) || FS.Between(f, a, v) by {
        if FS.AreFriends(fs', a, v) {
          var k :| 0 <= k < |fs'| && FS.Between(fs'[k], a, v);
          if k < |fs| { assert fs'[k] == fs[k]; }
        }
        if FS.AreFriends(fs, a, v) {
          var k :| 0 <= k < |fs| && FS.Between(fs[k], a, v);
          assert fs'[k] == fs[k];
        }
        if FS.Between(f, a, v) { assert fs'[|fs|] == f; }
      }
    }
  }

  /** Positions of the friendships after the one at `k` is deleted. */
  lemma RemoveAtIndex(fs: seq<FS.Friendship>, k: nat, j: nat)
    requires k < |fs| && j < |fs| - 1
    ensures (fs[..k] + fs[k + 1..])[j] == fs[if j < k then j else j + 1]
  {
  }

  /** Deleting the friendship at `k` ends exactly the friendship of its own pair. */
  lemma RemoveAtAreFriends(fs: seq<FS.Friendship>, k: nat, x: Id, v: Id)
    requires FS.AllCanonical(fs) && FS.PairsUnique(fs) && k < |fs|
    ensures FS.AreFriends(fs[..k] + fs[k + 1..], x, v) <==> FS.AreFriends(fs, x, v) && !FS.Between(fs[k], x, v)
  {
    var fs' := fs[..k] + fs[k + 1..];
    if FS.AreFriends(fs', x, v) {
      var j :| 0 <= j < |fs'| && FS.Between(fs'[j], x, v);
      var j0 := if j < k then j else j + 1;
      RemoveAtIndex(fs, k, j);
      if FS.Between(fs[k], x, v) {
        FS.AtMostOnePerPair(fs, j0, k, x, v);
        assert false;
      }
    }
    if FS.AreFriends(fs, x, v) && !FS.Between(fs[k], x, v) {
      var j :| 0 <= j < |fs| && FS.Between(fs[j], x, v);
      var j1 := if j < k then j else j - 1;
      RemoveAtIndex(fs, k, j1);
      assert FS.Between(fs'[j1], x, v);
    }
  }

  /** Deleting the one friendship between `a` and `b` and both pulls keeps the friends arrays matching. */
  lemma RemoveFriendshipKeepsFriendsMatch(users: seq<UM.User>, fs: seq<FS.Friendship>, k: nat, a: Id, b: Id)
    requires FriendsMatch(users, fs) && FriendsNoDup(users)
    requires FS.AllCanonical(fs) && FS.PairsUnique(fs)
    requires k < |fs| && FS.Between(fs[k], a, b) && a != b
    ensures FriendsMatch(PullFriend(PullFriend(users, a, b), b, a), fs[..k] + fs[k + 1..])
    ensures FriendsNoDup(PullFriend(PullFriend(users, a, b), b, a))
  {
    var users' := PullFriend(PullFriend(users, a, b), b, a);
    var fs' := fs[..k] + fs[k + 1..];
    forall i, v | 0 <= i < |users'|
      ensures v in users'[i].friends <==> FS.AreFriends(fs', users'[i].id, v)
    {
      assert users'[i].id == users[i].id;
      RemoveAtAreFriends(fs, k, users[i].id, v);
    }
  }

  lemma AddFriendshipKeepsWellFormed(users: seq<UM.User>, rooms: seq<Room>, fs: seq<FS.Friendship>,
                                     room: Room, f: FS.Friendship, s: Id, rc: Id)
    requires FriendshipsWellFormed(users, rooms, fs)
    requires s != rc && s in UserIds(users) && rc in UserIds(users) && !FS.AreFriends(fs, s, rc)
    requires FS.Canonical(f) && FS.Between(f, s, rc) && f.id !in FriendshipIds(fs)
    requires room.id !in RoomIds(rooms) && f.conversationRoom == room.id
    requires room.roomType == Direct && room.members == [s, rc]
    ensures FriendshipsWellFormed(users, rooms + [room], fs + [f])
  {
    var fs' := fs + [f];
    forall k | 0 <= k < |fs'| ensures fs'[k] == if k < |fs| then fs[k] else f {
    }
    assert FS.AllCanonical(fs');
    AddFriendshipKeepsMembers(users, rooms, fs, room, f, s, rc);
    AddFriendshipKeepsDistinct(users, rooms, fs, room, f, s, rc);
  }

  /** Each friendship, old or new, joins two different known users that have their direct room. */
  lemma AddFriendshipKeepsMembers(users: seq<UM.User>, rooms: seq<Room>, fs: seq<FS.Friendship>,
                                  room: Room, f: FS.Friendship, s: Id, rc: Id)
    requires FriendshipsWellFormed(users, rooms, fs)
    requires s != rc && s in UserIds(users) && rc in UserIds(users)
    requires FS.Between(f, s, rc) && f.conversationRoom == room.id
    requires room.roomType == Direct && room.members == [s, rc]
    ensures forall k :: 0 <= k < |fs + [f]| ==>
      && (fs + [f])[k].user1 != (fs + [f])[k].user2
      && (fs + [f])[k].user1 in UserIds(users) && (fs + [f])[k].user2 in UserIds(users)
      && IsDirectRoomOf(rooms + [room], (fs + [f])[k])
  {
    var rooms' := rooms + [room];
    var fs' := fs + [f];
    forall k | 0 <= k < |fs'|
      ensures fs'[k].user1 != fs'[k].user2
      ensures fs'[k].user1 in UserIds(users) && fs'[k].user2 in UserIds(users)
      ensures IsDirectRoomOf(rooms', fs'[k])
    {
      if k < |fs| {
        assert fs'[k] == fs[k];
        var r :| 0 <= r < |rooms| && rooms[r].id == fs[k].conversationRoom && rooms[r].roomType == Direct
          && |rooms[r].members| == 2 && {rooms[r].members[0], rooms[r].members[1]} == {fs[k].user1, fs[k].user2};
        assert rooms'[r] == rooms[r];
      } else {
        assert rooms'[|rooms|] == room;
      }
    }
  }

  /** The new friendship's pair, id and room differ from every stored friendship's. */
  lemma AddFriendshipKeepsDistinct(users: seq<UM.User>, rooms: seq<Room>, fs: seq<FS.Friendship>,
                                   room: Room, f: FS.Friendship, s: Id, rc: Id)
    requires FriendshipsWellFormed(users, rooms, fs)
    requires !FS.AreFriends(fs, s, rc) && FS.Between(f, s, rc) && f.id !in FriendshipIds(fs)
    requires room.id !in RoomIds(rooms) && f.conversationRoom == room.id
    ensures FS.PairsUnique(fs + [f]) && NoDup(FriendshipIds(fs + [f]))
    ensures forall i, j :: 0 <= i < |fs + [f]| && 0 <= j < |fs + [f]| && i != j ==>
      (fs + [f])[i].conversationRoom != (fs + [f])[j].conversationRoom
  {
    var fs' := fs + [f];
    forall i, j | 0 <= i < |fs'| && 0 <= j < |fs'| && i != j
      ensures (fs'[i].user1, fs'[i].user2) != (fs'[j].user1, fs'[j].user2)
      ensures fs'[i].conversationRoom != fs'[j].conversationRoom
      ensures FriendshipIds(fs')[i] != FriendshipIds(fs')[j]
    {
      if i == |fs| || j == |fs| {
        var o := if i == |fs| then j else i;
        assert fs'[o] == fs[o] && fs'[|fs|] == f;
        assert !FS.Between(fs[o], s, rc);
        assert FriendshipIds(fs)[o] == fs[o].id;
        var r :| 0 <= r < |rooms| && rooms[r].id == fs[o].conversationRoom && rooms[r].roomType == Direct
          && |rooms[r].members| == 2 && {rooms[r].members[0], rooms[r].members[1]} == {fs[o].user1, fs[o].user2};
        assert RoomIds(rooms)[r] == fs[o].conversationRoom;
      } else {
        assert fs'[i] == fs[i] && fs'[j] == fs[j];
        assert FriendshipIds(fs)[i] != FriendshipIds(fs)[j];
      }
    }
  }

  /** Resolving a pending request, whatever the new status, keeps the request invariant. */
  lemma ResolveKeepsRequestsWellFormed(users: seq<UM.User>, fs: seq<FS.Friendship>, reqs: seq<FR.FriendRequest>,
                                       k: nat, st: FR.Status)
    requires RequestsWellFormed(users, fs, reqs) && k < |reqs| && reqs[k].status == FR.Pending && st != FR.Pending
    ensures RequestsWellFormed(users, fs, FR.Resolve(reqs, k, st))
  {
    var reqs' := FR.Resolve(reqs, k, st);
    FR.ResolveKeepsPendingPairsUnique(reqs, k, st);
    assert RequestIds(reqs') == RequestIds(reqs);
    forall j | 0 <= j < |reqs'| && reqs'[j].status == FR.Pending
      ensures !FS.AreFriends(fs, reqs'[j].sender, reqs'[j].receiver)
    {
      assert reqs'[j] == reqs[j];
    }
  }

  lemma AcceptKeepsRequestsWellFormed(users: seq<UM.User>, fs: seq<FS.Friendship>, reqs: seq<FR.FriendRequest>,
                                      k: nat, f: FS.Friendship, users': seq<UM.User>)
    requires RequestsWellFormed(users, fs, reqs) && k < |reqs| && reqs[k].status == FR.Pending
    requires FS.Between(f, reqs[k].sender, reqs[k].receiver)
    requires UserIds(users') == UserIds(users)
    ensures RequestsWellFormed(users', fs + [f], FR.Resolve(reqs, k, FR.Accepted))
  {
    var reqs' := FR.Resolve(reqs, k, FR.Accepted);
    FR.ResolveKeepsPendingPairsUnique(reqs, k, FR.Accepted);
    assert RequestIds(reqs') == RequestIds(reqs);
    forall j | 0 <= j < |reqs'| && reqs'[j].status == FR.Pending
      ensures !FS.AreFriends(fs + [f], reqs'[j].sender, reqs'[j].receiver)
    {
      assert j != k && reqs'[j] == reqs[j];
      assert !FR.PendingBetween(reqs'[j], reqs[k].sender, reqs[k].receiver);
      forall m | 0 <= m < |fs + [f]| ensures !FS.Between((fs + [f])[m], reqs[j].sender, reqs[j].receiver) {
        if m < |fs| { assert (fs + [f])[m] == fs[m]; }
      }
    }
  }

  lemma RemoveKeepsFriendshipsWellFormed(users: seq<UM.User>, rooms: seq<Room>, fs: seq<FS.Friendship>,
                                         k: nat, users': seq<UM.User>)
    requires FriendshipsWellFormed(users, rooms, fs) && k < |fs|
    requires UserIds(users') == UserIds(users)
    ensures FriendshipsWellFormed(users', rooms, fs[..k] + fs[k + 1..])
  {
    var fs' := fs[..k] + fs[k + 1..];
    forall i | 0 <= i < |fs'| ensures fs'[i] == fs[if i < k then i else i + 1] {
      RemoveAtIndex(fs, k, i);
    }
    assert FS.AllCanonical(fs');
    forall i, j | 0 <= i < |fs'| && 0 <= j < |fs'| && i != j
      ensures (fs'[i].user1, fs'[i].user2) != (fs'[j].user1, fs'[j].user2)
      ensures FriendshipIds(fs')[i] != FriendshipIds(fs')[j]
      ensures fs'[i].conversationRoom != fs'[j].conversationRoom
    {
      var i', j' := if i < k then i else i + 1, if j < k then j else j + 1;
      assert fs'[i] == fs[i'] && fs'[j] == fs[j'];
      assert FriendshipIds(fs)[i'] != FriendshipIds(fs)[j'];
    }
    forall i | 0 <= i < |fs'|
      ensures fs'[i].user1 != fs'[i].user2
      ensures fs'[i].user1 in UserIds(users') && fs'[i].user2 in UserIds(users')
      ensures IsDirectRoomOf(rooms, fs'[i])
    {
      assert fs'[i] == fs[if i < k then i else i + 1];
    }
  }

  lemma RemoveKeepsRequestsWellFormed(users: seq<UM.User>, fs: seq<FS.Friendship>,
                                      reqs: seq<FR.FriendRequest>, k: nat, users': seq<UM.User>)
    requires RequestsWellFormed(users, fs, reqs) && FS.AllCanonical(fs) && FS.PairsUnique(fs) && k < |fs|
    requires UserIds(users') == UserIds(users)
    ensures RequestsWellFormed(users', fs[..k] + fs[k + 1..], reqs)
  {
    forall j | 0 <= j < |reqs| && reqs[j].status == FR.Pending
      ensures !FS.AreFriends(fs[..k] + fs[k + 1..], reqs[j].sender, reqs[j].receiver)
    {
      RemoveAtAreFriends(fs, k, reqs[j].sender, reqs[j].receiver);
    }
  }

  lemma AppendMessageKeepsRoomsWellFormed(rooms: seq<Room>, msgs: seq<Message>, room: Room, m: Message)
    requires RoomsWellFormed(rooms, msgs) && room.id !in RoomIds(rooms) && m.id !in MessageIds(msgs)
    requires m.room == room.id
    ensures RoomsWellFormed(rooms + [room], msgs + [m])
  {
    assert RoomIds(rooms + [room]) == RoomIds(rooms) + [room.id];
    assert MessageIds(msgs + [m]) == MessageIds(msgs) + [m.id];
  }

  // ---------------------------------------------------------------------
  // The collections as one value, and the handlers as transitions on it
  // ---------------------------------------------------------------------

  /** The five collections the controller reads and writes. */
  datatype Db = Db(users: seq<UM.User>, requests: seq<FR.FriendRequest>, friendships: seq<FS.Friendship>,
                   rooms: seq<Room>, messages: seq<Message>)

  ghost predicate Consistent(db: Db)
  {
    StoreInvariant(db.users, db.requests, db.friendships, db.rooms, db.messages)
  }

  /** The collections after a handler ran, and what it answered. */
  datatype Outcome<T> = Outcome(db: Db, reply: Result<T, HttpError>)

  /**
   * `searchUserByEmail`: find another user by email and report how they
   * relate to the caller. The email path lowercases, and Mongoose applies
   * that to the query value as well, so the lookup is on the lowered email.
   */
  function SearchUserByEmail(db: Db, currentUserId: Id, email: string): (r: Result<SearchReply, HttpError>)
    ensures r.Err? <==> email == ""
    ensures r.Err? ==> r.error.status == 400
    ensures r.Ok? ==> (r.value.NoMatch? <==>
      forall i :: 0 <= i < |db.users| ==> !(db.users[i].email == Strings.ToLowerAscii(email) && db.users[i].id != currentUserId))
    ensures r.Ok? && r.value.Found? ==>
      var v := r.value.user;
      && (exists i :: 0 <= i < |db.users| && db.users[i].id == v.id && db.users[i].email == Strings.ToLowerAscii(email) && v.id != currentUserId
            && v.username == db.users[i].username && v.email == db.users[i].email && v.avatar == db.users[i].avatar
            && v.bio == (if v.isFriend then None else Some(db.users[i].bio)))
      && (v.isFriend <==> FS.AreFriends(db.friendships, currentUserId, v.id))
      && (v.isFriend ==>
            && v.conversationId.Some?
            && !v.hasPendingRequest
            && (exists k :: 0 <= k < |db.friendships| && FS.Between(db.friendships[k], currentUserId, v.id) && db.friendships[k].conversationRoom == v.conversationId.value))
      && (!v.isFriend ==> (v.hasPendingRequest <==> FR.HasPendingBetween(db.requests, currentUserId, v.id)))
      && (v.requestId.Some? <==> v.hasPendingRequest)
      && (v.requestId.Some? ==>
            exists k :: 0 <= k < |db.requests| && db.requests[k].id == v.requestId.value
              && FR.PendingBetween(db.requests[k], currentUserId, v.id)
              && (v.requestSentByMe <==> db.requests[k].sender == currentUserId))
      && (v.requestSentByMe ==>
            exists k :: 0 <= k < |db.requests| && db.requests[k].status == FR.Pending && db.requests[k].sender == currentUserId && db.requests[k].receiver == v.id)
      && (v.hasPendingRequest && !v.requestSentByMe ==>
            exists k :: 0 <= k < |db.requests| && db.requests[k].status == FR.Pending && db.requests[k].sender == v.id && db.requests[k].receiver == currentUserId)
  {
    if email == "" then Err(HttpError(400, "Email is required"))
    else
      match FindUserByEmailExcept(db.users, Strings.ToLowerAscii(email), currentUserId)
      case None => Ok(NoMatch("No user found with that email"))
      case Some(u) =>
        var k :| 0 <= k < |db.users| && db.users[k] == u;
        match FS.FindBetweenUsers(db.friendships, currentUserId, u.id)
        case Some(f) =>
          var j :| 0 <= j < |db.friendships| && db.friendships[j] == f;
          Ok(Found(UserView(u.id, u.username, u.email, u.avatar, None, true, Some(f.conversationRoom),
                            false, false, None)))
        case None =>
          var p := FR.FindBetweenUsers(db.requests, currentUserId, u.id);
          var j :| p.Some? ==> 0 <= j < |db.requests| && db.requests[j] == p.value;
          Ok(Found(UserView(u.id, u.username, u.email, u.avatar, Some(u.bio), false, None,
                            p.Some?, p.Some? && p.value.sender == currentUserId,
                            if p.Some? then Some(p.value.id) else None)))
  }

  /** `getPendingRequests`: the pending requests the user received. */
  function GetPendingRequests(db: Db, userId: Id): (r: seq<FR.FriendRequest>)
    ensures forall x :: x in r <==> x in db.requests && x.receiver == userId && x.status == FR.Pending
  {
    FR.FindPendingForUser(db.requests, userId)
  }

  /** One entry of the friends list: the other user of `f`, its room and its id. */
  function ViewOf(f: FS.Friendship, userId: Id): (v: FriendView)
    ensures v.conversationId == f.conversationRoom && v.friendshipId == f.id
    ensures (f.user1 == userId || f.user2 == userId) ==> {userId, v.friendId} == {f.user1, f.user2}
  {
    FriendView(FS.GetFriendId(f, userId), f.conversationRoom, f.id)
  }

  function FriendViews(fs: seq<FS.Friendship>, userId: Id): (r: seq<FriendView>)
    ensures |r| == |fs|
    ensures forall v :: v in r <==> exists f :: f in fs && v == ViewOf(f, userId)
  {
    if |fs| == 0 then []
    else
      var rest := FriendViews(fs[1..], userId);
      assert forall f :: f in fs <==> f == fs[0] || f in fs[1..];
      [ViewOf(fs[0], userId)] + rest
  }


  /** `getFriends`: for each friendship of the user, the other user, the shared room and the friendship. */
  function GetFriends(db: Db, userId: Id): (r: seq<FriendView>)
    ensures |r| == |FS.FindFriendsOf(db.friendships, userId)|
    ensures forall v :: v in r <==> exists f :: f in db.friendships && (f.user1 == userId || f.user2 == userId)
                                                && v == ViewOf(f, userId)
  {
    FriendViews(FS.FindFriendsOf(db.friendships, userId), userId)
  }

  /** Under the invariant every entry of the friends list is a user the caller is friends with. */
  lemma GetFriendsAreFriends(db: Db, userId: Id, v: FriendView)
    requires Consistent(db) && v in GetFriends(db, userId)
    ensures FS.AreFriends(db.friendships, userId, v.friendId) && v.friendId != userId
  {
    var f :| f in db.friendships && (f.user1 == userId || f.user2 == userId) && v == ViewOf(f, userId);
    var k :| 0 <= k < |db.friendships| && db.friendships[k] == f;
    assert FS.Between(db.friendships[k], userId, v.friendId);
  }

  /** `sendFriendRequest`: on success exactly one pending request is added and nothing else changes. */
  function Send(db: Db, senderId: Id, receiverId: Id, newId: Id): (o: Outcome<seq<Notification>>)
    ensures var g := SendGuard(db.users, db.friendships, db.requests, senderId, receiverId);
      && (o.reply.Ok? <==> g.None?)
      && (g.Some? ==> o.reply == Err(g.value) && o.db == db)
    ensures o.reply.Ok? ==>
      && o.db == db.(requests := db.requests + [FR.FriendRequest(newId, senderId, receiverId, FR.Pending)])
      && FR.HasPendingBetween(o.db.requests, senderId, receiverId)
      && o.reply.value == NotifyIfOnline(SocketOf(FindUser(db.users, receiverId)), FriendRequestReceived(newId, senderId))
  {
    var g := SendGuard(db.users, db.friendships, db.requests, senderId, receiverId);
    if g.Some? then Outcome(db, Err(g.value))
    else
      var q := FR.FriendRequest(newId, senderId, receiverId, FR.Pending);
      var reqs' := db.requests + [q];
      assert FR.PendingBetween(reqs'[|db.requests|], senderId, receiverId);
      Outcome(db.(requests := reqs'),
              Ok(NotifyIfOnline(SocketOf(FindUser(db.users, receiverId)), FriendRequestReceived(newId, senderId))))
  }

  lemma SendKeepsConsistent(db: Db, senderId: Id, receiverId: Id, newId: Id)
    requires Consistent(db) && senderId in UserIds(db.users) && newId !in RequestIds(db.requests)
    ensures Consistent(Send(db, senderId, receiverId, newId).db)
  {
    var o := Send(db, senderId, receiverId, newId);
    if o.reply.Ok? {
      AddPendingRequest(db.users, db.friendships, db.requests, FR.FriendRequest(newId, senderId, receiverId, FR.Pending));
    }
  }

  /**
   * `acceptFriendRequest`: after the three guards, one direct room, one
   * friendship referencing it, the request marked accepted, both set-adds
   * and one system message.
   */
  function Accept(db: Db, requestId: Id, actorId: Id, roomId: Id, friendshipId: Id, messageId: Id): (o: Outcome<AcceptReply>)
    requires NoDup(RequestIds(db.requests))
    ensures var g := ResolveGuard(db.requests, requestId, actorId, "accept");
      && (o.reply.Ok? <==> g.Ok?)
      && (g.Err? ==> o.reply == Err(g.error) && o.db == db)
    ensures o.reply.Ok? ==>
      var k := ResolveGuard(db.requests, requestId, actorId, "accept").value;
      var q := db.requests[k];
      var senderName := UsernameOf(db.users, q.sender);
      && o.db.requests == FR.Resolve(db.requests, k, FR.Accepted)
      && o.db.rooms == db.rooms + [DirectRoom(roomId, senderName, UsernameOf(db.users, q.receiver), actorId, q.sender, q.receiver)]
      && o.db.friendships == db.friendships + [NewFriendship(friendshipId, q.sender, q.receiver, roomId)]
      && o.db.users == AddFriend(AddFriend(db.users, q.sender, q.receiver), q.receiver, q.sender)
      && o.db.messages == db.messages + [Message(messageId, actorId, roomId, WelcomeText(senderName), System)]
      && o.reply.value == AcceptReply(friendshipId, roomId,
           AcceptNotifications(requestId, FindUser(db.users, actorId), FindUser(db.users, q.sender),
                               actorId, q.sender, friendshipId, roomId))
  {
    match ResolveGuard(db.requests, requestId, actorId, "accept")
    case Err(e) => Outcome(db, Err(e))
    case Ok(k) =>
      var q := db.requests[k];
      var senderName, receiverName := UsernameOf(db.users, q.sender), UsernameOf(db.users, q.receiver);
      Outcome(
        Db(AddFriend(AddFriend(db.users, q.sender, q.receiver), q.receiver, q.sender),
           FR.Resolve(db.requests, k, FR.Accepted),
           db.friendships + [NewFriendship(friendshipId, q.sender, q.receiver, roomId)],
           db.rooms + [DirectRoom(roomId, senderName, receiverName, actorId, q.sender, q.receiver)],
           db.messages + [Message(messageId, actorId, roomId, WelcomeText(senderName), System)]),
        Ok(AcceptReply(friendshipId, roomId,
             AcceptNotifications(requestId, FindUser(db.users, actorId), FindUser(db.users, q.sender),
                                 actorId, q.sender, friendshipId, roomId))))
  }

  lemma AcceptKeepsConsistent(db: Db, requestId: Id, actorId: Id, roomId: Id, friendshipId: Id, messageId: Id)
    requires Consistent(db)
    requires roomId !in RoomIds(db.rooms) && friendshipId !in FriendshipIds(db.friendships) && messageId !in MessageIds(db.messages)
    ensures Consistent(Accept(db, requestId, actorId, roomId, friendshipId, messageId).db)
  {
    var g := ResolveGuard(db.requests, requestId, actorId, "accept");
    if g.Ok? {
      var k := g.value;
      var q := db.requests[k];
      var users, rooms, fs, msgs := db.users, db.rooms, db.friendships, db.messages;
      var room := DirectRoom(roomId, UsernameOf(users, q.sender), UsernameOf(users, q.receiver), actorId, q.sender, q.receiver);
      var f := NewFriendship(friendshipId, q.sender, q.receiver, roomId);
      var m := Message(messageId, actorId, roomId, WelcomeText(UsernameOf(users, q.sender)), System);
      var users' := AddFriend(AddFriend(users, q.sender, q.receiver), q.receiver, q.sender);
      var o := Accept(db, requestId, actorId, roomId, friendshipId, messageId);
      assert o.db == Db(users', FR.Resolve(db.requests, k, FR.Accepted), fs + [f], rooms + [room], msgs + [m]);
      assert UserIds(users') == UserIds(users);
      AddFriendshipKeepsWellFormed(users, rooms, fs, room, f, q.sender, q.receiver);
      AddFriendshipKeepsFriendsMatch(users, fs, f, q.sender, q.receiver);
      AcceptKeepsRequestsWellFormed(users, fs, db.requests, k, f, users');
      AppendMessageKeepsRoomsWellFormed(rooms, msgs, room, m);
      assert FriendshipsWellFormed(users, rooms + [room], fs + [f]);
      assert FriendshipsWellFormed(users', rooms + [room], fs + [f]);
    }
  }

  /** After a successful accept the two users list each other as friends and nothing is pending between them. */
  lemma AcceptMakesMutualFriends(db: Db, requestId: Id, actorId: Id, roomId: Id, friendshipId: Id, messageId: Id,
                                 i: nat, j: nat)
    requires Consistent(db)
    requires roomId !in RoomIds(db.rooms) && friendshipId !in FriendshipIds(db.friendships) && messageId !in MessageIds(db.messages)
    requires Accept(db, requestId, actorId, roomId, friendshipId, messageId).reply.Ok?
    requires var o := Accept(db, requestId, actorId, roomId, friendshipId, messageId);
      var k := ResolveGuard(db.requests, requestId, actorId, "accept").value;
      i < |o.db.users| && j < |o.db.users|
      && o.db.users[i].id == db.requests[k].sender && o.db.users[j].id == db.requests[k].receiver
    ensures var o := Accept(db, requestId, actorId, roomId, friendshipId, messageId);
      && o.db.users[j].id in o.db.users[i].friends
      && o.db.users[i].id in o.db.users[j].friends
      && !FR.HasPendingBetween(o.db.requests, o.db.users[i].id, o.db.users[j].id)
  {
    var o := Accept(db, requestId, actorId, roomId, friendshipId, messageId);
    var k := ResolveGuard(db.requests, requestId, actorId, "accept").value;
    AcceptKeepsConsistent(db, requestId, actorId, roomId, friendshipId, messageId);
    FR.ResolveKeepsPendingPairsUnique(db.requests, k, FR.Accepted);
    var fs' := o.db.friendships;
    assert FS.Between(fs'[|db.friendships|], db.requests[k].sender, db.requests[k].receiver);
    FS.AreFriendsSymmetric(fs', db.requests[k].sender, db.requests[k].receiver);
  }

  /** `declineFriendRequest`: after the three guards, only the request's status changes, to declined. */
  function Decline(db: Db, requestId: Id, actorId: Id): (o: Outcome<seq<Notification>>)
    requires NoDup(RequestIds(db.requests))
    ensures var g := ResolveGuard(db.requests, requestId, actorId, "decline");
      && (o.reply.Ok? <==> g.Ok?)
      && (g.Err? ==> o.reply == Err(g.error) && o.db == db)
    ensures o.reply.Ok? ==>
      var k := ResolveGuard(db.requests, requestId, actorId, "decline").value;
      && o.db == db.(requests := FR.Resolve(db.requests, k, FR.Declined))
      && o.reply.value == NotifyIfOnline(SocketOf(FindUser(db.users, db.requests[k].sender)), FriendRequestDeclined(requestId, actorId))
  {
    match ResolveGuard(db.requests, requestId, actorId, "decline")
    case Err(e) => Outcome(db, Err(e))
    case Ok(k) =>
      Outcome(db.(requests := FR.Resolve(db.requests, k, FR.Declined)),
              Ok(NotifyIfOnline(SocketOf(FindUser(db.users, db.requests[k].sender)), FriendRequestDeclined(requestId, actorId))))
  }

  lemma DeclineKeepsConsistent(db: Db, requestId: Id, actorId: Id)
    requires Consistent(db)
    ensures Consistent(Decline(db, requestId, actorId).db)
  {
    var g := ResolveGuard(db.requests, requestId, actorId, "decline");
    if g.Ok? {
      assert Decline(db, requestId, actorId).db == db.(requests := FR.Resolve(db.requests, g.value, FR.Declined));
      ResolveKeepsRequestsWellFormed(db.users, db.friendships, db.requests, g.value, FR.Declined);
    }
  }

  // ---------------------------------------------------------------------
  // Accept and decline under the unique index as declared
  // ---------------------------------------------------------------------

  /** The `error` text of a duplicate-key failure, abbreviated; the error handler answers it with 500. */
  const DuplicateKeyMessage := "E11000 duplicate key error"

  /**
   * `declineFriendRequest` with the save checked against the index on
   * (sender, receiver, status): where `Decline` assumes pending-only
   * uniqueness, this one fails with 500 and changes nothing when another
   * request of the same sender and receiver is already declined.
   */
  function DeclineAsWritten(db: Db, requestId: Id, actorId: Id): (o: Outcome<seq<Notification>>)
    requires NoDup(RequestIds(db.requests))
    ensures var g := ResolveGuard(db.requests, requestId, actorId, "decline");
      && (g.Err? ==> o == Decline(db, requestId, actorId))
      && (g.Ok? && FR.SaveStatusAsWritten(db.requests, g.value, FR.Declined).Ok? ==> o == Decline(db, requestId, actorId))
      && (g.Ok? && FR.SaveStatusAsWritten(db.requests, g.value, FR.Declined).Err? ==>
            o.reply.Err? && o.reply.error.status == 500 && o.db == db)
  {
    match ResolveGuard(db.requests, requestId, actorId, "decline")
    case Err(e) => Outcome(db, Err(e))
    case Ok(k) =>
      match FR.SaveStatusAsWritten(db.requests, k, FR.Declined)
      case Ok(_) => Decline(db, requestId, actorId)
      case Err(_) => Outcome(db, Err(HttpError(500, DuplicateKeyMessage)))
  }

  /**
   * `acceptFriendRequest` with both unique indexes as declared. The room is
   * created first; `Friendship.create` then fails with 500 when the ordered
   * pair is already stored (leaving only the room); otherwise the request's
   * save fails with 500 when its (sender, receiver, status) triple collides
   * (leaving the room and the friendship). In both cases the request stays
   * pending and neither friends list changes.
   */
  function AcceptAsWritten(db: Db, requestId: Id, actorId: Id, roomId: Id, friendshipId: Id, messageId: Id): (o: Outcome<AcceptReply>)
    requires NoDup(RequestIds(db.requests))
    ensures var g := ResolveGuard(db.requests, requestId, actorId, "accept");
      && (g.Err? ==> o == Accept(db, requestId, actorId, roomId, friendshipId, messageId))
      && (g.Ok? ==>
            var q := db.requests[g.value];
            var f := NewFriendship(friendshipId, q.sender, q.receiver, roomId);
            !FS.PairStored(db.friendships, f.user1, f.user2) && FR.SaveStatusAsWritten(db.requests, g.value, FR.Accepted).Ok? ==>
              o == Accept(db, requestId, actorId, roomId, friendshipId, messageId))
    ensures var g := ResolveGuard(db.requests, requestId, actorId, "accept");
      g.Ok? ==>
        var q := db.requests[g.value];
        var room := DirectRoom(roomId, UsernameOf(db.users, q.sender), UsernameOf(db.users, q.receiver), actorId, q.sender, q.receiver);
        var f := NewFriendship(friendshipId, q.sender, q.receiver, roomId);
        && (FS.PairStored(db.friendships, f.user1, f.user2) ==>
              o.reply.Err? && o.reply.error.status == 500 && o.db == db.(rooms := db.rooms + [room]))
        && (!FS.PairStored(db.friendships, f.user1, f.user2) && FR.SaveStatusAsWritten(db.requests, g.value, FR.Accepted).Err? ==>
              o.reply.Err? && o.reply.error.status == 500
              && o.db == db.(rooms := db.rooms + [room], friendships := db.friendships + [f]))
  {
    match ResolveGuard(db.requests, requestId, actorId, "accept")
    case Err(e) => Outcome(db, Err(e))
    case Ok(k) =>
      var q := db.requests[k];
      var room := DirectRoom(roomId, UsernameOf(db.users, q.sender), UsernameOf(db.users, q.receiver), actorId, q.sender, q.receiver);
      var f := NewFriendship(friendshipId, q.sender, q.receiver, roomId);
      if FS.PairStored(db.friendships, f.user1, f.user2) then
        Outcome(db.(rooms := db.rooms + [room]), Err(HttpError(500, DuplicateKeyMessage)))
      else
        match FR.SaveStatusAsWritten(db.requests, k, FR.Accepted)
        case Ok(_) => Accept(db, requestId, actorId, roomId, friendshipId, messageId)
        case Err(_) =>
          Outcome(db.(rooms := db.rooms + [room], friendships := db.friendships + [f]),
                  Err(HttpError(500, DuplicateKeyMessage)))
  }

  /**
   * In a consistent store the friendship index never refuses an accept: the
   * request is pending, so its two users are not yet friends.
   */
  lemma ConsistentAcceptPairFree(db: Db, requestId: Id, actorId: Id, roomId: Id, friendshipId: Id)
    requires Consistent(db)
    requires ResolveGuard(db.requests, requestId, actorId, "accept").Ok?
    ensures var q := db.requests[ResolveGuard(db.requests, requestId, actorId, "accept").value];
      var f := NewFriendship(friendshipId, q.sender, q.receiver, roomId);
      !FS.PairStored(db.friendships, f.user1, f.user2)
  {
    var k := ResolveGuard(db.requests, requestId, actorId, "accept").value;
    var q := db.requests[k];
    var f := NewFriendship(friendshipId, q.sender, q.receiver, roomId);
    assert !FS.AreFriends(db.friendships, q.sender, q.receiver);
    forall j | 0 <= j < |db.friendships|
      ensures !(db.friendships[j].user1 == f.user1 && db.friendships[j].user2 == f.user2)
    {
      assert !FS.Between(db.friendships[j], q.sender, q.receiver);
    }
  }

  /**
   * A store with two users "a" and "b" (no friends, no sockets), a first
   * request "r1" from "a" to "b" already resolved as `st`, and a second
   * request "r2" from "a" to "b" pending.
   */
  function SecondRequestStore(st: FR.Status): Db
  {
    Db([UM.User("a", "alice", "a@x.io", "", "", UM.Offline, None, []),
        UM.User("b", "bobby", "b@x.io", "", "", UM.Offline, None, [])],
       [FR.FriendRequest("r1", "a", "b", st), FR.FriendRequest("r2", "a", "b", FR.Pending)], [], [], [])
  }

  /** That store is consistent. */
  lemma SecondRequestStoreConsistent(st: FR.Status)
    requires st != FR.Pending
    ensures Consistent(SecondRequestStore(st))
  {
    var db := SecondRequestStore(st);
    SecondRequestStoreUsers(db.users);
    SecondRequestStoreRequests(db.users, db.requests, st);
    assert FriendshipsWellFormed(db.users, [], []);
    assert RoomsWellFormed([], []);
  }

  lemma SecondRequestStoreUsers(users: seq<UM.User>)
    requires users == SecondRequestStore(FR.Accepted).users
    ensures UserIds(users) == ["a", "b"]
    ensures NoDup(UserIds(users)) && FriendsNoDup(users) && FriendsMatch(users, [])
  {
    assert UserIds(users)[0] == "a" && UserIds(users)[1] == "b";
    forall i, v | 0 <= i < |users| ensures v !in users[i].friends && !FS.AreFriends([], users[i].id, v) {
    }
  }

  lemma SecondRequestStoreRequests(users: seq<UM.User>, reqs: seq<FR.FriendRequest>, st: FR.Status)
    requires UserIds(users) == ["a", "b"] && st != FR.Pending
    requires reqs == [FR.FriendRequest("r1", "a", "b", st), FR.FriendRequest("r2", "a", "b", FR.Pending)]
    ensures RequestsWellFormed(users, [], reqs)
  {
    assert RequestIds(reqs)[0] == "r1" && RequestIds(reqs)[1] == "r2";
    assert FR.PendingPairsUnique(reqs) by {
      assert reqs[0].status == st;
    }
    forall k | 0 <= k < |reqs| ensures reqs[k].sender != reqs[k].receiver
      && reqs[k].sender in UserIds(users) && reqs[k].receiver in UserIds(users)
    {
      assert reqs[k].sender == "a" && reqs[k].receiver == "b";
    }
  }

  /** In that store "b" may resolve "r2", and saving "r2" as `st` collides with "r1" under the index as declared. */
  lemma SecondRequestStoreGuard(st: FR.Status, verb: string)
    requires st != FR.Pending
    ensures NoDup(RequestIds(SecondRequestStore(st).requests))
    ensures ResolveGuard(SecondRequestStore(st).requests, "r2", "b", verb) == Ok(1)
    ensures FR.SaveStatusAsWritten(SecondRequestStore(st).requests, 1, st).Err?
  {
    var reqs := SecondRequestStore(st).requests;
    assert RequestIds(reqs) == ["r1", "r2"];
    assert reqs[0].status == st;
  }

  /**
   * "a" asked "b", "b" declined, and "a" asked again: the store is
   * consistent, the intended decline succeeds, but the save as declared
   * collides with the first declined request and the handler answers 500.
   */
  lemma SecondDeclineFailsAsWritten()
    ensures var db := SecondRequestStore(FR.Declined);
      && Consistent(db)
      && Decline(db, "r2", "b").reply.Ok?
      && DeclineAsWritten(db, "r2", "b").reply.Err?
      && DeclineAsWritten(db, "r2", "b").reply.error.status == 500
  {
    SecondRequestStoreConsistent(FR.Declined);
    SecondRequestStoreGuard(FR.Declined, "decline");
  }

  /**
   * "a" and "b" were friends through request "r1", "a" removed "b" and asked
   * again: the store is consistent, but the accept as declared answers 500
   * after storing a friendship between the two, so the friends lists no
   * longer match the friendships and the store is no longer consistent.
   */
  lemma SecondAcceptLeavesFriendshipAsWritten()
    ensures var db := SecondRequestStore(FR.Accepted);
      var o := AcceptAsWritten(db, "r2", "b", "room2", "f2", "m2");
      && Consistent(db)
      && Accept(db, "r2", "b", "room2", "f2", "m2").reply.Ok?
      && o.reply.Err? && o.reply.error.status == 500
      && FS.AreFriends(o.db.friendships, "a", "b")
      && "b" !in o.db.users[0].friends
      && !Consistent(o.db)
  {
    var db := SecondRequestStore(FR.Accepted);
    SecondRequestStoreConsistent(FR.Accepted);
    SecondRequestStoreGuard(FR.Accepted, "accept");
    var o := AcceptAsWritten(db, "r2", "b", "room2", "f2", "m2");
    assert o.db.users == db.users;
    assert o.db.friendships == [NewFriendship("f2", "a", "b", "room2")];
    assert FS.Between(o.db.friendships[0], "a", "b");
    assert !("b" in o.db.users[0].friends <==> FS.AreFriends(o.db.friendships, o.db.users[0].id, "b"));
  }

  /**
   * Accepting the still-pending "r2" again after that 500: the friendship
   * index now refuses it, so the reply is 500 again, one more room is
   * stored, the friendship is not duplicated and "r2" stays pending.
   */
  lemma AcceptRetryAsWritten()
    ensures NoDup(RequestIds(SecondRequestStore(FR.Accepted).requests))
    ensures AcceptAsWritten(SecondRequestStore(FR.Accepted), "r2", "b", "room2", "f2", "m2").db.requests
            == SecondRequestStore(FR.Accepted).requests
    ensures var o := AcceptAsWritten(SecondRequestStore(FR.Accepted), "r2", "b", "room2", "f2", "m2");
      var o2 := AcceptAsWritten(o.db, "r2", "b", "room3", "f3", "m3");
      && o2.reply.Err? && o2.reply.error.status == 500
      && o2.db.friendships == o.db.friendships && |o2.db.friendships| == 1
      && |o2.db.rooms| == |o.db.rooms| + 1
      && o2.db.requests == o.db.requests && o2.db.requests[1].status == FR.Pending
  {
    var db := SecondRequestStore(FR.Accepted);
    SecondRequestStoreGuard(FR.Accepted, "accept");
    var o := AcceptAsWritten(db, "r2", "b", "room2", "f2", "m2");
    var f := NewFriendship("f2", "a", "b", "room2");
    assert o.db.friendships == [f] && o.db.requests == db.requests;
    var f3 := NewFriendship("f3", "a", "b", "room3");
    assert f3.user1 == f.user1 && f3.user2 == f.user2;
    assert FS.PairStored(o.db.friendships, f3.user1, f3.user2) by {
      assert o.db.friendships[0] == f;
    }
  }

  /**
   * `removeFriend`: deletes the friendship between the two users and pulls
   * each from the other's friends array; the room and its messages stay.
   */
  function Remove(db: Db, currentUserId: Id, userId: Id): (o: Outcome<seq<Notification>>)
    ensures userId == "" ==> o.reply == Err(HttpError(400, "User ID is required"))
    ensures userId != "" && !FS.AreFriends(db.friendships, currentUserId, userId) ==>
      o.reply == Err(HttpError(404, "Friendship not found"))
    ensures o.reply.Ok? <==> userId != "" && FS.AreFriends(db.friendships, currentUserId, userId)
    ensures o.reply.Err? ==> o.db == db
    ensures o.reply.Ok? ==>
      var k := FS.IndexBetween(db.friendships, currentUserId, userId).value;
      && o.db == db.(friendships := db.friendships[..k] + db.friendships[k + 1..],
                     users := PullFriend(PullFriend(db.users, currentUserId, userId), userId, currentUserId))
      && o.reply.value == NotifyIfOnline(SocketOf(FindUser(db.users, userId)), FriendshipRemoved(currentUserId, db.friendships[k].id))
  {
    if userId == "" then Outcome(db, Err(HttpError(400, "User ID is required")))
    else
      match FS.IndexBetween(db.friendships, currentUserId, userId)
      case None => Outcome(db, Err(HttpError(404, "Friendship not found")))
      case Some(k) =>
        Outcome(db.(friendships := db.friendships[..k] + db.friendships[k + 1..],
                    users := PullFriend(PullFriend(db.users, currentUserId, userId), userId, currentUserId)),
                Ok(NotifyIfOnline(SocketOf(FindUser(db.users, userId)), FriendshipRemoved(currentUserId, db.friendships[k].id))))
  }

  /** After remove the two users are no longer friends. */
  lemma RemoveEndsFriendship(db: Db, currentUserId: Id, userId: Id)
    requires FS.AllCanonical(db.friendships) && FS.PairsUnique(db.friendships)
    ensures userId != "" ==> !FS.AreFriends(Remove(db, currentUserId, userId).db.friendships, currentUserId, userId)
  {
    var o := Remove(db, currentUserId, userId);
    if userId != "" {
      if FS.AreFriends(db.friendships, currentUserId, userId) {
        var k := FS.IndexBetween(db.friendships, currentUserId, userId).value;
        assert o.db.friendships == db.friendships[..k] + db.friendships[k + 1..];
        RemoveAtAreFriends(db.friendships, k, currentUserId, userId);
      } else {
        assert o.db == db;
      }
    }
  }

  /** Remove keeps the invariant. */
  lemma RemoveKeepsConsistent(db: Db, currentUserId: Id, userId: Id)
    requires Consistent(db)
    ensures Consistent(Remove(db, currentUserId, userId).db)
  {
    var o := Remove(db, currentUserId, userId);
    if o.reply.Ok? {
      var k := FS.IndexBetween(db.friendships, currentUserId, userId).value;
      var users' := PullFriend(PullFriend(db.users, currentUserId, userId), userId, currentUserId);
      assert db.friendships[k].user1 != db.friendships[k].user2;
      RemoveFriendshipKeepsFriendsMatch(db.users, db.friendships, k, currentUserId, userId);
      RemoveKeepsFriendshipsWellFormed(db.users, db.rooms, db.friendships, k, users');
      RemoveKeepsRequestsWellFormed(db.users, db.friendships, db.requests, k, users');
    }
  }

  /**
   * A removed friend can be asked again: in a store where no pending request
   * joins two friends (the invariant keeps this), the send guard passes
   * right after the removal.
   */
  lemma RemoveThenSendAllowed(db: Db, currentUserId: Id, userId: Id)
    requires FS.AllCanonical(db.friendships) && FS.PairsUnique(db.friendships)
    requires forall k :: 0 <= k < |db.requests| && db.requests[k].status == FR.Pending ==>
      !FS.AreFriends(db.friendships, db.requests[k].sender, db.requests[k].receiver)
    requires userId != "" && userId != currentUserId && userId in UserIds(db.users)
    requires FS.AreFriends(db.friendships, currentUserId, userId)
    ensures var d := Remove(db, currentUserId, userId).db;
      SendGuard(d.users, d.friendships, d.requests, currentUserId, userId).None?
  {
    RemoveEndsFriendship(db, currentUserId, userId);
    var d := Remove(db, currentUserId, userId).db;
    assert d.requests == db.requests;
    FS.AreFriendsSymmetric(db.friendships, currentUserId, userId);
    forall k | 0 <= k < |db.requests| && db.requests[k].status == FR.Pending
      ensures !FR.Joins(db.requests[k], currentUserId, userId)
    {
      assert !FS.AreFriends(db.friendships, db.requests[k].sender, db.requests[k].receiver);
    }
    assert !FR.HasPendingBetween(d.requests, currentUserId, userId);
    assert UserIds(d.users) == UserIds(db.users);
  }

  // ---------------------------------------------------------------------
  // The store
  // ---------------------------------------------------------------------

  class FriendStore {
    var users: seq<UM.User>
    var requests: seq<FR.FriendRequest>
    var friendships: seq<FS.Friendship>
    var rooms: seq<Room>
    var messages: seq<Message>

    function Snapshot(): Db
      reads this
    {
      Db(users, requests, friendships, rooms, messages)
    }

    ghost predicate Valid()
      reads this
    {
      Consistent(Snapshot())
    }

    /** A store holding registered users without friends and the seeded rooms. */
    constructor (users: seq<UM.User>, rooms: seq<Room>)
      requires NoDup(UserIds(users)) && NoDup(RoomIds(rooms))
      requires forall i :: 0 <= i < |users| ==> users[i].friends == []
      ensures Valid()
      ensures Snapshot() == Db(users, [], [], rooms, [])
    {
      this.users := users;
      this.rooms := rooms;
      requests := [];
      friendships := [];
      messages := [];
    }

    method Apply(d: Db)
      modifies this
      ensures Snapshot() == d
    {
      users, requests, friendships, rooms, messages := d.users, d.requests, d.friendships, d.rooms, d.messages;
    }

    method SendFriendRequest(senderId: Id, receiverId: Id, newId: Id) returns (r: Result<seq<Notification>, HttpError>)
      requires Valid() && senderId in UserIds(users) && newId !in RequestIds(requests)
      modifies this
      ensures Valid()
      ensures Outcome(Snapshot(), r) == Send(old(Snapshot()), senderId, receiverId, newId)
    {
      var o := Send(Snapshot(), senderId, receiverId, newId);
      SendKeepsConsistent(Snapshot(), senderId, receiverId, newId);
      Apply(o.db);
      r := o.reply;
    }

    method AcceptFriendRequest(requestId: Id, actorId: Id, roomId: Id, friendshipId: Id, messageId: Id)
      returns (r: Result<AcceptReply, HttpError>)
      requires Valid()
      requires roomId !in RoomIds(rooms) && friendshipId !in FriendshipIds(friendships) && messageId !in MessageIds(messages)
      modifies this
      ensures Valid()
      ensures Outcome(Snapshot(), r) == Accept(old(Snapshot()), requestId, actorId, roomId, friendshipId, messageId)
    {
      var o := Accept(Snapshot(), requestId, actorId, roomId, friendshipId, messageId);
      AcceptKeepsConsistent(Snapshot(), requestId, actorId, roomId, friendshipId, messageId);
      Apply(o.db);
      r := o.reply;
    }

    method DeclineFriendRequest(requestId: Id, actorId: Id) returns (r: Result<seq<Notification>, HttpError>)
      requires Valid()
      modifies this
      ensures Valid()
      ensures Outcome(Snapshot(), r) == Decline(old(Snapshot()), requestId, actorId)
    {
      var o := Decline(Snapshot(), requestId, actorId);
      DeclineKeepsConsistent(Snapshot(), requestId, actorId);
      Apply(o.db);
      r := o.reply;
    }

    method RemoveFriend(currentUserId: Id, userId: Id) returns (r: Result<seq<Notification>, HttpError>)
      requires Valid()
      modifies this
      ensures Valid()
      ensures Outcome(Snapshot(), r) == Remove(old(Snapshot()), currentUserId, userId)
    {
      var o := Remove(Snapshot(), currentUserId, userId);
      RemoveKeepsConsistent(Snapshot(), currentUserId, userId);
      Apply(o.db);
      r := o.reply;
    }
  }
}
