# Friend and chat core of a MERN messaging app, modelled in Dafny

The application is a chat server (Express + Mongoose) with a React client.
Its core is the friendship workflow:

- a user searches another user by e-mail;
- sends a friend request, which the receiver accepts or declines;
- on acceptance the server creates a direct conversation room, a
  friendship record, a welcome system message, and updates both users'
  `friends` lists;
- either friend can later remove the friendship.

The client keeps a chat state (messages, rooms, unread counters, pending
requests, friends) that socket events and REST replies update. The message
bubble, composer and search panel are small state machines.

The model has one Dafny module per source file:

| module | file | form |
|---|---|---|
| `FriendRequestModel` | `friend_request.dfy` | datatypes and functions over a sequence of requests |
| `FriendshipModel` | `friendship.dfy` | functions, plus the class `FriendshipDocument` for the in-place pre-save swap |
| `UserModel` | `user.dfy` | schema validation as a function, plus the class `UserDocument` for the avatar hook |
| `FriendApi` | `friend_api.dfy` | JSON bodies and socket events of the friend routes |
| `FriendController` | `friend_controller.dfy` | see below |
| `ChatApi` | `chat_api.dfy` | the client's records |
| `ChatContextModel` | `chat_context.dfy` | class `ChatState`, one method per event handler or callback |
| `MessageView` | `message_view.dfy` | reaction tally functions and the class `MessageBubble` (touch gestures) |
| `MessageInputModel` | `message_input.dfy` | class `Composer` |
| `SearchBarModel` | `search_bar.dfy` | class `SearchPanel` |
| `Strings`, `Seqs`, `Wrappers` | `strings.dfy`, `seqs.dfy`, `wrappers.dfy` | shared helpers: JavaScript string order, `trim`, UTF-16 length, ASCII lowercase; first position in a sequence; `Option` and `Result` |

`FriendController` is the largest module:

- Every handler is a pure transition `Db -> Outcome`: the new store plus the
  HTTP reply, where a success reply carries the socket notifications.
- The class `FriendStore` holds the five collections as fields. Its methods
  apply those transitions.
- Every method keeps the store invariant `Consistent`:
  - ids are unique;
  - each user's `friends` list equals the friendship relation, without duplicates;
  - friendships are stored with the ordered pair, unique, and each points to
    a direct room of the two users;
  - at most one request is pending per unordered pair, and a pending request
    never joins two friends;
  - every message's room exists.

Collections are sequences in stored order, so `findOne` is the first match.
Ids are strings. The ids a handler would mint (ObjectIds) are parameters,
and the caller guarantees they are fresh. A socket emit becomes a
`Notification` value. It is produced only when the target user's `socketId`
is set and non-empty, which is how JavaScript tests it for truth.

## Model

| member | source | states |
|---|---|---|
| FriendRequestModel.CastStatus | server/models/FriendRequest.js:15-19 | an absent status defaults to pending; a given one is accepted iff it is one of the three enum names, and then casts to the status of that name |
| FriendRequestModel.StatusNameRoundTrip | server/models/FriendRequest.js:15-19 | every status cast back from its stored name is itself |
| FriendRequestModel.IsPendingByName | server/models/FriendRequest.js:38-40 | `isPending()` holds iff the stored status string is 'pending' |
| FriendRequestModel.FindPendingForUser | server/models/FriendRequest.js:43-48 | returns exactly the stored requests received by the user that are pending |
| FriendRequestModel.FindSentByUser | server/models/FriendRequest.js:51-56 | returns exactly the stored requests sent by the user that are pending |
| FriendRequestModel.FindBetweenUsers | server/models/FriendRequest.js:59-67 | returns only a stored pending request joining the two users (either direction), and none iff no such request exists |
| FriendRequestModel.FindBetweenUsersSymmetric | server/models/FriendRequest.js:59-67 | the query gives the same answer with its two arguments swapped |
| FriendRequestModel.SaveStatusAsWritten | server/models/FriendRequest.js:32-35 | a status update is refused with a duplicate-key error iff another request with the same sender and receiver already has the new status; otherwise it changes only that request and keeps the triple index unique |
| FriendRequestModel.SecondDecisionRejectedAsWritten | server/models/FriendRequest.js:32-35 | after one request a→b was declined (or accepted), a second pending request a→b is valid in the store, but declining (accepting) it breaks the triple index |
| FriendRequestModel.Resolve | server/controllers/friendController.js:181-182 | resolving request i sets only its status; every other request and all ids, senders and receivers are unchanged |
| FriendRequestModel.ResolveKeepsPendingPairsUnique | server/controllers/friendController.js:181-182 | resolving a pending request keeps the at-most-one-pending-per-pair invariant and leaves nothing pending between its two users |
| FriendshipModel.OrderedPair | server/models/Friendship.js:74-78 | the hook's output pair is ordered (`user1` is not greater than `user2`), has the same set of users, and is the input when that was already ordered |
| FriendshipModel.OrderedPairSymmetric | server/models/Friendship.js:74-78 | ordering does not depend on the order the two users were given in |
| FriendshipModel.FriendshipDocument.PreSave | server/models/Friendship.js:74-78 | swaps the users in place so that the document holds `OrderedPair` of the old users; the room is unchanged |
| FriendshipModel.AreFriendsSymmetric | server/models/Friendship.js:36-44 | `areFriends(a, b)` iff `areFriends(b, a)` |
| FriendshipModel.FindBetweenUsers | server/models/Friendship.js:47-54 | returns only a stored friendship joining the two users in either order, and none iff they are not friends |
| FriendshipModel.IndexBetween | server/models/Friendship.js:47-54 | the position of the first friendship joining the two; nothing before it joins them |
| FriendshipModel.FindBetweenUsersSymmetric | server/models/Friendship.js:36-54 | `findBetweenUsers` is symmetric in its arguments and finds something iff `areFriends` holds |
| FriendshipModel.FindFriendsOf | server/models/Friendship.js:57-64 | returns exactly the stored friendships in which the user is `user1` or `user2` |
| FriendshipModel.GetFriendId | server/models/Friendship.js:67-71 | returns a member of the pair; for a member `u` of a pair of two distinct users it is the other member |
| FriendshipModel.AtMostOnePerPair | server/models/Friendship.js:31 | with ordered pairs and the unique `(user1, user2)` index, two friendships joining the same two users are the same record |
| Strings.LessIrreflexive | server/models/Friendship.js:75 | JavaScript string comparison is irreflexive |
| Strings.LessAsymmetric | server/models/Friendship.js:75 | JavaScript string comparison is asymmetric |
| Strings.LessTotal | server/models/Friendship.js:75 | two different strings are always ordered one way or the other |
| Strings.LessTransitive | server/models/Friendship.js:75 | JavaScript string comparison is transitive |
| Strings.TrimStart | server/models/User.js:11 | removes a whitespace prefix and leaves a string that does not start with whitespace |
| Strings.TrimEnd | server/models/User.js:11 | removes a whitespace suffix and leaves a string that does not end with whitespace |
| Strings.Trim | client/src/components/MessageInput.jsx:94 | the result is a middle slice of the input with only whitespace cut from both ends, and neither end of a non-empty result is whitespace |
| Strings.TrimBlank | client/src/components/MessageInput.jsx:71 | the trimmed text is empty iff the text is all whitespace |
| Strings.TrimIdempotent | server/models/User.js:11 | trimming twice is trimming once |
| Strings.Utf16Length | server/models/User.js:12-13 | a string's JavaScript length is between its code-point count and twice that |
| Strings.ContainsExtend | server/models/User.js:103 | a substring stays a substring when text is appended |
| Strings.ToLowerAscii | server/models/User.js:19 | lowercases position by position and keeps the length |
| Strings.ToLowerAsciiIdempotent | server/models/User.js:19 | lowercasing is idempotent and leaves no upper-case ASCII letter |
| UserModel.CastPresence | server/models/User.js:37-41 | an absent status defaults to offline; a given one is accepted iff it is online, offline or away, and then casts to the presence of that name |
| UserModel.PresenceNameRoundTrip | server/models/User.js:37-41 | every presence cast back from its stored name is itself |
| UserModel.AvatarForHasHost | server/models/User.js:28-31 | both the default avatar and the username-based avatar URL contain the avatar host |
| UserModel.HookedAvatarProperties | server/models/User.js:102-106 | the hook changes the avatar only of a new document whose avatar contains the host, and applying it twice is applying it once |
| UserModel.UserDocument.PreSaveAvatar | server/models/User.js:102-106 | the document's avatar becomes the hooked avatar of the old one; the username is unchanged |
| UserModel.UsernameViolations | server/models/User.js:7-14 | no violation iff the trimmed username has length 3 to 30 |
| UserModel.EmailViolations | server/models/User.js:15-21 | no violation iff the lowercased e-mail is non-empty and passes the e-mail check |
| UserModel.PasswordViolations | server/models/User.js:22-27 | no violation iff the password has length at least 6 |
| UserModel.BioViolations | server/models/User.js:32-36 | no violation iff the bio (default empty) has length at most 200 |
| UserModel.StatusViolations | server/models/User.js:37-41 | no violation iff the status is absent or in the enum |
| UserModel.Violations | server/models/User.js:7-41 | a registration is valid iff every path's validator passes |
| UserModel.CreateUser | server/models/User.js:7-49 | judged on the registration alone, creation succeeds iff all field constraints hold, and fails with at least one violation otherwise; a created user has the trimmed username, the lowercased e-mail and the bio (default empty), has the presence named by the given status or offline when none was given, has no socket and no friends, and gets the username avatar when no avatar or a ui-avatars.com one was given, keeping any other given avatar |
| UserModel.CreateUserIn | server/models/User.js:7-19 | against the stored users: an invalid registration is refused with `CreateUser`'s violations; a valid one is stored as `CreateUser`'s user iff no stored user has its trimmed username or its lowercased e-mail, and is refused as a taken key otherwise |
| UserModel.CreateUserInKeepsUniqueKeys | server/models/User.js:7-19 | storing an accepted user keeps usernames and e-mails unique across the stored users |
| UserModel.CreatedUserBounds | server/models/User.js:7-36 | every created user satisfies the stored bounds: trimmed username of length 3 to 30, non-empty lowercase e-mail, bio of at most 200 |
| UserModel.IsFriend | server/models/User.js:77-81 | holds iff some entry of `friends` equals the id |
| UserModel.GetPendingRequests | server/models/User.js:84-90 | exactly the pending requests this user received |
| UserModel.GetSentRequests | server/models/User.js:93-99 | exactly the pending requests this user sent |
| FriendController.FindUser | server/controllers/friendController.js:86-89 | finds a stored user with that id, and none iff the id is not stored |
| FriendController.FindUserByEmailExcept | server/controllers/friendController.js:20-22 | returns a stored user with that e-mail other than the caller, and none iff no such user exists |
| FriendController.SocketOf | server/controllers/friendController.js:120-131 | yields a socket iff the user exists and has a non-empty `socketId`, and then it is that id |
| FriendController.AddToSet | server/controllers/friendController.js:185-191 | `$addToSet`: the result's elements are the old ones plus the id, and no duplicate is introduced |
| FriendController.Pull | server/controllers/friendController.js:417-427 | `$pull`: the result's elements are the old ones without the id, and no duplicate is introduced |
| FriendController.AddFriend | server/controllers/friendController.js:185-191 | only the named user's `friends` gets the set-add; all other users are unchanged |
| FriendController.PullFriend | server/controllers/friendController.js:417-427 | only the named user's `friends` loses the id; all other users are unchanged |
| FriendController.RequestIndex | server/controllers/friendController.js:151-153 | finds the position of the request with that id, and none iff no request has it |
| FriendController.FriendsSymmetric | server/controllers/friendController.js:185-191 | under the invariant, x lists y as a friend iff y lists x |
| FriendController.SendGuard | server/controllers/friendController.js:76-105 | rejects iff the receiver is missing, is the sender, is unknown, is already a friend, or a request between the two is pending; every refusal is 400 or 404, and 404 iff the receiver is well-formed but unknown |
| FriendController.SendValidatesBeforeLookup | server/controllers/friendController.js:76-83 | a missing or self receiver is refused with 400 whatever the store holds |
| FriendController.ResolveGuard | server/controllers/friendController.js:151-162 | succeeds iff a pending request with that id has the actor as receiver; 404 iff no such id, 403 iff the actor is not its receiver, otherwise 400 |
| FriendController.ResolvedRequestIsFinal | server/controllers/friendController.js:160-162 | a request that is no longer pending is refused: 400 for its receiver, 403 for anyone else |
| FriendController.DirectRoom | server/controllers/friendController.js:165-171 | the new room is direct with members and admins both [sender, receiver] |
| FriendController.NewFriendship | server/controllers/friendController.js:174-178 | the new friendship joins sender and receiver, is stored ordered by the hook, and references the room |
| FriendController.NotifyIfOnline | server/controllers/friendController.js:120-131 | an event is emitted iff the target has a socket, and only to that socket |
| FriendController.AcceptNotifications | server/controllers/friendController.js:203-253 | the sender gets two events and the actor one, each only when online, and events go only to those two sockets; the sender's are first `friend_request_accepted` then `friendship_created` naming the actor, and the actor's last one is `friendship_created` naming the sender, all with the new room |
| FriendController.AddPendingRequest | server/controllers/friendController.js:108-112 | appending a fresh pending request between two known non-friends with nothing pending keeps the request invariant |
| FriendController.AddFriendshipKeepsFriendsMatch | server/controllers/friendController.js:174-191 | adding a friendship and set-adding both friends keeps the friends lists equal to the friendship relation and duplicate-free |
| FriendController.RemoveAtAreFriends | server/controllers/friendController.js:404-410 | after deleting friendship k two users are friends iff they were and k did not join them |
| FriendController.RemoveFriendshipKeepsFriendsMatch | server/controllers/friendController.js:404-427 | deleting the friendship and pulling both friends keeps the friends lists equal to the friendship relation |
| FriendController.AddFriendshipKeepsWellFormed | server/controllers/friendController.js:165-178 | a fresh ordered friendship with its fresh direct room keeps the friendship invariant |
| FriendController.AddFriendshipKeepsMembers | server/controllers/friendController.js:165-178 | after adding the friendship, every friendship joins two different known users and has a direct room of those two |
| FriendController.AddFriendshipKeepsDistinct | server/controllers/friendController.js:165-178 | the new friendship has a pair, an id and a room of its own, so the unique `(user1, user2)` index and distinct ids and rooms still hold |
| FriendController.ResolveKeepsRequestsWellFormed | server/controllers/friendController.js:297-298 | resolving a pending request to any other status keeps the request invariant |
| FriendController.AcceptKeepsRequestsWellFormed | server/controllers/friendController.js:174-182 | accepting a pending request together with its new friendship keeps the request invariant |
| FriendController.RemoveKeepsFriendshipsWellFormed | server/controllers/friendController.js:404-410 | deleting a friendship keeps the friendship invariant |
| FriendController.RemoveKeepsRequestsWellFormed | server/controllers/friendController.js:404-410 | deleting a friendship keeps the request invariant |
| FriendController.AppendMessageKeepsRoomsWellFormed | server/controllers/friendController.js:194-199 | a fresh message in a fresh room keeps the message invariant |
| FriendController.SearchUserByEmail | server/controllers/friendController.js:11-67 | 400 iff the e-mail is empty; otherwise no match iff no other user has the lowercased e-mail; a found user carries `isFriend` iff the two are friends, then with the friendship's room and no pending flag; otherwise the pending flag iff a request is pending between them, with a request id iff flagged, that id being a request pending between the two whose sender is the caller iff `requestSentByMe`; the found view's username, e-mail and avatar are the stored user's, and its bio is the stored bio exactly when they are not friends |
| FriendController.GetPendingRequests | server/controllers/friendController.js:322-337 | exactly the pending requests the user received |
| FriendController.ViewOf | server/controllers/friendController.js:355-371 | a friend entry carries the friendship's room and id, and the friend is the other member of the pair |
| FriendController.FriendViews | server/controllers/friendController.js:355-371 | one entry per friendship, each the view of a friendship in the list |
| FriendController.GetFriends | server/controllers/friendController.js:342-378 | one entry per friendship of the user, and exactly the views of those friendships |
| FriendController.GetFriendsAreFriends | server/controllers/friendController.js:342-378 | under the invariant every listed friend is a friend of the user and not the user |
| FriendController.Send | server/controllers/friendController.js:72-138 | succeeds iff the send guard passes; a refusal changes nothing; a success appends exactly one pending request sender→receiver, changes nothing else, and notifies the receiver only if online |
| FriendController.SendKeepsConsistent | server/controllers/friendController.js:72-138 | sending keeps the store invariant |
| FriendController.Accept | server/controllers/friendController.js:143-269 | succeeds iff the resolve guard passes; a refusal changes nothing; a success adds exactly one direct room, one friendship referencing it and one welcome system message naming the sender, marks the request accepted and set-adds each user to the other's friends |
| FriendController.AcceptKeepsConsistent | server/controllers/friendController.js:143-269 | accepting keeps the store invariant |
| FriendController.AcceptMakesMutualFriends | server/controllers/friendController.js:185-191 | after an accept, sender and receiver list each other as friends and nothing is pending between them |
| FriendController.Decline | server/controllers/friendController.js:274-317 | succeeds iff the resolve guard passes; a refusal changes nothing; a success only marks the request declined (no room, friendship or message) and notifies the sender only if online |
| FriendController.DeclineKeepsConsistent | server/controllers/friendController.js:274-317 | declining keeps the store invariant |
| FriendController.Remove | server/controllers/friendController.js:383-433 | 400 "User ID is required" without a user id, 404 "Friendship not found" when they are not friends, success otherwise; a success deletes the first friendship joining them, pulls each from the other's friends, keeps rooms, requests and messages, and notifies the other user only if online |
| FriendController.RemoveEndsFriendship | server/controllers/friendController.js:404-410 | after a remove with a user id the two are no longer friends |
| FriendController.RemoveKeepsConsistent | server/controllers/friendController.js:383-433 | removing keeps the store invariant |
| FriendController.RemoveThenSendAllowed | server/controllers/friendController.js:86-105 | once two friends are unfriended, a new request between them passes every send check |
| FriendController.FriendStore.SendFriendRequest | server/controllers/friendController.js:72-138 | the store's new state and the reply are those of `Send`, and the invariant is kept |
| FriendController.FriendStore.AcceptFriendRequest | server/controllers/friendController.js:143-269 | the store's new state and the reply are those of `Accept`, and the invariant is kept |
| FriendController.FriendStore.DeclineFriendRequest | server/controllers/friendController.js:274-317 | the store's new state and the reply are those of `Decline`, and the invariant is kept |
| FriendController.DeclineAsWritten | server/controllers/friendController.js:274-298 | with the index as declared: guard refusals and collision-free saves give exactly `Decline`'s outcome; a save that collides answers 500 and changes nothing |
| FriendController.AcceptAsWritten | server/controllers/friendController.js:143-182 | with both unique indexes as declared: guard refusals, and accepts where neither index collides, give exactly `Accept`'s outcome; when the friendship's ordered pair is already stored it answers 500 with only the new room stored; otherwise when the request's save collides it answers 500 with the new room and friendship stored; in both the request stays pending and the friends lists are unchanged |
| FriendController.ConsistentAcceptPairFree | server/controllers/friendController.js:160-178 | in a consistent store the friendship index never refuses an accept that passed the guard, since the two users of a pending request are not friends |
| FriendController.SecondDeclineFailsAsWritten | server/controllers/friendController.js:292-298 | in a consistent store where a first request from a to b was declined and a second is pending, `Decline` succeeds but `DeclineAsWritten` answers 500 |
| FriendController.SecondAcceptLeavesFriendshipAsWritten | server/controllers/friendController.js:165-182 | in a consistent store where a first request from a to b was accepted (and the friendship since removed) and a second is pending, `Accept` succeeds but `AcceptAsWritten` answers 500 leaving a friendship between a and b that neither friends list shows, so the store is no longer consistent |
| FriendController.AcceptRetryAsWritten | server/controllers/friendController.js:165-182 | accepting that still-pending request again answers 500 once more: the friendship index refuses the pair, so one more room is stored, the friendship is not duplicated and the request stays pending |
| FriendController.FriendStore.RemoveFriend | server/controllers/friendController.js:383-433 | the store's new state and the reply are those of `Remove`, and the invariant is kept |
| ChatContextModel.Bump | client/src/context/ChatContext.jsx:61-66 | the room's unread count goes up by one from zero or its old value; all other rooms keep their counts |
| ChatContextModel.ReplaceById | client/src/context/ChatContext.jsx:108-112 | same length and order; exactly the messages with the event's id are replaced |
| ChatContextModel.ReplaceByIdIdempotent | client/src/context/ChatContext.jsx:108-112 | delivering the same reaction event twice is delivering it once |
| ChatContextModel.ReplaceByIdAbsent | client/src/context/ChatContext.jsx:108-112 | an event for a message not in the list changes nothing |
| ChatContextModel.AddRoomIfAbsent | client/src/context/ChatContext.jsx:168-172 | a room whose id is already listed is not added; otherwise it is appended |
| ChatContextModel.AddRoomIfAbsentIdempotent | client/src/context/ChatContext.jsx:168-172 | adding a room twice is adding it once, and room ids stay unique |
| ChatContextModel.RemoveRoom | client/src/context/ChatContext.jsx:233-241 | keeps exactly the rooms with another id |
| ChatContextModel.RemoveRequest | client/src/context/ChatContext.jsx:362 | keeps exactly the requests with another id |
| ChatContextModel.FindExistingDm | client/src/context/ChatContext.jsx:294-297 | the first direct room having the user as a member, and none iff no such room exists |
| ChatContextModel.ChatState.OnReceiveMessage | client/src/context/ChatContext.jsx:57-77 | appends the message; bumps its room's unread count iff it is from someone else and not in the current room; bumps the global count iff it is from someone else; nothing else changes |
| ChatContextModel.ChatState.OnPrivateMessage | client/src/context/ChatContext.jsx:79-90 | appends the message and bumps the global count iff it is from someone else; nothing else changes |
| ChatContextModel.ChatState.OnMessageReaction | client/src/context/ChatContext.jsx:108-112 | replaces the message with the event's id; nothing else changes |
| ChatContextModel.ChatState.OnFriendRequestReceived | client/src/context/ChatContext.jsx:118-132 | prepends the request; nothing else changes |
| ChatContextModel.ChatState.OnFriendRequestAccepted | client/src/context/ChatContext.jsx:134-149 | appends the friend, and the room when one came with the event, without checking for duplicates; nothing else changes |
| ChatContextModel.ChatState.OnFriendshipCreated | client/src/context/ChatContext.jsx:157-174 | appends the friend and adds the room only if its id is not yet listed; nothing else changes |
| ChatContextModel.ChatState.JoinRoom | client/src/context/ChatContext.jsx:221-230 | the current room becomes the joined one and only its unread entry is cleared |
| ChatContextModel.ChatState.LeaveRoom | client/src/context/ChatContext.jsx:233-241 | removes every room with that id, clears the messages, and resets the current room only if it was that room |
| ChatContextModel.ChatState.LoadRoomMessages | client/src/context/ChatContext.jsx:268-275 | a successful fetch replaces the message list; a failed one leaves it |
| ChatContextModel.ChatState.StartDirectChat | client/src/context/ChatContext.jsx:291-323 | an existing direct room is joined without creating one; otherwise the created room is added if absent and joined; a failed creation changes nothing |
| ChatContextModel.ChatState.AcceptFriendRequest | client/src/context/ChatContext.jsx:357-379 | a failed call changes nothing; a successful one removes the request, takes the refetched friends and rooms, and joins the returned conversation when there is one |
| ChatContextModel.ChatState.DeclineFriendRequest | client/src/context/ChatContext.jsx:382-394 | a successful call removes the request and nothing else changes; a failed one changes nothing |
| MessageView.SentMessageNeverUnread | client/src/components/Message.jsx:9 | a message the user sent never counts as from someone else or as unread |
| MessageView.LookupAt | client/src/components/Message.jsx:248-253 | in a tally with unique keys each entry's count is the count looked up for its emoji |
| MessageView.HasKeyIffLookup | client/src/components/Message.jsx:248-253 | in a tally of positive counts an emoji has an entry iff its count is positive |
| MessageView.Step | client/src/components/Message.jsx:249-252 | one reaction adds one to its emoji's count and to the total, and no other count changes |
| MessageView.Aggregate | client/src/components/Message.jsx:248-253 | each emoji's count is the number of reactions with that emoji; emojis are listed once, iff they occur, and the counts sum to the number of reactions |
| MessageView.AggregateEntry | client/src/components/Message.jsx:254-260 | every displayed entry shows a count of at least one equal to the occurrences of its emoji |
| MessageView.ReactionStrip | client/src/components/Message.jsx:246-262 | the strip appears iff there are reactions, and then shows a non-empty tally summing to their number |
| MessageView.SwipeCancelsLongPress | client/src/components/Message.jsx:73-97 | a recognised swipe-right has also cancelled the long press |
| MessageView.NoHeartRightAfterHeart | client/src/components/Message.jsx:110-126 | right after a heart fires, the next tap cannot fire another (once the clock is past the window) |
| MessageView.MessageBubble.HandleReaction | client/src/components/Message.jsx:22-25 | forwards the message id and emoji and closes the picker |
| MessageView.MessageBubble.TouchStart | client/src/components/Message.jsx:48-65 | records time and position and arms the long-press timer |
| MessageView.MessageBubble.LongPressElapsed | client/src/components/Message.jsx:55-64 | when the timer is still armed, the bubble enters long press and opens the picker |
| MessageView.MessageBubble.TouchMove | client/src/components/Message.jsx:67-98 | moving more than 10 px on either axis cancels the long press; a swipe is reported iff dx > 50, dy < 30 and the finger moved right |
| MessageView.MessageBubble.TouchEnd | client/src/components/Message.jsx:100-129 | a heart is sent iff less than 300 ms since the last tap and the touch lasted less than 200 ms; then the last tap resets to 0, otherwise it becomes now |
| MessageInputModel.MessageType | client/src/components/MessageInput.jsx:96-100 | image iff an upload's mimetype starts with `image/`, file for any other upload, text without one |
| MessageInputModel.BuildPayload | client/src/components/MessageInput.jsx:93-104 | the content is the trimmed text, the room is the current room, and the file fields are present iff there is an upload and are taken from it |
| MessageInputModel.PayloadContentTrimmed | client/src/components/MessageInput.jsx:94 | the payload content has no leading or trailing whitespace |
| MessageInputModel.EnabledSendPassesBlankGuard | client/src/components/MessageInput.jsx:181 | an enabled send button means text or a file is present and nothing is uploading |
| MessageInputModel.Composer.HandleInputChange | client/src/components/MessageInput.jsx:27-30 | the text becomes the input; nothing else changes |
| MessageInputModel.Composer.HandleFileSelect | client/src/components/MessageInput.jsx:32-42 | a file over 5 MiB is rejected and the file state is unchanged; any other selected file is kept |
| MessageInputModel.Composer.RemoveFile | client/src/components/MessageInput.jsx:44-49 | clears the file and keeps the text |
| MessageInputModel.Composer.HandleSubmit | client/src/components/MessageInput.jsx:67-120 | blank text without a file is ignored; non-blank text rejected by the validator aborts; a failed upload keeps the form; otherwise the built payload is sent, never empty text only, and the form is reset |
| SearchBarModel.ReplyBody | server/controllers/friendController.js:15-66 | the body is a success carrying the user iff a user was found, a failure with a message iff there was no match, and never a network error |
| SearchBarModel.GetActionButton | client/src/components/SearchBar.jsx:103-146 | no action without a result; open chat iff a friend; a direction-specific pending text iff a request is pending; send request otherwise |
| SearchBarModel.SearchActionMatchesStore | client/src/components/SearchBar.jsx:103-146 | for a found user the button shows open chat iff the two are friends in the store, and send request iff they are neither friends nor joined by a pending request; a pending text names the stored direction |
| SearchBarModel.SendRequestShowsPending | client/src/components/SearchBar.jsx:72-83 | after a successful send the button shows the pending-sent text |
| SearchBarModel.FoundFriendCanBeOpened | client/src/components/SearchBar.jsx:89-94 | a found friend always carries the id of their stored conversation |
| SearchBarModel.SearchPanel.SearchUser | client/src/components/SearchBar.jsx:18-55 | an empty query or the signed-in user's own e-mail issues no search and hides the panel; a success shows the user, a failure shows the message or 'User not found', a network error shows 'Failed to search user' |
| SearchBarModel.SearchPanel.HandleSendRequest | client/src/components/SearchBar.jsx:71-87 | without a result nothing is sent; on success only the pending flags are set, the other fields kept |
| SearchBarModel.SearchPanel.HandleClose | client/src/components/SearchBar.jsx:96-101 | resets e-mail, result, panel and error together |
| SearchBarModel.SearchPanel.HandleOpenChat | client/src/components/SearchBar.jsx:89-94 | opens the conversation and closes the panel iff the result has a conversation id; otherwise nothing changes |

## Left out

- Socket.io emits and listeners, HTTP calls, toasts, sounds and browser notifications: I/O. An emit is a `Notification` value. A reply the client awaits is a parameter of the method that handles it (`response`, `ok`, `created`, `loaded`, `fetchedFriends`, `fetchedRooms`, `upload`).
- `populate`, `sort` and field selection in the queries: they shape the JSON, not which records are returned. `GetPendingRequests` returns requests in stored order, not newest first.
- Request timestamps, `lastSeen` and `createdAt`: the model has no clock.
- Concurrency: each handler's chain of awaits is one atomic step. Of the failures that could interrupt the non-transactional accept part-way, only the two duplicate-key refusals are modelled (`AcceptAsWritten`: the friendship's pair index, then the request's triple index).
- ObjectId cast failures (a malformed id raising a 500) and any other store failure: the only 500 paths in the model are the duplicate-key refusals of `DeclineAsWritten` and `AcceptAsWritten` in the finding below; the `error` text of that reply is abbreviated to a constant.
- UserModel.CreateUser: judges a registration without the store, so it does not refuse a taken username or e-mail; `CreateUserIn` adds the unique indexes of username and email.
- The friend handlers' store invariant does not include unique usernames and e-mails: no friend handler creates a user or changes either field.
- FriendController.Accept: models the request's save under uniqueness among pending requests only, the evidently intended index; the code's index on (sender, receiver, status) instead answers 500 when the pair already has an accepted request, after the room and friendship were stored. `AcceptAsWritten` models that.
- FriendController.Decline: models the request's save under uniqueness among pending requests only; the code's index instead answers 500 when the pair already has a declined request. `DeclineAsWritten` models that.
- FriendController.FriendStore.AcceptFriendRequest: follows `Accept`, so it keeps the pending-only index; the code as written behaves as `AcceptAsWritten`.
- FriendController.FriendStore.DeclineFriendRequest: follows `Decline`, so it keeps the pending-only index; the code as written behaves as `DeclineAsWritten`.
- Password hashing and `matchPassword`: foreign calls, left out. `validator.isEmail` and `validateMessage` are function parameters with no assumed behaviour.
- The search debounce, the typing indicator and the long-press `setTimeout`: timers. The timer's firing is the method `LongPressElapsed`, and times are integer parameters. Vibration and scrolling are left out.
- React effect dependencies and closures that capture stale state (the listener effect reads `currentRoom` but depends only on `user`): handlers read the current explicit state.
- Strings.Less: compares code points, while JavaScript compares UTF-16 code units. The two orders differ only when characters outside the Basic Multilingual Plane are compared with characters above U+E000.
- Strings.Utf16Length: stated by bounds only; the exact surrogate count is in its body.
- Strings.ToLowerAscii: lowercases ASCII letters only, where JavaScript's `toLowerCase` also maps other alphabets.
- MessageView.Aggregate: does not state the order of the displayed entries (first occurrence, as `Object.entries` gives for non-numeric keys).
- Reactions are counted per reaction, with no per-user de-duplication, as in the client code: a user who reacts twice with the same emoji counts twice.
- Refusals for already-friends, already-pending and already-resolved requests are answered with 400, as the code does; there is no 409 reply.
- The server's `friend_request_accepted` event carries no room, so `OnFriendRequestAccepted` takes the room as optional.
- Submitting with the Enter key bypasses the disabled button while a file uploads; `HandleSubmit` models the form handler itself, which does not check `uploading`.
- The Room and Message schemas and their controllers are not part of this model; a room and a message are the records the friend handlers create.

## Findings

| source | as written | input that shows it | evidently intended | confidence | as-written member | corrected member |
|---|---|---|---|---|---|---|
| server/models/FriendRequest.js:32-35 | the unique index covers (sender, receiver, status) for every status | a sends b a request, b declines it, a sends again (allowed, since nothing is pending), b declines again: the second save collides with the first declined request and fails with a duplicate-key error; the same happens to a second accept, after the room and friendship were already created | uniqueness only among pending requests, so each request can be resolved any number of times per pair | not executed | FriendRequestModel.SaveStatusAsWritten, FriendRequestModel.SecondDecisionRejectedAsWritten, FriendController.DeclineAsWritten, FriendController.AcceptAsWritten, FriendController.SecondDeclineFailsAsWritten, FriendController.SecondAcceptLeavesFriendshipAsWritten, FriendController.AcceptRetryAsWritten | FriendRequestModel.Resolve, FriendRequestModel.ResolveKeepsPendingPairsUnique, FriendController.Decline, FriendController.Accept, FriendController.AcceptKeepsConsistent, FriendController.DeclineKeepsConsistent |
