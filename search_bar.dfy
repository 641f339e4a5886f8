/**
 * The user search panel: what a search answer does to the panel, which
 * action the found user offers, and the send, open-chat and close buttons.
 * The HTTP request is a parameter holding its answer.
 */
module SearchBarModel {
  import opened Wrappers
  import opened FriendApi
  import FC = FriendController
  import FS = FriendshipModel
  import FR = FriendRequestModel

  /** What `searchUser` gets: the JSON body's `success` branch, its other branch, or a thrown error. */
  datatype SearchResponse = Success(user: UserView) | Failure(message: Option<string>) | NetworkError

  /** The body the server's search handler sends, as the client reads it; the 400 body has neither `success` nor `message`. */
  function ReplyBody(r: Result<SearchReply, HttpError>): (b: SearchResponse)
    ensures b.Success? <==> r.Ok? && r.value.Found?
    ensures b.Success? ==> b.user == r.value.user
    ensures b.Failure? && b.message.Some? <==> r.Ok? && r.value.NoMatch?
    ensures !b.NetworkError?
  {
    match r
    case Ok(Found(u)) => Success(u)
    case Ok(NoMatch(m)) => Failure(Some(m))
    case Err(_) => Failure(None)
  }

  /** The control `getActionButton` renders. */
  datatype Action = NoAction | OpenChat | PendingSentByMe | PendingFromThem | SendRequest

  /** `getActionButton`: no result, then friend, then pending in either direction, then send. */
  function GetActionButton(result: Option<UserView>): (a: Action)
    ensures a == NoAction <==> result.None?
    ensures a == OpenChat <==> result.Some? && result.value.isFriend
    ensures a == PendingSentByMe <==> result.Some? && !result.value.isFriend && result.value.hasPendingRequest && result.value.requestSentByMe
    ensures a == PendingFromThem <==> result.Some? && !result.value.isFriend && result.value.hasPendingRequest && !result.value.requestSentByMe
    ensures a == SendRequest <==> result.Some? && !result.value.isFriend && !result.value.hasPendingRequest
  {
    match result
    case None => NoAction
    case Some(u) =>
      if u.isFriend then OpenChat
      else if u.hasPendingRequest then (if u.requestSentByMe then PendingSentByMe else PendingFromThem)
      else SendRequest
  }

  /** The action offered for a user the server found agrees with the store. */
  lemma SearchActionMatchesStore(db: FC.Db, me: Id, email: string, v: UserView)
    requires FC.SearchUserByEmail(db, me, email) == Ok(Found(v))
    ensures GetActionButton(Some(v)) == OpenChat <==> FS.AreFriends(db.friendships, me, v.id)
    ensures GetActionButton(Some(v)) == SendRequest <==>
      !FS.AreFriends(db.friendships, me, v.id) && !FR.HasPendingBetween(db.requests, me, v.id)
    ensures GetActionButton(Some(v)) == PendingSentByMe ==>
      exists k :: 0 <= k < |db.requests| && db.requests[k].status == FR.Pending && db.requests[k].sender == me && db.requests[k].receiver == v.id
    ensures GetActionButton(Some(v)) == PendingFromThem ==>
      exists k :: 0 <= k < |db.requests| && db.requests[k].status == FR.Pending && db.requests[k].sender == v.id && db.requests[k].receiver == me
  {
    var r := FC.SearchUserByEmail(db, me, email);
    assert r.Ok? && r.value.Found? && r.value.user == v;
  }

  /** After a successful send the action for the same user is "request pending". */
  lemma SendRequestShowsPending(v: UserView)
    requires GetActionButton(Some(v)) == SendRequest
    ensures GetActionButton(Some(v.(hasPendingRequest := true, requestSentByMe := true))) == PendingSentByMe
  {
  }

  class SearchPanel {
    var email: string
    var result: Option<UserView>
    var isSearching: bool
    var showResults: bool
    var error: string

    constructor ()
      ensures email == "" && result == None && !isSearching && !showResults && error == ""
    {
      email, result, isSearching, showResults, error := "", None, false, false, "";
    }

    /**
     * `searchUser(query)` with the signed-in user's email: an empty query or
     * one's own email issues no request and hides the panel.
     */
    method SearchUser(query: string, myEmail: Option<string>, response: SearchResponse)
      modifies this
      ensures query == "" || myEmail == Some(query) ==>
        result == None && !showResults && error == old(error) && isSearching == old(isSearching)
      ensures !(query == "" || myEmail == Some(query)) ==> !isSearching && match response
        case Success(u) => result == Some(u) && showResults && error == ""
        case Failure(m) => result == None && showResults && error == (if m.Some? && m.value != "" then m.value else "User not found")
        case NetworkError => result == None && showResults == old(showResults) && error == "Failed to search user"
      ensures email == old(email)
    {
      if query == "" || myEmail == Some(query) {
        result := None;
        showResults := false;
        return;
      }
      isSearching := true;
      error := "";
      match response {
        case Success(u) =>
          result := Some(u);
          showResults := true;
        case Failure(m) =>
          error := if m.Some? && m.value != "" then m.value else "User not found";
          result := None;
          showResults := true;
        case NetworkError =>
          error := "Failed to search user";
          result := None;
      }
      isSearching := false;
    }

    /**
     * `handleSendRequest`: without a result nothing happens; otherwise the
     * request goes to the result's id and, when it succeeds (`ok`), the result
     * turns pending and sent by me with its other fields kept.
     */
    method HandleSendRequest(ok: bool) returns (sentTo: Option<Id>)
      modifies this
      ensures old(result).None? ==> sentTo == None && result == None
      ensures old(result).Some? ==> sentTo == Some(old(result).value.id)
      ensures old(result).Some? && ok ==>
        result == Some(old(result).value.(hasPendingRequest := true, requestSentByMe := true))
      ensures !ok ==> result == old(result)
      ensures email == old(email) && isSearching == old(isSearching) && showResults == old(showResults) && error == old(error)
    {
      if result.None? {
        return None;
      }
      sentTo := Some(result.value.id);
      if ok {
        result := Some(result.value.(hasPendingRequest := true, requestSentByMe := true));
      }
    }

    /** `handleClose`: email, result, visibility and error reset together. */
    method HandleClose()
      modifies this
      ensures email == "" && result == None && !showResults && error == ""
      ensures isSearching == old(isSearching)
    {
      email, result, showResults, error := "", None, false, "";
    }

    /** `handleOpenChat`: with a conversation on the result, that room is joined and the panel closes. */
    method HandleOpenChat() returns (join: Option<Id>)
      modifies this
      ensures var c := old(result);
        join.Some? <==> c.Some? && c.value.conversationId.Some? && c.value.conversationId.value != ""
      ensures join.Some? ==> join == old(result).value.conversationId
                             && email == "" && result == None && !showResults && error == ""
      ensures join.None? ==> email == old(email) && result == old(result) && showResults == old(showResults) && error == old(error)
      ensures isSearching == old(isSearching)
    {
      if result.Some? && result.value.conversationId.Some? && result.value.conversationId.value != "" {
        join := result.value.conversationId;
        HandleClose();
      } else {
        join := None;
      }
    }
  }

  /** Every friend the server finds can be opened: its view carries the friendship's room. */
  lemma FoundFriendCanBeOpened(db: FC.Db, me: Id, email: string, v: UserView)
    requires FC.SearchUserByEmail(db, me, email) == Ok(Found(v)) && v.isFriend
    ensures v.conversationId.Some?
    ensures exists k :: 0 <= k < |db.friendships| && FS.Between(db.friendships[k], me, v.id)
                        && db.friendships[k].conversationRoom == v.conversationId.value
  {
    var r := FC.SearchUserByEmail(db, me, email);
    assert r.Ok? && r.value.Found? && r.value.user == v;
  }
}
