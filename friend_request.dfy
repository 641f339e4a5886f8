/**
 * The FriendRequest collection: the status enum with its default, the
 * instance method `isPending`, the query statics, and the unique index on
 * (sender, receiver, status).
 */
module FriendRequestModel {
  import opened Wrappers
  import Seqs

  type Id = string

  /** The schema's status enum. */
  datatype Status = Pending | Accepted | Declined

  function StatusName(st: Status): string
  {
    match st
    case Pending => "pending"
    case Accepted => "accepted"
    case Declined => "declined"
  }

  /**
   * Casting a status value on document creation: an absent value takes the
   * default 'pending'; a value outside the enum fails validation.
   */
  function CastStatus(value: Option<string>): (r: Option<Status>)
    ensures value.None? ==> r == Some(Pending)
    ensures value.Some? ==> (r.Some? <==> value.value in {"pending", "accepted", "declined"})
    ensures r.Some? && value.Some? ==> StatusName(r.value) == value.value
  {
    match value
    case None => Some(Pending)
    case Some(s) =>
      if s == "pending" then Some(Pending)
      else if s == "accepted" then Some(Accepted)
      else if s == "declined" then Some(Declined)
      else None
  }

  /** Every status survives being written out by name and cast back. */
  lemma StatusNameRoundTrip(st: Status)
    ensures CastStatus(Some(StatusName(st))) == Some(st)
  {
  }

  datatype FriendRequest = FriendRequest(id: Id, sender: Id, receiver: Id, status: Status)

  /** `request.isPending()`. */
  predicate IsPending(r: FriendRequest)
  {
    r.status == Pending
  }

  lemma IsPendingByName(r: FriendRequest)
    ensures IsPending(r) <==> StatusName(r.status) == "pending"
  {
  }

  /** `findPendingForUser(u)`: the pending requests received by `u`, in stored order. */
  function FindPendingForUser(reqs: seq<FriendRequest>, u: Id): (r: seq<FriendRequest>)
    ensures |r| <= |reqs|
    ensures forall x :: x in r <==> x in reqs && x.receiver == u && x.status == Pending
  {
    if |reqs| == 0 then []
    else
      var rest := FindPendingForUser(reqs[1..], u);
      if reqs[0].receiver == u && reqs[0].status == Pending then [reqs[0]] + rest else rest
  }

  /** `findSentByUser(u)`: the pending requests sent by `u`, in stored order. */
  function FindSentByUser(reqs: seq<FriendRequest>, u: Id): (r: seq<FriendRequest>)
    ensures |r| <= |reqs|
    ensures forall x :: x in r <==> x in reqs && x.sender == u && x.status == Pending
  {
    if |reqs| == 0 then []
    else
      var rest := FindSentByUser(reqs[1..], u);
      if reqs[0].sender == u && reqs[0].status == Pending then [reqs[0]] + rest else rest
  }

  /** The request joins `a` and `b`, in either direction. */
  predicate Joins(x: FriendRequest, a: Id, b: Id)
  {
    (x.sender == a && x.receiver == b) || (x.sender == b && x.receiver == a)
  }

  predicate PendingBetween(x: FriendRequest, a: Id, b: Id)
  {
    x.status == Pending && Joins(x, a, b)
  }

  /** Some stored request between `a` and `b` is still pending. */
  predicate HasPendingBetween(reqs: seq<FriendRequest>, a: Id, b: Id)
  {
    exists k :: 0 <= k < |reqs| && PendingBetween(reqs[k], a, b)
  }

  /** `findBetweenUsers(a, b)`: the first pending request between the two, either way round. */
  function FindBetweenUsers(reqs: seq<FriendRequest>, a: Id, b: Id): (r: Option<FriendRequest>)
    ensures r.Some? ==> r.value in reqs && PendingBetween(r.value, a, b)
    ensures r.None? <==> !HasPendingBetween(reqs, a, b)
  {
    if |reqs| == 0 then None
    else if PendingBetween(reqs[0], a, b) then Some(reqs[0])
    else
      var r := FindBetweenUsers(reqs[1..], a, b);
      assert HasPendingBetween(reqs, a, b) ==> HasPendingBetween(reqs[1..], a, b) by {
        if HasPendingBetween(reqs, a, b) {
          var k :| 0 <= k < |reqs| && PendingBetween(reqs[k], a, b);
          assert reqs[1..][k - 1] == reqs[k];
        }
      }
      assert r.Some? ==> reqs[1..][Seqs.FirstIndex(reqs[1..], r.value)] == r.value;
      r
  }

  /** The query does not depend on which of the two users asks. */
  lemma {:induction false} FindBetweenUsersSymmetric(reqs: seq<FriendRequest>, a: Id, b: Id)
    ensures FindBetweenUsers(reqs, a, b) == FindBetweenUsers(reqs, b, a)
  {
    if |reqs| > 0 {
      FindBetweenUsersSymmetric(reqs[1..], a, b);
    }
  }

  /** The unique index as declared: no two stored requests share (sender, receiver, status). */
  ghost predicate TriplesUnique(reqs: seq<FriendRequest>)
  {
    forall i, j :: 0 <= i < |reqs| && 0 <= j < |reqs| && i != j ==>
      !(reqs[i].sender == reqs[j].sender && reqs[i].receiver == reqs[j].receiver
        && reqs[i].status == reqs[j].status)
  }

  /**
   * The uniqueness the handlers rely on: two different stored requests are
   * never both pending between the same two users.
   */
  ghost predicate PendingPairsUnique(reqs: seq<FriendRequest>)
  {
    forall i, j :: 0 <= i < |reqs| && 0 <= j < |reqs| && i != j && reqs[i].status == Pending ==>
      !PendingBetween(reqs[j], reqs[i].sender, reqs[i].receiver)
  }

  datatype DbError = DuplicateKey

  /**
   * `request.status = st; request.save()` under the unique index on
   * (sender, receiver, status) as declared: the update is refused when
   * another stored request already has that sender, receiver and status.
   */
  function SaveStatusAsWritten(reqs: seq<FriendRequest>, i: nat, st: Status): (r: Result<seq<FriendRequest>, DbError>)
    requires i < |reqs|
    ensures r.Err? <==> exists j :: 0 <= j < |reqs| && j != i && reqs[j].sender == reqs[i].sender
                                    && reqs[j].receiver == reqs[i].receiver && reqs[j].status == st
    ensures r.Ok? ==> r.value == reqs[i := reqs[i].(status := st)]
    ensures r.Ok? && TriplesUnique(reqs) ==> TriplesUnique(r.value)
  {
    if exists j :: 0 <= j < |reqs| && j != i && reqs[j].sender == reqs[i].sender
                   && reqs[j].receiver == reqs[i].receiver && reqs[j].status == st
    then Err(DuplicateKey)
    else Ok(reqs[i := reqs[i].(status := st)])
  }

  /**
   * The index as declared refuses the second decision between the same sender
   * and receiver: after one request from "a" to "b" was declined, a new
   * request from "a" to "b" is pending (sending allows it, since nothing is
   * pending between them) and can no longer be declined, nor, had the first
   * been accepted, accepted.
   */
  lemma SecondDecisionRejectedAsWritten()
    ensures var first := FriendRequest("r1", "a", "b", Declined);
            var second := FriendRequest("r2", "a", "b", Pending);
            && !HasPendingBetween([first], "a", "b")
            && TriplesUnique([first, second])
            && PendingPairsUnique([first, second])
            && SaveStatusAsWritten([first, second], 1, Declined).Err?
    ensures var first := FriendRequest("r1", "a", "b", Accepted);
            var second := FriendRequest("r2", "a", "b", Pending);
            && !HasPendingBetween([first], "a", "b")
            && TriplesUnique([first, second])
            && SaveStatusAsWritten([first, second], 1, Accepted).Err?
  {
    var d1 := FriendRequest("r1", "a", "b", Declined);
    var a1 := FriendRequest("r1", "a", "b", Accepted);
    var p2 := FriendRequest("r2", "a", "b", Pending);
    assert [d1, p2][0].status == Declined;
    assert [a1, p2][0].status == Accepted;
  }

  /**
   * `request.status = st; request.save()` when uniqueness is enforced only
   * among pending requests: resolving a request is a plain update.
   */
  function Resolve(reqs: seq<FriendRequest>, i: nat, st: Status): (r: seq<FriendRequest>)
    requires i < |reqs| && st != Pending
    ensures |r| == |reqs| && r[i].status == st
    ensures forall j :: 0 <= j < |reqs| && j != i ==> r[j] == reqs[j]
    ensures forall j :: 0 <= j < |reqs| ==> r[j].id == reqs[j].id && r[j].sender == reqs[j].sender
                                            && r[j].receiver == reqs[j].receiver
  {
    reqs[i := reqs[i].(status := st)]
  }

  /** Resolving a request never breaks the pending-only uniqueness, and leaves nothing pending between its two users. */
  lemma ResolveKeepsPendingPairsUnique(reqs: seq<FriendRequest>, i: nat, st: Status)
    requires i < |reqs| && st != Pending && PendingPairsUnique(reqs)
    requires reqs[i].status == Pending
    ensures PendingPairsUnique(Resolve(reqs, i, st))
    ensures !HasPendingBetween(Resolve(reqs, i, st), reqs[i].sender, reqs[i].receiver)
  {
    var r := Resolve(reqs, i, st);
    forall k | 0 <= k < |r| ensures !PendingBetween(r[k], reqs[i].sender, reqs[i].receiver) {
      if k != i {
        assert r[k] == reqs[k];
      }
    }
  }
}
