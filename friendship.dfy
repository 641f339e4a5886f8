/**
 * The Friendship collection: the pre-save hook that orders the pair, the
 * unique index on (user1, user2), and the query statics and instance method.
 */
module FriendshipModel {
  import opened Wrappers
  import Seqs
  import Strings

  type Id = string

  datatype Friendship = Friendship(id: Id, user1: Id, user2: Id, conversationRoom: Id)

  /** The pair as the hook leaves it: the smaller id first, in JavaScript string order. */
  function OrderedPair(a: Id, b: Id): (r: (Id, Id))
    ensures !Strings.Less(r.1, r.0)
    ensures {r.0, r.1} == {a, b}
    ensures !Strings.Less(b, a) ==> r == (a, b)
  {
    if Strings.Less(b, a) then
      Strings.LessAsymmetric(a, b);
      (b, a)
    else (a, b)
  }

  /** Ordering a pair does not depend on the order it was given in. */
  lemma OrderedPairSymmetric(a: Id, b: Id)
    ensures OrderedPair(a, b) == OrderedPair(b, a)
  {
    Strings.LessTotal(a, b);
    Strings.LessAsymmetric(a, b);
  }

  /** A friendship document before it is saved; the hook swaps its two users in place. */
  class FriendshipDocument {
    var user1: Id
    var user2: Id
    var conversationRoom: Id

    constructor (user1: Id, user2: Id, conversationRoom: Id)
      ensures this.user1 == user1 && this.user2 == user2 && this.conversationRoom == conversationRoom
    {
      this.user1 := user1;
      this.user2 := user2;
      this.conversationRoom := conversationRoom;
    }

    /** `pre('save')`: swap the two users when user1 > user2. */
    method PreSave()
      modifies this
      ensures (user1, user2) == OrderedPair(old(user1), old(user2))
      ensures !Strings.Less(user2, user1) && {user1, user2} == {old(user1), old(user2)}
      ensures conversationRoom == old(conversationRoom)
    {
      if Strings.Less(user2, user1) {
        user1, user2 := user2, user1;
      }
    }
  }

  predicate Canonical(f: Friendship)
  {
    !Strings.Less(f.user2, f.user1)
  }

  /** The friendship joins `a` and `b`, in either order. */
  predicate Between(f: Friendship, a: Id, b: Id)
  {
    (f.user1 == a && f.user2 == b) || (f.user1 == b && f.user2 == a)
  }

  /** `areFriends(a, b)`: some stored friendship joins the two. */
  predicate AreFriends(fs: seq<Friendship>, a: Id, b: Id)
  {
    exists k :: 0 <= k < |fs| && Between(fs[k], a, b)
  }

  lemma AreFriendsSymmetric(fs: seq<Friendship>, a: Id, b: Id)
    ensures AreFriends(fs, a, b) <==> AreFriends(fs, b, a)
  {
  }

  /** `findBetweenUsers(a, b)`: the first stored friendship joining the two. */
  function FindBetweenUsers(fs: seq<Friendship>, a: Id, b: Id): (r: Option<Friendship>)
    ensures r.Some? ==> r.value in fs && Between(r.value, a, b)
    ensures r.None? <==> !AreFriends(fs, a, b)
  {
    if |fs| == 0 then None
    else if Between(fs[0], a, b) then Some(fs[0])
    else
      var r := FindBetweenUsers(fs[1..], a, b);
      assert AreFriends(fs, a, b) ==> AreFriends(fs[1..], a, b) by {
        if AreFriends(fs, a, b) {
          var k :| 0 <= k < |fs| && Between(fs[k], a, b);
          assert fs[1..][k - 1] == fs[k];
        }
      }
      assert r.Some? ==> fs[1..][Seqs.FirstIndex(fs[1..], r.value)] == r.value;
      r
  }

  /** The index of the first friendship joining the two, as `findOneAndDelete` picks it. */
  function IndexBetween(fs: seq<Friendship>, a: Id, b: Id): (r: Option<nat>)
    ensures r.Some? ==> r.value < |fs| && Between(fs[r.value], a, b)
    ensures r.Some? ==> forall k :: 0 <= k < r.value ==> !Between(fs[k], a, b)
    ensures r.None? <==> !AreFriends(fs, a, b)
  {
    if |fs| == 0 then None
    else if Between(fs[0], a, b) then Some(0)
    else
      match IndexBetween(fs[1..], a, b)
      case None => None
      case Some(k) =>
        assert forall j :: 1 <= j <= k ==> fs[j] == fs[1..][j - 1];
        Some(k + 1)
  }

  /** `areFriends` and `findBetweenUsers` agree, and neither depends on argument order. */
  lemma {:induction false} FindBetweenUsersSymmetric(fs: seq<Friendship>, a: Id, b: Id)
    ensures FindBetweenUsers(fs, a, b) == FindBetweenUsers(fs, b, a)
    ensures AreFriends(fs, a, b) <==> FindBetweenUsers(fs, a, b).Some?
  {
    if |fs| > 0 {
      FindBetweenUsersSymmetric(fs[1..], a, b);
    }
  }

  /** `findFriendsOf(u)`: the friendships in which `u` is user1 or user2, in stored order. */
  function FindFriendsOf(fs: seq<Friendship>, u: Id): (r: seq<Friendship>)
    ensures |r| <= |fs|
    ensures forall f :: f in r <==> f in fs && (f.user1 == u || f.user2 == u)
  {
    if |fs| == 0 then []
    else
      var rest := FindFriendsOf(fs[1..], u);
      if fs[0].user1 == u || fs[0].user2 == u then [fs[0]] + rest else rest
  }

  /** `friendship.getFriendId(u)`: user2 when `u` is user1, user1 otherwise. */
  function GetFriendId(f: Friendship, u: Id): (r: Id)
    ensures r == f.user1 || r == f.user2
    ensures u == f.user1 || u == f.user2 ==> {u, r} == {f.user1, f.user2}
    ensures f.user1 != f.user2 && (u == f.user1 || u == f.user2) ==> r != u
  {
    if f.user1 == u then f.user2 else f.user1
  }

  /** The unique index on (user1, user2). */
  ghost predicate PairsUnique(fs: seq<Friendship>)
  {
    forall i, j :: 0 <= i < |fs| && 0 <= j < |fs| && i != j ==>
      (fs[i].user1, fs[i].user2) != (fs[j].user1, fs[j].user2)
  }

  /** The unique index on (user1, user2) refuses this ordered pair: a stored friendship already has it. */
  predicate PairStored(fs: seq<Friendship>, user1: Id, user2: Id)
  {
    exists k :: 0 <= k < |fs| && fs[k].user1 == user1 && fs[k].user2 == user2
  }

  ghost predicate AllCanonical(fs: seq<Friendship>)
  {
    forall k :: 0 <= k < |fs| ==> Canonical(fs[k])
  }

  /**
   * Ordered pairs plus the unique index give at most one friendship per
   * unordered pair of users.
   */
  lemma AtMostOnePerPair(fs: seq<Friendship>, i: nat, j: nat, a: Id, b: Id)
    requires AllCanonical(fs) && PairsUnique(fs)
    requires i < |fs| && j < |fs| && Between(fs[i], a, b) && Between(fs[j], a, b)
    ensures i == j
  {
    if fs[i].user1 != fs[j].user1 {
      assert fs[i].user1 == fs[j].user2 && fs[i].user2 == fs[j].user1;
      Strings.LessTotal(fs[i].user1, fs[i].user2);
    }
  }
}
