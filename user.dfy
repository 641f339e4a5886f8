/**
 * The User collection: the field constraints applied when a user document is
 * created, the avatar pre-save hook, `isFriend`, and the two request getters.
 */
module UserModel {
  import opened Wrappers
  import opened Strings
  import FriendRequestModel

  type Id = string

  /** The schema's status enum. */
  datatype Presence = Online | Offline | Away

  function PresenceName(p: Presence): string
  {
    match p
    case Online => "online"
    case Offline => "offline"
    case Away => "away"
  }

  /**
   * Casting a status value on document creation: an absent value takes the
   * default 'offline'; a value outside the enum fails validation.
   */
  function CastPresence(value: Option<string>): (r: Option<Presence>)
    ensures value.None? ==> r == Some(Offline)
    ensures value.Some? ==> (r.Some? <==> value.value in {"online", "offline", "away"})
    ensures r.Some? && value.Some? ==> PresenceName(r.value) == value.value
  {
    match value
    case None => Some(Offline)
    case Some(s) =>
      if s == "online" then Some(Online)
      else if s == "offline" then Some(Offline)
      else if s == "away" then Some(Away)
      else None
  }

  /** Every presence survives being written out by name and cast back. */
  lemma PresenceNameRoundTrip(p: Presence)
    ensures CastPresence(Some(PresenceName(p))) == Some(p)
  {
  }

  /** A stored user. The password hash and lastSeen are not part of this model. */
  datatype User = User(
    id: Id,
    username: string,
    email: string,
    avatar: string,
    bio: string,
    status: Presence,
    socketId: Option<string>,
    friends: seq<Id>)

  const AvatarHost := "ui-avatars.com"
  /** "https://ui-avatars.com/api/?background=random&name=" */
  const AvatarBase := "https://" + AvatarHost + "/api/?background=random&name="
  const DefaultAvatar := AvatarBase + "User"

  /** The avatar URL the hook derives from a username. */
  function AvatarFor(username: string): string
  {
    AvatarBase + username
  }

  lemma AvatarForHasHost(username: string)
    ensures Contains(AvatarFor(username), AvatarHost)
    ensures Contains(DefaultAvatar, AvatarHost)
  {
    var pre := "https://" + AvatarHost;
    assert pre[8..8 + |AvatarHost|] == AvatarHost;
    assert OccursAt(pre, AvatarHost, 8);
    ContainsExtend(pre, AvatarHost, "/api/?background=random&name=");
    assert AvatarBase == pre + "/api/?background=random&name=";
    ContainsExtend(AvatarBase, AvatarHost, username);
    ContainsExtend(AvatarBase, AvatarHost, "User");
  }

  /** The avatar a document has after the hook: only a new document's ui-avatars URL is replaced. */
  function HookedAvatar(isNew: bool, avatar: string, username: string): string
  {
    if isNew && Contains(avatar, AvatarHost) then AvatarFor(username) else avatar
  }

  /**
   * The hook changes nothing but a new document's ui-avatars URL, and running
   * it a second time changes nothing more.
   */
  lemma HookedAvatarProperties(isNew: bool, avatar: string, username: string)
    ensures HookedAvatar(isNew, avatar, username) != avatar ==> isNew && Contains(avatar, AvatarHost)
    ensures !isNew || !Contains(avatar, AvatarHost) ==> HookedAvatar(isNew, avatar, username) == avatar
    ensures HookedAvatar(isNew, HookedAvatar(isNew, avatar, username), username)
            == HookedAvatar(isNew, avatar, username)
  {
    AvatarForHasHost(username);
  }

  /** A user document being saved; the hook reassigns its avatar in place. */
  class UserDocument {
    const isNew: bool
    var username: string
    var avatar: string

    constructor (isNew: bool, username: string, avatar: string)
      ensures this.isNew == isNew && this.username == username && this.avatar == avatar
    {
      this.isNew := isNew;
      this.username := username;
      this.avatar := avatar;
    }

    /** `pre('save')`: a new document with a ui-avatars URL gets the one for its username. */
    method PreSaveAvatar()
      modifies this
      ensures avatar == HookedAvatar(isNew, old(avatar), username)
      ensures username == old(username)
    {
      if isNew && Contains(avatar, AvatarHost) {
        avatar := AvatarFor(username);
      }
    }
  }

  /** What registration hands to `User.create`. */
  datatype Registration = Registration(
    id: Id,
    username: string,
    email: string,
    password: string,
    avatar: Option<string>,
    bio: Option<string>,
    status: Option<string>)

  datatype Path = UsernamePath | EmailPath | PasswordPath | BioPath | StatusPath

  datatype Violation =
    | Required(path: Path)
    | MinLength(path: Path, min: nat)
    | MaxLength(path: Path, max: nat)
    | InvalidEmail
    | NotInEnum(path: Path)

  function UsernameViolations(username: string): (vs: seq<Violation>)
    ensures vs == [] <==> 3 <= Utf16Length(Trim(username)) <= 30
  {
    var name := Trim(username);
    if name == "" then [Required(UsernamePath)]
    else if Utf16Length(name) < 3 then [MinLength(UsernamePath, 3)]
    else if Utf16Length(name) > 30 then [MaxLength(UsernamePath, 30)]
    else []
  }

  function EmailViolations(email: string, isEmail: string -> bool): (vs: seq<Violation>)
    ensures vs == [] <==> ToLowerAscii(email) != "" && isEmail(ToLowerAscii(email))
  {
    var lowered := ToLowerAscii(email);
    if lowered == "" then [Required(EmailPath)]
    else if !isEmail(lowered) then [InvalidEmail]
    else []
  }

  function PasswordViolations(password: string): (vs: seq<Violation>)
    ensures vs == [] <==> Utf16Length(password) >= 6
  {
    if password == "" then [Required(PasswordPath)]
    else if Utf16Length(password) < 6 then [MinLength(PasswordPath, 6)]
    else []
  }

  function BioViolations(bio: Option<string>): (vs: seq<Violation>)
    ensures vs == [] <==> Utf16Length(bio.GetOr("")) <= 200
  {
    if Utf16Length(bio.GetOr("")) > 200 then [MaxLength(BioPath, 200)] else []
  }

  function StatusViolations(status: Option<string>): (vs: seq<Violation>)
    ensures vs == [] <==> status.None? || status.value in {"online", "offline", "away"}
  {
    if CastPresence(status).None? then [NotInEnum(StatusPath)] else []
  }

  /** The failing validator of each path, in schema order (`required` is checked first). */
  function Violations(reg: Registration, isEmail: string -> bool): (vs: seq<Violation>)
    ensures vs == [] <==>
      && UsernameViolations(reg.username) == [] && EmailViolations(reg.email, isEmail) == []
      && PasswordViolations(reg.password) == [] && BioViolations(reg.bio) == []
      && StatusViolations(reg.status) == []
  {
    UsernameViolations(reg.username) + EmailViolations(reg.email, isEmail)
    + PasswordViolations(reg.password) + BioViolations(reg.bio) + StatusViolations(reg.status)
  }

  /** The bounds every stored user satisfies. */
  predicate StoredUserBounds(u: User)
  {
    && 3 <= Utf16Length(u.username) <= 30
    && Trim(u.username) == u.username
    && u.email != ""
    && ToLowerAscii(u.email) == u.email
    && Utf16Length(u.bio) <= 200
  }

  /**
   * `User.create(reg)`: set-time trimming and lower-casing, defaults, the
   * validators, then the avatar hook of a new document.
   */
  function CreateUser(reg: Registration, isEmail: string -> bool): (r: Result<User, seq<Violation>>)
    ensures r.Ok? <==>
      && 3 <= Utf16Length(Trim(reg.username)) <= 30
      && ToLowerAscii(reg.email) != "" && isEmail(ToLowerAscii(reg.email))
      && Utf16Length(reg.password) >= 6
      && Utf16Length(reg.bio.GetOr("")) <= 200
      && (reg.status.None? || reg.status.value in {"online", "offline", "away"})
    ensures r.Err? ==> |r.error| > 0
    ensures r.Ok? ==> r.value.username == Trim(reg.username) && r.value.id == reg.id
    ensures r.Ok? ==> r.value.email == ToLowerAscii(reg.email) && r.value.bio == reg.bio.GetOr("")
    ensures r.Ok? && reg.status.None? ==> r.value.status == Offline
    ensures r.Ok? && reg.status.Some? ==> PresenceName(r.value.status) == reg.status.value
    ensures r.Ok? ==> r.value.socketId == None && r.value.friends == []
    ensures r.Ok? && reg.avatar.None? ==> r.value.avatar == AvatarFor(r.value.username)
    ensures r.Ok? && reg.avatar.Some? && Contains(reg.avatar.value, AvatarHost) ==>
      r.value.avatar == AvatarFor(r.value.username)
    ensures r.Ok? && reg.avatar.Some? && !Contains(reg.avatar.value, AvatarHost) ==>
      r.value.avatar == reg.avatar.value
  {
    var vs := Violations(reg, isEmail);
    if vs != [] then Err(vs)
    else
      var name := Trim(reg.username);
      AvatarForHasHost(name);
      Ok(User(reg.id, name, ToLowerAscii(reg.email),
              HookedAvatar(true, reg.avatar.GetOr(DefaultAvatar), name),
              reg.bio.GetOr(""), CastPresence(reg.status).value, None, []))
  }

  /** Every user that creation accepts satisfies the bounds of a stored user. */
  lemma CreatedUserBounds(reg: Registration, isEmail: string -> bool)
    requires CreateUser(reg, isEmail).Ok?
    ensures StoredUserBounds(CreateUser(reg, isEmail).value)
  {
    TrimIdempotent(reg.username);
    ToLowerAsciiIdempotent(reg.email);
  }

  /** Why `User.create` refused a registration. */
  datatype CreateError = Invalid(violations: seq<Violation>) | KeyTaken

  /** The unique indexes on username and email: no two stored users share either. */
  ghost predicate UniqueKeys(users: seq<User>)
  {
    forall i, j :: 0 <= i < |users| && 0 <= j < |users| && i != j ==>
      users[i].username != users[j].username && users[i].email != users[j].email
  }

  /**
   * `User.create(reg)` against the stored users: the validators run first;
   * a valid user is then refused by the unique indexes when its trimmed
   * username or its lowercased email is already stored.
   */
  function CreateUserIn(users: seq<User>, reg: Registration, isEmail: string -> bool): (r: Result<User, CreateError>)
    ensures CreateUser(reg, isEmail).Err? ==> r == Err(Invalid(CreateUser(reg, isEmail).error))
    ensures CreateUser(reg, isEmail).Ok? ==>
      (r.Ok? <==> forall i :: 0 <= i < |users| ==>
                    users[i].username != Trim(reg.username) && users[i].email != ToLowerAscii(reg.email))
    ensures r.Ok? ==> CreateUser(reg, isEmail).Ok? && r.value == CreateUser(reg, isEmail).value
    ensures r.Err? ==> r.error.KeyTaken? || r.error.violations != []
  {
    match CreateUser(reg, isEmail)
    case Err(vs) => Err(Invalid(vs))
    case Ok(u) =>
      if exists i :: 0 <= i < |users| && (users[i].username == u.username || users[i].email == u.email)
      then Err(KeyTaken)
      else Ok(u)
  }

  /** Storing a user that creation accepted keeps usernames and emails unique. */
  lemma CreateUserInKeepsUniqueKeys(users: seq<User>, reg: Registration, isEmail: string -> bool)
    requires UniqueKeys(users) && CreateUserIn(users, reg, isEmail).Ok?
    ensures UniqueKeys(users + [CreateUserIn(users, reg, isEmail).value])
  {
    var u := CreateUserIn(users, reg, isEmail).value;
    var users' := users + [u];
    forall i | 0 <= i < |users| ensures users'[i].username != u.username && users'[i].email != u.email {
      assert users'[i] == users[i];
    }
  }

  /** `friends.some(f => f == x)`. */
  function SomeEqual(friends: seq<Id>, x: Id): (r: bool)
    ensures r <==> x in friends
  {
    if |friends| == 0 then false
    else friends[0] == x || SomeEqual(friends[1..], x)
  }

  /** `user.isFriend(x)`: some entry of the friends array equals `x`. */
  function IsFriend(u: User, x: Id): (r: bool)
    ensures r <==> exists k :: 0 <= k < |u.friends| && u.friends[k] == x
  {
    SomeEqual(u.friends, x)
  }

  /** `user.getPendingRequests()`: the pending requests this user received. */
  function GetPendingRequests(u: User, reqs: seq<FriendRequestModel.FriendRequest>): (r: seq<FriendRequestModel.FriendRequest>)
    ensures forall x :: x in r <==> x in reqs && x.receiver == u.id && FriendRequestModel.IsPending(x)
  {
    FriendRequestModel.FindPendingForUser(reqs, u.id)
  }

  /** `user.getSentRequests()`: the pending requests this user sent. */
  function GetSentRequests(u: User, reqs: seq<FriendRequestModel.FriendRequest>): (r: seq<FriendRequestModel.FriendRequest>)
    ensures forall x :: x in r <==> x in reqs && x.sender == u.id && FriendRequestModel.IsPending(x)
  {
    FriendRequestModel.FindSentByUser(reqs, u.id)
  }
}
