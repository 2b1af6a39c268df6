/** The handlers of controllers/user-controller.js, each one request against
    the store. */
module UserController {
  import opened Results
  import opened Documents
  import opened Validators
  import opened UserModel
  import opened Store

  const BothRequired := "Username and email are both required"
  const UpdateRequired := "New username or email are required to update profile info"
  const AlreadyFriend := "That friend is already in this user's friends list"
  const NotAFriend := "That friend was not found in this user's friends list"

  /** The `friend` part of the `addFriend` response. */
  datatype FriendSummary = FriendSummary(id: Id, username: string)

  datatype FriendAdded = FriendAdded(friend: FriendSummary, user: User)

  datatype FriendRemoved = FriendRemoved(friendId: Id, user: User)

  /** GET /api/users: every user document. */
  method GetAllUsers(db: Db) returns (r: set<User>)
    ensures forall u :: u in r <==> exists k :: k in db.users && db.users[k] == u
  {
    r := db.users.Values;
  }

  /** GET /api/users/:id */
  method GetUserById(db: Db, id: Id) returns (r: Result<User>)
    ensures id in db.users ==> r == Ok(db.users[id])
    ensures id !in db.users ==> r == Err(NotFound("user"))
  {
    if id !in db.users {
      return Err(NotFound("user"));
    }
    return Ok(db.users[id]);
  }

  /** What POST /api/users answers against the users collection `users` when
      the next id is `next`. Both fields must be given; then `User.create`
      trims and validates, and the unique indexes refuse a taken username or
      email. */
  function CreateUserOutcome(users: map<Id, User>, next: Id, username: Option<string>, email: Option<string>): (r: Result<User>)
    ensures !Given(username) || !Given(email) ==> r == Err(BadRequest(BothRequired))
    ensures Given(username) && Given(email) ==>
      (r.Err? && r.error == ValidationFailed <==>
         AllWhitespace(username.value) || AllWhitespace(email.value) || !IsAddress(Trim(email.value)))
    ensures r.Err? ==> r.error == BadRequest(BothRequired) || r.error == ValidationFailed || r.error == DuplicateKey
    ensures r.Ok? ==>
      && Given(username) && Given(email)
      && r.value == User(next, Trim(username.value), Trim(email.value), [], [])
      && ValidUser(r.value)
      && !UsernameInUse(users, r.value.username, next) && !EmailInUse(users, r.value.email, next)
    ensures r == Err(DuplicateKey) <==>
      && Given(username) && Given(email) && NewUser(next, username.value, email.value).Ok?
      && (UsernameInUse(users, Trim(username.value), next) || EmailInUse(users, Trim(email.value), next))
  {
    if !Given(username) || !Given(email) then Err(BadRequest(BothRequired))
    else
      match NewUser(next, username.value, email.value)
      case Err(_) => Err(ValidationFailed)
      case Ok(u) =>
        if UsernameInUse(users, u.username, next) || EmailInUse(users, u.email, next) then Err(DuplicateKey)
        else Ok(u)
  }

  /** A request with a trimmed, non-empty username and a well-formed trimmed
      email that nobody holds yet succeeds and stores exactly those values. */
  lemma CreateUserOutcomeOk(users: map<Id, User>, next: Id, username: string, email: string)
    requires username != [] && IsTrimmed(username) && IsTrimmed(email) && IsAddress(email)
    requires !UsernameInUse(users, username, next) && !EmailInUse(users, email, next)
    ensures CreateUserOutcome(users, next, Some(username), Some(email)) == Ok(User(next, username, email, [], []))
  {
    assert !IsJsWhitespace(username[0]);
    assert email != [] && !IsJsWhitespace(email[0]);
  }

  /** A refused registration ends with 400 exactly when a field is missing;
      every other refusal comes from the store and ends with 500. */
  lemma CreateUserStatus(users: map<Id, User>, next: Id, username: Option<string>, email: Option<string>)
    ensures var r := CreateUserOutcome(users, next, username, email);
      r.Err? ==> (Status(r.error) == 400 <==> !Given(username) || !Given(email)) && Status(r.error) != 404
  {
  }

  /** POST /api/users: on success the new user is stored under a fresh id. */
  method CreateUser(db: Db, username: Option<string>, email: Option<string>) returns (r: Result<User>)
    requires db.Valid()
    modifies db
    ensures db.Valid()
    ensures r == CreateUserOutcome(old(db.users), old(db.nextId), username, email)
    ensures r.Err? ==> unchanged(db)
    ensures r.Ok? ==>
      && r.value.id !in old(db.users)
      && db.users == old(db.users)[r.value.id := r.value]
      && db.thoughts == old(db.thoughts) && db.nextId == old(db.nextId) + 1
  {
    r := CreateUserOutcome(db.users, db.nextId, username, email);
    if r.Ok? {
      db.InsertUser(r.value);
    }
  }

  /** The update document `{ username, email }` after the `trim` setters: a
      field that is absent from the body is left alone. No validator runs. */
  function Patched(u: User, username: Option<string>, email: Option<string>): (p: User)
    ensures p.id == u.id && p.thoughts == u.thoughts && p.friends == u.friends
    ensures username.Some? ==> p.username == Trim(username.value) && IsTrimmed(p.username)
    ensures username.None? ==> p.username == u.username
    ensures email.Some? ==> p.email == Trim(email.value) && IsTrimmed(p.email)
    ensures email.None? ==> p.email == u.email
  {
    u.(username := if username.Some? then Trim(username.value) else u.username,
       email := if email.Some? then Trim(email.value) else u.email)
  }

  /** PUT /api/users/:id, updating the user the id names. */
  method UpdateUserInfo(db: Db, id: Id, username: Option<string>, email: Option<string>) returns (r: Result<User>)
    requires db.Valid()
    modifies db
    ensures db.Valid()
    ensures !Given(username) && !Given(email) ==> r == Err(BadRequest(UpdateRequired))
    ensures (Given(username) || Given(email)) && id !in old(db.users) ==> r == Err(NotFound("user"))
    ensures (Given(username) || Given(email)) && id in old(db.users)
        ==> var p := Patched(old(db.users[id]), username, email);
            (r == Err(DuplicateKey) <==> UsernameInUse(old(db.users), p.username, id) || EmailInUse(old(db.users), p.email, id))
            && (r.Err? ==> r == Err(DuplicateKey))
    ensures r.Err? ==> unchanged(db)
    ensures r.Ok? ==>
      && id in old(db.users)
      && var old_u := old(db.users[id]);
      && r.value.id == id
      && r.value.username == (if username.Some? then Trim(username.value) else old_u.username)
      && r.value.email == (if email.Some? then Trim(email.value) else old_u.email)
      && r.value.thoughts == old_u.thoughts && r.value.friends == old_u.friends
      && db.users == old(db.users)[id := r.value]
      && db.thoughts == old(db.thoughts) && db.nextId == old(db.nextId)
  {
    if !Given(username) && !Given(email) {
      return Err(BadRequest(UpdateRequired));
    }
    if id !in db.users {
      return Err(NotFound("user"));
    }
    var p := Patched(db.users[id], username, email);
    if UsernameInUse(db.users, p.username, id) || EmailInUse(db.users, p.email, id) {
      return Err(DuplicateKey);
    }
    db.ReplaceUser(p);
    return Ok(p);
  }

  /** The update as written: the filter `{ id: user.id }` names a path the
      schema does not have (`id: false`), so it selects the first user in
      natural order, whatever `id` was asked for. The unique indexes still
      refuse the write when the patched first user would share a username or
      an email with anybody else. */
  ghost function UpdateUserAsWritten(users: map<Id, User>, id: Id, username: Option<string>, email: Option<string>): (r: Result<map<Id, User>>)
    requires id in users
    ensures var first := FirstKey(users.Keys);
      var p := Patched(users[first], username, email);
      && (r.Err? <==> UsernameInUse(users, p.username, first) || EmailInUse(users, p.email, first))
      && (r.Err? ==> r.error == DuplicateKey)
      && (r.Ok? ==>
            && r.value.Keys == users.Keys
            && r.value[first] == p
            && forall k :: k in users && k != first ==> r.value[k] == users[k])
  {
    var first := FirstKey(users.Keys);
    var p := Patched(users[first], username, email);
    if UsernameInUse(users, p.username, first) || EmailInUse(users, p.email, first) then Err(DuplicateKey)
    else Ok(users[first := p])
  }

  /** With two users, renaming the second one as written renames the first
      and leaves the second as it was. */
  lemma UpdateUserAsWrittenMissesTarget()
    ensures var a := User(0, "ann", "ann@mail.com", [], []);
      var b := User(1, "bob", "bob@mail.com", [], []);
      var r := UpdateUserAsWritten(map[0 := a, 1 := b], 1, Some("robert"), None);
      r.Ok? && r.value[1] == b && r.value[0].username == "robert"
  {
    var a := User(0, "ann", "ann@mail.com", [], []);
    var b := User(1, "bob", "bob@mail.com", [], []);
    var users := map[0 := a, 1 := b];
    assert 0 in users.Keys;
    assert FirstKey(users.Keys) == 0;
    assert IsTrimmed("robert");
    assert "robert" != "bob";
    assert "ann@mail.com" != "bob@mail.com";
  }

  /** With two users, the second one sending its own username again is
      refused as written: the first user would take that name. */
  lemma UpdateUserAsWrittenRefusesOwnName()
    ensures var a := User(0, "ann", "ann@mail.com", [], []);
      var b := User(1, "bob", "bob@mail.com", [], []);
      UpdateUserAsWritten(map[0 := a, 1 := b], 1, Some("bob"), None) == Err(DuplicateKey)
  {
    var a := User(0, "ann", "ann@mail.com", [], []);
    var b := User(1, "bob", "bob@mail.com", [], []);
    var users := map[0 := a, 1 := b];
    assert 0 in users.Keys;
    assert FirstKey(users.Keys) == 0;
    assert IsTrimmed("bob");
    assert 1 in users && users[1].username == "bob";
  }

  /** DELETE /api/users/:id: removes that one document. Thoughts it wrote and
      other users' `friends` entries stay as they are. */
  method DeleteUser(db: Db, id: Id) returns (r: Result<User>)
    requires db.Valid()
    modifies db
    ensures db.Valid()
    ensures id !in old(db.users) ==> r == Err(NotFound("user")) && unchanged(db)
    ensures id in old(db.users) ==>
      && r == Ok(old(db.users[id]))
      && db.users == old(db.users) - {id}
      && db.thoughts == old(db.thoughts) && db.nextId == old(db.nextId)
  {
    if id !in db.users {
      return Err(NotFound("user"));
    }
    var u := db.users[id];
    db.RemoveUser(id);
    return Ok(u);
  }

  /** PUT /api/users/:userId/add-friend/:friendId */
  method AddFriend(db: Db, userId: Id, friendId: Id) returns (r: Result<FriendAdded>)
    requires db.Valid()
    modifies db
    ensures db.Valid()
    ensures friendId !in old(db.users) ==> r == Err(NotFound("friend"))
    ensures friendId in old(db.users) && userId !in old(db.users) ==> r == Err(NotFound("user"))
    ensures friendId in old(db.users) && userId in old(db.users) && friendId in old(db.users[userId].friends)
        ==> r == Err(BadRequest(AlreadyFriend))
    ensures friendId in old(db.users) && userId in old(db.users) && friendId !in old(db.users[userId].friends) ==> r.Ok?
    ensures r.Err? ==> unchanged(db)
    ensures r.Ok? ==>
      && friendId in old(db.users) && userId in old(db.users)
      && friendId !in old(db.users[userId].friends)
      && var u := old(db.users[userId]).(friends := old(db.users[userId].friends) + [friendId]);
      && db.users == old(db.users)[userId := u]
      && r.value == FriendAdded(FriendSummary(friendId, old(db.users[friendId].username)), u)
      && multiset(u.friends)[friendId] == 1
      && FriendCount(Some(u.friends)) == FriendCount(Some(old(db.users[userId].friends))) + 1
      && db.thoughts == old(db.thoughts) && db.nextId == old(db.nextId)
    ensures r.Ok? && friendId != userId ==> db.users[friendId] == old(db.users[friendId])
  {
    if friendId !in db.users {
      return Err(NotFound("friend"));
    }
    var friend := db.users[friendId];
    if userId !in db.users {
      return Err(NotFound("user"));
    }
    var user := db.users[userId];
    if friendId in user.friends {
      return Err(BadRequest(AlreadyFriend));
    }
    AddToSetOnce(user.friends, friendId);
    var updated := user.(friends := AddToSet(user.friends, friendId));
    db.ReplaceUser(updated);
    return Ok(FriendAdded(FriendSummary(friendId, friend.username), updated));
  }

  /** PUT /api/users/:userId/remove-friend/:friendId. Whether the friend still
      exists is never asked. */
  method RemoveFriend(db: Db, userId: Id, friendId: Id) returns (r: Result<FriendRemoved>)
    requires db.Valid()
    modifies db
    ensures db.Valid()
    ensures userId !in old(db.users) ==> r == Err(NotFound("user"))
    ensures userId in old(db.users) && friendId !in old(db.users[userId].friends) ==> r == Err(BadRequest(NotAFriend))
    ensures userId in old(db.users) && friendId in old(db.users[userId].friends) ==> r.Ok?
    ensures r.Err? ==> unchanged(db)
    ensures r.Ok? ==>
      && userId in old(db.users)
      && var f := old(db.users[userId].friends);
      && db.users == old(db.users)[userId := old(db.users[userId]).(friends := Pull(f, friendId))]
      && (exists i :: 0 <= i < |f| && f[i] == friendId && Pull(f, friendId) == f[..i] + f[i + 1..])
      && friendId !in db.users[userId].friends
      && FriendCount(Some(db.users[userId].friends)) == FriendCount(Some(f)) - 1
      && r.value == FriendRemoved(friendId, db.users[userId])
      && db.thoughts == old(db.thoughts) && db.nextId == old(db.nextId)
  {
    if userId !in db.users {
      return Err(NotFound("user"));
    }
    var user := db.users[userId];
    if friendId !in user.friends {
      return Err(BadRequest(NotAFriend));
    }
    var i :| 0 <= i < |user.friends| && user.friends[i] == friendId;
    PullDistinct(user.friends, i);
    var updated := user.(friends := Pull(user.friends, friendId));
    db.ReplaceUser(updated);
    return Ok(FriendRemoved(friendId, updated));
  }
}
