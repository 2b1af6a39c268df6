/** Request sequences a client of the API can send, and what they come to. */
module Scenarios {
  import opened Results
  import opened Documents
  import opened Validators
  import opened UserModel
  import opened ThoughtModel
  import opened Store
  import opened UserController
  import opened ThoughtController

  /** Text of `n` copies of one character of the Basic Multilingual Plane. */
  function Repeat(c: char, n: nat): (s: string)
    requires c as int <= 0xFFFF
    ensures |s| == n && InBmp(s)
  {
    seq(n, _ => c)
  }

  /** `thoughtText` of 279 characters is accepted; 280 and the empty string are not. */
  lemma ThoughtTextBoundary(id: Id, author: Id)
    ensures NewThought(id, Repeat('a', 279), author).Ok?
    ensures NewThought(id, Repeat('a', 280), author).Err?
    ensures NewThought(id, "", author).Err?
  {
    ValidLengthBounds(Repeat('a', 279));
    ValidLengthBounds(Repeat('a', 280));
  }

  /** A thought that was created can be read back, and its author lists it once. */
  method CreateThenGetThought(db: Db, thoughtText: string, author: Id) returns (created: Result<Thought>, got: Result<Thought>)
    requires db.Valid()
    modifies db
    ensures db.Valid()
    ensures created.Ok? <==> thoughtText != [] && author in old(db.users) && Utf16Length(thoughtText) < 280
    ensures created.Ok? ==> got == created && author in db.users && multiset(db.users[author].thoughts)[created.value.id] == 1
  {
    created := CreateThought(db, Some(thoughtText), Some(author));
    if created.Ok? {
      got := GetThoughtById(db, created.value.id);
    } else {
      got := created;
    }
  }

  /** After a deletion the thought cannot be read, and no user lists it. */
  method DeleteThenGetThought(db: Db, id: Id) returns (got: Result<Thought>)
    requires db.Valid()
    modifies db
    ensures db.Valid()
    ensures got == Err(NotFound("thought"))
    ensures forall u :: u in db.users ==> id !in db.users[u].thoughts
  {
    var _ := DeleteThought(db, id);
    got := GetThoughtById(db, id);
  }

  /** Adding the same friend twice: the second request is refused, and the
      friend is listed once. */
  method AddFriendTwice(db: Db, userId: Id, friendId: Id) returns (second: Result<FriendAdded>)
    requires db.Valid() && userId in db.users && friendId in db.users
    modifies db
    ensures db.Valid()
    ensures second == Err(BadRequest(AlreadyFriend))
    ensures userId in db.users && multiset(db.users[userId].friends)[friendId] == 1
  {
    var first := AddFriend(db, userId, friendId);
    assert userId in db.users && friendId in db.users && friendId in db.users[userId].friends;
    second := AddFriend(db, userId, friendId);
    assert UsersWellFormed(db.users, db.nextId);
    DistinctCount(db.users[userId].friends, friendId);
  }

  /** Removing a reaction that is not there is refused and the count stays. */
  method RemoveMissingReaction(db: Db, thoughtId: Id, reactionId: Id) returns (r: Result<Thought>)
    requires db.Valid() && thoughtId in db.thoughts
    requires forall j :: 0 <= j < |db.thoughts[thoughtId].reactions| ==> db.thoughts[thoughtId].reactions[j].id != reactionId
    modifies db
    ensures r == Err(NotFound("reaction"))
    ensures thoughtId in db.thoughts
    ensures ReactionCount(Some(db.thoughts[thoughtId].reactions)) == old(ReactionCount(Some(db.thoughts[thoughtId].reactions)))
  {
    r := RemoveReaction(db, thoughtId, reactionId);
  }

  /** The parts of "a@example.com": a local part, one label and a top-level
      domain. */
  lemma ExampleAddressParts()
    ensures "a" + "@" + "example" + "." + "com" == "a@example.com"
    ensures AllLocalChars("a") && IsLabel("example") && AllLabelChars("com")
  {
  }

  lemma ExampleAddress()
    ensures IsAddress("a@example.com")
  {
    ExampleAddressParts();
    SingleLabelAddress("a", "example", "com");
  }

  lemma AliceTrimmed()
    ensures IsTrimmed("alice") && IsTrimmed("a@example.com")
  {
  }

  /** "alice" with "a@example.com" can register in an empty store. */
  lemma AliceCanRegister(next: Id)
    ensures CreateUserOutcome(map[], next, Some("alice"), Some("a@example.com")) == Ok(User(next, "alice", "a@example.com", [], []))
  {
    ExampleAddress();
    AliceTrimmed();
    CreateUserOutcomeOk(map[], next, "alice", "a@example.com");
  }

  /** A user that was created can be read back with no friends and no thoughts. */
  method CreateThenGetUser(db: Db, username: string, email: string) returns (created: Result<User>, got: Result<User>)
    requires db.Valid()
    modifies db
    ensures db.Valid()
    ensures created == CreateUserOutcome(old(db.users), old(db.nextId), Some(username), Some(email))
    ensures created.Ok? ==> got == created && FriendCount(Some(got.value.friends)) == 0 && got.value.thoughts == []
  {
    created := CreateUser(db, Some(username), Some(email));
    if created.Ok? {
      got := GetUserById(db, created.value.id);
    } else {
      got := created;
    }
  }

  /** A thought by one user and a reaction by another: the thought then has
      one reaction. */
  method ThoughtWithReaction(db: Db, author: Id, reactor: Id, text: string, body: string) returns (reactions: nat, reactionCount: nat)
    requires db.Valid() && author in db.users
    requires text != [] && Utf16Length(text) < 280 && body != []
    modifies db
    ensures db.Valid()
    ensures reactions == 1 && reactionCount == 1
  {
    var t := CreateThought(db, Some(text), Some(author));
    var added := AddReaction(db, t.value.id, Some(body), Some(reactor));
    var got := GetThoughtById(db, t.value.id);
    reactions, reactionCount := |got.value.reactions|, ReactionCount(Some(got.value.reactions));
  }

  /** Deleting its author leaves a thought readable. */
  method DeleteAuthorThenGetThought(db: Db, author: Id, text: string) returns (got: Result<Thought>)
    requires db.Valid() && author in db.users
    requires text != [] && Utf16Length(text) < 280
    modifies db
    ensures db.Valid()
    ensures got.Ok? && got.value.author == author && got.value.thoughtText == text && author !in db.users
  {
    var t := CreateThought(db, Some(text), Some(author));
    var _ := DeleteUser(db, author);
    got := GetThoughtById(db, t.value.id);
  }
}
