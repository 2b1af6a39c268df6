/** The handlers of controllers/thought-controller.js, each one request against
    the store. */
module ThoughtController {
  import opened Results
  import opened Documents
  import opened Validators
  import opened UserModel
  import opened ThoughtModel
  import opened Store

  const TextAndAuthorRequired := "Thought text and author are both required"
  const TextRequired := "Updated thought text required"
  const BodyAndAuthorRequired := "Reaction body and author are required to add a reaction"

  /** GET /api/thoughts: every thought document. */
  method GetAllThoughts(db: Db) returns (r: set<Thought>)
    ensures forall t :: t in r <==> exists k :: k in db.thoughts && db.thoughts[k] == t
  {
    r := db.thoughts.Values;
  }

  /** GET /api/thoughts/:id */
  method GetThoughtById(db: Db, id: Id) returns (r: Result<Thought>)
    ensures id in db.thoughts ==> r == Ok(db.thoughts[id])
    ensures id !in db.thoughts ==> r == Err(NotFound("thought"))
  {
    if id !in db.thoughts {
      return Err(NotFound("thought"));
    }
    return Ok(db.thoughts[id]);
  }

  /** What POST /api/thoughts answers against the users collection `users`
      when the next id is `next`: both fields must be given, the author must
      exist, and `Thought.create` checks the length of the text. */
  function CreateThoughtOutcome(users: map<Id, User>, next: Id, thoughtText: Option<string>, author: Option<Id>): (r: Result<Thought>)
    ensures !Given(thoughtText) || author.None? ==> r == Err(BadRequest(TextAndAuthorRequired))
    ensures Given(thoughtText) && author.Some? && author.value !in users ==> r == Err(NotFound("user"))
    ensures Given(thoughtText) && author.Some? && author.value in users ==>
      (r == Err(ValidationFailed) <==> Utf16Length(thoughtText.value) >= 280)
    ensures r.Err? ==> r.error in {BadRequest(TextAndAuthorRequired), NotFound("user"), ValidationFailed}
    ensures r.Ok? ==>
      && thoughtText.Some? && author.Some? && author.value in users
      && r.value == Thought(next, thoughtText.value, author.value, [])
      && ValidThought(r.value)
  {
    if !Given(thoughtText) || author.None? then Err(BadRequest(TextAndAuthorRequired))
    else if author.value !in users then Err(NotFound("user"))
    else NewThought(next, thoughtText.value, author.value)
  }

  /** POST /api/thoughts: on success the thought is stored under a fresh id
      and that id is pushed onto its author's `thoughts`, where it then occurs
      once. */
  method CreateThought(db: Db, thoughtText: Option<string>, author: Option<Id>) returns (r: Result<Thought>)
    requires db.Valid()
    modifies db
    ensures db.Valid()
    ensures r == CreateThoughtOutcome(old(db.users), old(db.nextId), thoughtText, author)
    ensures r.Err? ==> unchanged(db)
    ensures r.Ok? ==>
      && r.value.id !in old(db.thoughts)
      && db.thoughts == old(db.thoughts)[r.value.id := r.value]
      && db.users == PushThought(old(db.users), r.value.author, r.value.id)
      && multiset(db.users[r.value.author].thoughts)[r.value.id] == 1
      && db.nextId == old(db.nextId) + 1
  {
    r := CreateThoughtOutcome(db.users, db.nextId, thoughtText, author);
    if r.Ok? {
      var t := r.value;
      db.InsertThought(t);
      assert UsersWellFormed(db.users, db.nextId);
      DistinctCount(db.users[t.author].thoughts, t.id);
    }
  }

  /** PUT /api/thoughts/:id: replaces the text only. The update path runs no
      validator, so any length is stored. */
  method UpdateThought(db: Db, id: Id, thoughtText: Option<string>) returns (r: Result<Thought>)
    requires db.Valid()
    modifies db
    ensures db.Valid()
    ensures !Given(thoughtText) ==> r == Err(BadRequest(TextRequired))
    ensures Given(thoughtText) && id !in old(db.thoughts) ==> r == Err(NotFound("thought"))
    ensures Given(thoughtText) && id in old(db.thoughts) ==> r.Ok?
    ensures r.Err? ==> unchanged(db)
    ensures r.Ok? ==>
      && Given(thoughtText) && id in old(db.thoughts)
      && r.value.thoughtText == thoughtText.value
      && r.value.id == id
      && r.value.author == old(db.thoughts[id].author)
      && r.value.reactions == old(db.thoughts[id].reactions)
      && db.thoughts == old(db.thoughts)[id := r.value]
      && db.users == old(db.users) && db.nextId == old(db.nextId)
  {
    if !Given(thoughtText) {
      return Err(BadRequest(TextRequired));
    }
    if id !in db.thoughts {
      return Err(NotFound("thought"));
    }
    var updated := db.thoughts[id].(thoughtText := thoughtText.value);
    db.ReplaceThought(updated, db.nextId);
    return Ok(updated);
  }

  /** DELETE /api/thoughts/:id, as intended: the id is pulled from the
      author's `thoughts` when the author exists, then the thought is
      removed. Afterwards no user lists it. */
  method DeleteThought(db: Db, id: Id) returns (r: Result<Thought>)
    requires db.Valid()
    modifies db
    ensures db.Valid()
    ensures id !in old(db.thoughts) ==> r == Err(NotFound("thought")) && unchanged(db)
    ensures id in old(db.thoughts) ==>
      && r == Ok(old(db.thoughts[id]))
      && db.thoughts == old(db.thoughts) - {id}
      && db.nextId == old(db.nextId)
      && var a := old(db.thoughts[id].author);
         db.users == (if a in old(db.users) then PullThought(old(db.users), a, id) else old(db.users))
    ensures forall u :: u in db.users ==> id !in db.users[u].thoughts
  {
    if id !in db.thoughts {
      return Err(NotFound("thought"));
    }
    var t := db.thoughts[id];
    db.RemoveThought(id);
    assert ThoughtsOwned(db.users, db.thoughts);
    return Ok(t);
  }

  /** The collections after DELETE /api/thoughts/:id as written. Line 112
      lacks `await`, so `user` is a pending query: always truthy, and its
      `_id` is undefined. The filter `{ _id: undefined }` selects the first
      user in natural order, whoever wrote the thought. */
  ghost function DeleteThoughtAsWritten(users: map<Id, User>, thoughts: map<Id, Thought>, id: Id): (r: (map<Id, User>, map<Id, Thought>))
    requires id in thoughts
    ensures r.1 == thoughts - {id}
    ensures users == map[] ==> r.0 == users
    ensures users != map[] ==> r.0 == PullThought(users, FirstKey(users.Keys), id)
  {
    if users == map[] then (users, thoughts - {id})
    else (PullThought(users, FirstKey(users.Keys), id), thoughts - {id})
  }

  /** When the author is not the first user, the deletion as written leaves
      the author listing a thought that no longer exists. */
  lemma DeleteThoughtAsWrittenLeavesDangling()
    ensures var ann := User(0, "ann", "ann@mail.com", [], []);
      var bob := User(1, "bob", "bob@mail.com", [2], []);
      var r := DeleteThoughtAsWritten(map[0 := ann, 1 := bob], map[2 := Thought(2, "hello", 1, [])], 2);
      2 in r.0[1].thoughts && 2 !in r.1 && !ThoughtsOwned(r.0, r.1)
  {
    var ann := User(0, "ann", "ann@mail.com", [], []);
    var bob := User(1, "bob", "bob@mail.com", [2], []);
    var users := map[0 := ann, 1 := bob];
    assert 0 in users.Keys;
    assert FirstKey(users.Keys) == 0;
    var r := DeleteThoughtAsWritten(users, map[2 := Thought(2, "hello", 1, [])], 2);
    assert r.0[1] == bob;
  }

  /** PUT /api/thoughts/:id/reactions: appends one reaction, cast by the
      `trim` setter and given two fresh ids; no validator runs. */
  method AddReaction(db: Db, thoughtId: Id, reactionBody: Option<string>, author: Option<Id>) returns (r: Result<Thought>)
    requires db.Valid()
    modifies db
    ensures db.Valid()
    ensures !Given(reactionBody) || author.None? ==> r == Err(BadRequest(BodyAndAuthorRequired))
    ensures Given(reactionBody) && author.Some? && thoughtId !in old(db.thoughts) ==> r == Err(NotFound("thought"))
    ensures Given(reactionBody) && author.Some? && thoughtId in old(db.thoughts) ==> r.Ok?
    ensures r.Err? ==> unchanged(db)
    ensures r.Ok? ==>
      && Given(reactionBody) && author.Some? && thoughtId in old(db.thoughts)
      && var t := old(db.thoughts[thoughtId]);
      && var rx := CastReaction(old(db.nextId), old(db.nextId) + 1, reactionBody.value, author.value);
      && r.value == t.(reactions := t.reactions + [rx])
      && ReactionCount(Some(r.value.reactions)) == ReactionCount(Some(t.reactions)) + 1
      && db.thoughts == old(db.thoughts)[thoughtId := r.value]
      && db.users == old(db.users) && db.nextId == old(db.nextId) + 2
    ensures r.Ok? ==> var rx := r.value.reactions[|r.value.reactions| - 1];
      forall k, q :: k in old(db.thoughts) && q in old(db.thoughts[k].reactions) ==> q.id != rx.id && q.reactionId != rx.reactionId
  {
    if !Given(reactionBody) || author.None? {
      return Err(BadRequest(BodyAndAuthorRequired));
    }
    if thoughtId !in db.thoughts {
      return Err(NotFound("thought"));
    }
    var t := db.thoughts[thoughtId];
    var rx := CastReaction(db.nextId, db.nextId + 1, reactionBody.value, author.value);
    forall k, q | k in db.thoughts && q in db.thoughts[k].reactions ensures q.id < db.nextId && q.reactionId < db.nextId {
      var rs := db.thoughts[k].reactions;
      var j :| 0 <= j < |rs| && rs[j] == q;
    }
    ReactionsPush(t.reactions, db.nextId, rx);
    var updated := t.(reactions := Push(t.reactions, rx));
    db.ReplaceThought(updated, db.nextId + 2);
    return Ok(updated);
  }

  /** The index of the first reaction whose `_id` is `key`, as
      `reactions.filter(...)[0]` finds it. */
  function FirstReactionWithId(rs: seq<Reaction>, key: Id): (r: Option<nat>)
    ensures r.Some? ==> r.value < |rs| && rs[r.value].id == key && forall j :: 0 <= j < r.value ==> rs[j].id != key
    ensures r.None? ==> forall j :: 0 <= j < |rs| ==> rs[j].id != key
  {
    if rs == [] then None
    else if rs[0].id == key then Some(0)
    else
      match FirstReactionWithId(rs[1..], key)
      case None => None
      case Some(i) => Some(i + 1)
  }

  /** PUT /api/thoughts/:thoughtId/reactions/:reactionId: `$pull` of the
      reaction whose `_id` matches; the others stay in order. */
  method RemoveReaction(db: Db, thoughtId: Id, reactionId: Id) returns (r: Result<Thought>)
    requires db.Valid()
    modifies db
    ensures db.Valid()
    ensures thoughtId !in old(db.thoughts) ==> r == Err(NotFound("thought"))
    ensures thoughtId in old(db.thoughts)
        && (forall j :: 0 <= j < |old(db.thoughts[thoughtId].reactions)| ==> old(db.thoughts[thoughtId].reactions)[j].id != reactionId)
        ==> r == Err(NotFound("reaction"))
    ensures thoughtId in old(db.thoughts)
        && (exists j :: 0 <= j < |old(db.thoughts[thoughtId].reactions)| && old(db.thoughts[thoughtId].reactions)[j].id == reactionId)
        ==> r.Ok?
    ensures r.Err? ==> unchanged(db)
    ensures r.Ok? ==>
      && thoughtId in old(db.thoughts)
      && var t := old(db.thoughts[thoughtId]);
      && (exists i :: 0 <= i < |t.reactions| && t.reactions[i].id == reactionId
            && r.value == t.(reactions := t.reactions[..i] + t.reactions[i + 1..]))
      && ReactionCount(Some(r.value.reactions)) == ReactionCount(Some(t.reactions)) - 1
      && db.thoughts == old(db.thoughts)[thoughtId := r.value]
      && db.users == old(db.users) && db.nextId == old(db.nextId)
    ensures r.Ok? ==> forall j :: 0 <= j < |r.value.reactions| ==> r.value.reactions[j].id != reactionId
  {
    if thoughtId !in db.thoughts {
      return Err(NotFound("thought"));
    }
    var t := db.thoughts[thoughtId];
    var found := FirstReactionWithId(t.reactions, reactionId);
    if found.None? {
      return Err(NotFound("reaction"));
    }
    var i := found.value;
    ReactionsRemove(t.reactions, db.nextId, i);
    PullOnce(t.reactions, i);
    var updated := t.(reactions := Pull(t.reactions, t.reactions[i]));
    db.ReplaceThought(updated, db.nextId);
    return Ok(updated);
  }
}
