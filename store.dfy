/** The two collections the controllers read and write, the writes they make,
    and what those writes keep true between requests. */
module Store {
  import opened Documents
  import opened UserModel
  import opened ThoughtModel

  // ---------------------------------------------------------------------------
  // What holds of the collections between requests

  /** The unique indexes on `username` and `email`. */
  ghost predicate UniqueFields(users: map<Id, User>)
  {
    && (forall a, b :: a in users && b in users && users[a].username == users[b].username ==> a == b)
    && (forall a, b :: a in users && b in users && users[a].email == users[b].email ==> a == b)
  }

  /** Each user is stored under its own id, handed out before `next`, with
      the fields the `trim` setters leave, unique indexed fields and no id
      twice in either array. */
  ghost predicate UsersWellFormed(users: map<Id, User>, next: Id)
  {
    && (forall u :: u in users ==> users[u].id == u && u < next)
    && (forall u :: u in users ==> IsTrimmed(users[u].username) && IsTrimmed(users[u].email))
    && (forall u :: u in users ==> Distinct(users[u].thoughts) && Distinct(users[u].friends))
    && UniqueFields(users)
  }

  predicate DistinctReactionIds(rs: seq<Reaction>)
  {
    forall i, j :: 0 <= i < j < |rs| ==> rs[i].id != rs[j].id
  }

  /** Reaction ids were handed out before `next`, bodies are trimmed and no
      `_id` occurs twice. */
  ghost predicate ReactionsWellFormed(rs: seq<Reaction>, next: Id)
  {
    && (forall i :: 0 <= i < |rs| ==> rs[i].id < next && rs[i].reactionId < next && IsTrimmed(rs[i].reactionBody))
    && DistinctReactionIds(rs)
  }

  /** Each thought is stored under its own id; its id and author were handed
      out before `next`. */
  ghost predicate ThoughtsWellFormed(thoughts: map<Id, Thought>, next: Id)
  {
    forall t :: t in thoughts ==>
      && thoughts[t].id == t && t < next && thoughts[t].author < next
      && ReactionsWellFormed(thoughts[t].reactions, next)
  }

  /** A user lists only thoughts that exist and that the user wrote. */
  ghost predicate ThoughtsOwned(users: map<Id, User>, thoughts: map<Id, Thought>)
  {
    forall u, t :: u in users && t in users[u].thoughts ==> t in thoughts && thoughts[t].author == u
  }

  /** A thought whose author still exists is listed by that author. */
  ghost predicate ThoughtsListed(users: map<Id, User>, thoughts: map<Id, Thought>)
  {
    forall t :: t in thoughts && thoughts[t].author in users ==> t in users[thoughts[t].author].thoughts
  }

  ghost predicate Consistent(users: map<Id, User>, thoughts: map<Id, Thought>, next: Id)
  {
    && UsersWellFormed(users, next)
    && ThoughtsWellFormed(thoughts, next)
    && ThoughtsOwned(users, thoughts)
    && ThoughtsListed(users, thoughts)
  }

  /** Somebody other than `self` has this username. */
  predicate UsernameInUse(users: map<Id, User>, name: string, self: Id)
  {
    exists k :: k in users && k != self && users[k].username == name
  }

  /** Somebody other than `self` has this email. */
  predicate EmailInUse(users: map<Id, User>, email: string, self: Id)
  {
    exists k :: k in users && k != self && users[k].email == email
  }

  /** `users` after `$push` of `id` onto the `thoughts` of user `a`. */
  function PushThought(users: map<Id, User>, a: Id, id: Id): (r: map<Id, User>)
    requires a in users
    ensures r.Keys == users.Keys
    ensures r[a] == users[a].(thoughts := users[a].thoughts + [id])
    ensures forall v :: v in users && v != a ==> r[v] == users[v]
  {
    users[a := users[a].(thoughts := users[a].thoughts + [id])]
  }

  /** `users` after `$pull` of `id` from the `thoughts` of user `a`. */
  function PullThought(users: map<Id, User>, a: Id, id: Id): (r: map<Id, User>)
    requires a in users
    ensures r.Keys == users.Keys
    ensures r[a] == users[a].(thoughts := Pull(users[a].thoughts, id))
    ensures forall v :: v in users && v != a ==> r[v] == users[v]
  {
    users[a := users[a].(thoughts := Pull(users[a].thoughts, id))]
  }

  // ---------------------------------------------------------------------------
  // Each collection on its own

  /** Storing a user whose id was handed out, with trimmed fields nobody else
      holds and duplicate-free arrays. */
  lemma UsersPut(users: map<Id, User>, next: Id, next': Id, u: User)
    requires UsersWellFormed(users, next) && next <= next' && u.id < next'
    requires IsTrimmed(u.username) && IsTrimmed(u.email)
    requires Distinct(u.thoughts) && Distinct(u.friends)
    requires !UsernameInUse(users, u.username, u.id) && !EmailInUse(users, u.email, u.id)
    ensures UsersWellFormed(users[u.id := u], next')
  {
    assert UniqueFields(users[u.id := u]);
  }

  lemma UsersRemove(users: map<Id, User>, next: Id, id: Id)
    requires UsersWellFormed(users, next)
    ensures UsersWellFormed(users - {id}, next)
  {
    assert UniqueFields(users - {id});
  }

  /** Handing out more ids keeps what holds of the thoughts. */
  lemma ThoughtsGrow(thoughts: map<Id, Thought>, next: Id, next': Id)
    requires ThoughtsWellFormed(thoughts, next) && next <= next'
    ensures ThoughtsWellFormed(thoughts, next')
  {
    forall k | k in thoughts ensures ReactionsWellFormed(thoughts[k].reactions, next') {
      var rs := thoughts[k].reactions;
      assert forall i :: 0 <= i < |rs| ==> rs[i].id < next && rs[i].reactionId < next;
    }
  }

  /** Storing a thought whose ids were handed out. */
  lemma ThoughtsPut(thoughts: map<Id, Thought>, next: Id, next': Id, t: Thought)
    requires ThoughtsWellFormed(thoughts, next) && next <= next'
    requires t.id < next' && t.author < next' && ReactionsWellFormed(t.reactions, next')
    ensures ThoughtsWellFormed(thoughts[t.id := t], next')
  {
    ThoughtsGrow(thoughts, next, next');
  }

  lemma ThoughtsRemove(thoughts: map<Id, Thought>, next: Id, id: Id)
    requires ThoughtsWellFormed(thoughts, next)
    ensures ThoughtsWellFormed(thoughts - {id}, next)
  {
  }

  /** Appending a trimmed reaction whose ids are the next two. */
  lemma ReactionsPush(rs: seq<Reaction>, next: Id, rx: Reaction)
    requires ReactionsWellFormed(rs, next)
    requires rx.id == next && rx.reactionId == next + 1 && IsTrimmed(rx.reactionBody)
    ensures ReactionsWellFormed(rs + [rx], next + 2)
  {
    var s := rs + [rx];
    forall i, j | 0 <= i < j < |s| ensures s[i].id != s[j].id {
      if j == |rs| {
        assert s[i] == rs[i];
      }
    }
  }

  /** Removing the reaction at `i`. Reactions with distinct `_id`s are also
      distinct values. */
  lemma ReactionsRemove(rs: seq<Reaction>, next: Id, i: nat)
    requires ReactionsWellFormed(rs, next) && i < |rs|
    ensures forall j :: 0 <= j < |rs| && j != i ==> rs[j] != rs[i]
    ensures ReactionsWellFormed(rs[..i] + rs[i + 1..], next)
  {
    var s := rs[..i] + rs[i + 1..];
    forall a | 0 <= a < |s| ensures s[a] == rs[if a < i then a else a + 1] {
    }
    forall a, b | 0 <= a < b < |s| ensures s[a].id != s[b].id {
      var a', b' := if a < i then a else a + 1, if b < i then b else b + 1;
      assert s[a] == rs[a'] && s[b] == rs[b'] && a' < b';
    }
  }

  // ---------------------------------------------------------------------------
  // The links between the collections

  /** A new user lists nothing, and no stored thought names its fresh id. */
  lemma LinksInsertUser(users: map<Id, User>, thoughts: map<Id, Thought>, next: Id, u: User)
    requires ThoughtsWellFormed(thoughts, next) && ThoughtsOwned(users, thoughts) && ThoughtsListed(users, thoughts)
    requires u.id == next && u.thoughts == []
    ensures ThoughtsOwned(users[u.id := u], thoughts) && ThoughtsListed(users[u.id := u], thoughts)
  {
  }

  /** Changing a user but not its `thoughts`. */
  lemma LinksReplaceUser(users: map<Id, User>, thoughts: map<Id, Thought>, u: User)
    requires ThoughtsOwned(users, thoughts) && ThoughtsListed(users, thoughts)
    requires u.id in users && u.thoughts == users[u.id].thoughts
    ensures ThoughtsOwned(users[u.id := u], thoughts) && ThoughtsListed(users[u.id := u], thoughts)
  {
  }

  lemma LinksRemoveUser(users: map<Id, User>, thoughts: map<Id, Thought>, id: Id)
    requires ThoughtsOwned(users, thoughts) && ThoughtsListed(users, thoughts)
    ensures ThoughtsOwned(users - {id}, thoughts) && ThoughtsListed(users - {id}, thoughts)
  {
  }

  /** A new thought under the next id, pushed onto its author's list. */
  lemma LinksInsertThought(users: map<Id, User>, thoughts: map<Id, Thought>, next: Id, t: Thought)
    requires ThoughtsWellFormed(thoughts, next) && ThoughtsOwned(users, thoughts) && ThoughtsListed(users, thoughts)
    requires t.id == next && t.author in users
    ensures ThoughtsOwned(PushThought(users, t.author, next), thoughts[next := t])
    ensures ThoughtsListed(PushThought(users, t.author, next), thoughts[next := t])
  {
    var users', thoughts' := PushThought(users, t.author, next), thoughts[next := t];
    forall u, x | u in users' && x in users'[u].thoughts ensures x in thoughts' && thoughts'[x].author == u {
      if u != t.author || x != next {
        assert x in users[u].thoughts;
        assert x in thoughts;
      }
    }
  }

  /** The author's list stays duplicate-free when a fresh thought id is pushed. */
  lemma PushFreshThought(users: map<Id, User>, thoughts: map<Id, Thought>, next: Id, a: Id)
    requires UsersWellFormed(users, next) && ThoughtsWellFormed(thoughts, next) && ThoughtsOwned(users, thoughts)
    requires a in users
    ensures Distinct(users[a].thoughts + [next])
  {
    var s := users[a].thoughts;
    forall x | x in s ensures x != next {
      assert x in thoughts;
    }
    AddToSetOnce(s, next);
    assert AddToSet(s, next) == s + [next];
  }

  /** Changing a thought but not its author. */
  lemma LinksReplaceThought(users: map<Id, User>, thoughts: map<Id, Thought>, t: Thought)
    requires ThoughtsOwned(users, thoughts) && ThoughtsListed(users, thoughts)
    requires t.id in thoughts && t.author == thoughts[t.id].author
    ensures ThoughtsOwned(users, thoughts[t.id := t]) && ThoughtsListed(users, thoughts[t.id := t])
  {
  }

  /** Removing a thought after pulling it from its existing author's list. */
  lemma LinksRemoveOwnedThought(users: map<Id, User>, thoughts: map<Id, Thought>, id: Id)
    requires ThoughtsOwned(users, thoughts) && ThoughtsListed(users, thoughts)
    requires id in thoughts && thoughts[id].author in users
    ensures ThoughtsOwned(PullThought(users, thoughts[id].author, id), thoughts - {id})
    ensures ThoughtsListed(PullThought(users, thoughts[id].author, id), thoughts - {id})
  {
    RemoveOwnedThoughtOwned(users, thoughts, id);
    RemoveOwnedThoughtListed(users, thoughts, id);
  }

  lemma RemoveOwnedThoughtOwned(users: map<Id, User>, thoughts: map<Id, Thought>, id: Id)
    requires ThoughtsOwned(users, thoughts)
    requires id in thoughts && thoughts[id].author in users
    ensures ThoughtsOwned(PullThought(users, thoughts[id].author, id), thoughts - {id})
  {
    var a := thoughts[id].author;
    var users', thoughts' := PullThought(users, a, id), thoughts - {id};
    forall v, x | v in users' && x in users'[v].thoughts ensures x in thoughts' && thoughts'[x].author == v {
      if v == a {
        PullMembers(users[a].thoughts, id, x);
        assert x != id && x in users[a].thoughts;
      } else {
        assert users'[v] == users[v];
      }
    }
  }

  lemma RemoveOwnedThoughtListed(users: map<Id, User>, thoughts: map<Id, Thought>, id: Id)
    requires ThoughtsListed(users, thoughts)
    requires id in thoughts && thoughts[id].author in users
    ensures ThoughtsListed(PullThought(users, thoughts[id].author, id), thoughts - {id})
  {
    var users', thoughts' := PullThought(users, thoughts[id].author, id), thoughts - {id};
    forall x | x in thoughts' && thoughts'[x].author in users' ensures x in users'[thoughts'[x].author].thoughts {
      PullMembers(users[thoughts[x].author].thoughts, id, x);
    }
  }

  /** Removing a thought whose author no longer exists: nobody lists it. */
  lemma LinksRemoveOrphanThought(users: map<Id, User>, thoughts: map<Id, Thought>, id: Id)
    requires ThoughtsOwned(users, thoughts) && ThoughtsListed(users, thoughts)
    requires id in thoughts && thoughts[id].author !in users
    ensures ThoughtsOwned(users, thoughts - {id}) && ThoughtsListed(users, thoughts - {id})
  {
    forall v, x | v in users && x in users[v].thoughts ensures x != id {
      assert thoughts[x].author == v;
    }
  }

  // ---------------------------------------------------------------------------

  /** The users and thoughts collections and the source of fresh ObjectIds.
      Each method is one write the controllers make. */
  class Db {
    var users: map<Id, User>
    var thoughts: map<Id, Thought>
    var nextId: Id

    ghost predicate Valid()
      reads this
    {
      Consistent(users, thoughts, nextId)
    }

    /** An empty database. */
    constructor ()
      ensures Valid()
      ensures users == map[] && thoughts == map[] && nextId == 0
    {
      users, thoughts, nextId := map[], map[], 0;
    }

    /** Inserts a new user with empty arrays under the next id. */
    method InsertUser(u: User)
      requires Valid()
      requires u.id == nextId && u.thoughts == [] && u.friends == []
      requires IsTrimmed(u.username) && IsTrimmed(u.email)
      requires !UsernameInUse(users, u.username, u.id) && !EmailInUse(users, u.email, u.id)
      modifies this
      ensures Valid()
      ensures users == old(users)[u.id := u] && thoughts == old(thoughts) && nextId == old(nextId) + 1
    {
      UsersPut(users, nextId, nextId + 1, u);
      ThoughtsGrow(thoughts, nextId, nextId + 1);
      LinksInsertUser(users, thoughts, nextId, u);
      users, nextId := users[u.id := u], nextId + 1;
    }

    /** Replaces a stored user by one with the same `thoughts`. */
    method ReplaceUser(u: User)
      requires Valid()
      requires u.id in users && u.thoughts == users[u.id].thoughts && Distinct(u.friends)
      requires IsTrimmed(u.username) && IsTrimmed(u.email)
      requires !UsernameInUse(users, u.username, u.id) && !EmailInUse(users, u.email, u.id)
      modifies this
      ensures Valid()
      ensures users == old(users)[u.id := u] && thoughts == old(thoughts) && nextId == old(nextId)
    {
      UsersPut(users, nextId, nextId, u);
      LinksReplaceUser(users, thoughts, u);
      users := users[u.id := u];
    }

    /** Removes one user document, and nothing else. */
    method RemoveUser(id: Id)
      requires Valid()
      modifies this
      ensures Valid()
      ensures users == old(users) - {id} && thoughts == old(thoughts) && nextId == old(nextId)
    {
      UsersRemove(users, nextId, id);
      LinksRemoveUser(users, thoughts, id);
      users := users - {id};
    }

    /** Inserts a new thought with no reactions under the next id and pushes
        that id onto the author's `thoughts`. */
    method InsertThought(t: Thought)
      requires Valid()
      requires t.id == nextId && t.author in users && t.reactions == []
      modifies this
      ensures Valid()
      ensures thoughts == old(thoughts)[t.id := t] && users == PushThought(old(users), t.author, t.id)
      ensures nextId == old(nextId) + 1
    {
      var a := users[t.author];
      var users' := PushThought(users, t.author, t.id);
      assert users' == users[t.author := a.(thoughts := a.thoughts + [t.id])];
      PushFreshThought(users, thoughts, nextId, t.author);
      UsersPut(users, nextId, nextId + 1, a.(thoughts := a.thoughts + [t.id]));
      ThoughtsPut(thoughts, nextId, nextId + 1, t);
      LinksInsertThought(users, thoughts, nextId, t);
      users, thoughts, nextId := users', thoughts[t.id := t], nextId + 1;
    }

    /** Replaces a stored thought by one with the same author, whose
        reactions use ids handed out before `next'`. */
    method ReplaceThought(t: Thought, next': Id)
      requires Valid()
      requires t.id in thoughts && t.author == thoughts[t.id].author
      requires nextId <= next' && ReactionsWellFormed(t.reactions, next')
      modifies this
      ensures Valid()
      ensures thoughts == old(thoughts)[t.id := t] && users == old(users) && nextId == next'
    {
      assert UsersWellFormed(users, next');
      ThoughtsPut(thoughts, nextId, next', t);
      LinksReplaceThought(users, thoughts, t);
      thoughts, nextId := thoughts[t.id := t], next';
    }

    /** Pulls a thought's id from its author's `thoughts` when the author
        exists, then removes the thought. */
    method RemoveThought(id: Id)
      requires Valid() && id in thoughts
      modifies this
      ensures Valid()
      ensures thoughts == old(thoughts) - {id} && nextId == old(nextId)
      ensures var a := old(thoughts[id].author);
        users == if a in old(users) then PullThought(old(users), a, id) else old(users)
    {
      var a := thoughts[id].author;
      ThoughtsRemove(thoughts, nextId, id);
      if a in users {
        var u := users[a];
        var users' := PullThought(users, a, id);
        assert users' == users[a := u.(thoughts := Pull(u.thoughts, id))];
        UsersPut(users, nextId, nextId, u.(thoughts := Pull(u.thoughts, id)));
        LinksRemoveOwnedThought(users, thoughts, id);
        users := users';
      } else {
        LinksRemoveOrphanThought(users, thoughts, id);
      }
      thoughts := thoughts - {id};
    }
  }
}
