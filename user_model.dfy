/** The User schema of models/User.js. */
module UserModel {
  import opened Results
  import opened Documents
  import opened Validators

  /** A user document. `thoughts` and `friends` are ordered arrays of ids. */
  datatype User = User(id: Id, username: string, email: string, thoughts: seq<Id>, friends: seq<Id>)

  /** `required` on a string path: present and not empty. */
  predicate Required(s: string)
  {
    s != []
  }

  /** `username`: required and trimmed (uniqueness is a property of the collection). */
  predicate ValidUsername(s: string)
  {
    Required(s) && IsTrimmed(s)
  }

  /** `email`: required, trimmed and accepted by `isEmail`. */
  predicate ValidEmail(s: string)
  {
    Required(s) && IsTrimmed(s) && IsEmail(s)
  }

  predicate ValidUser(u: User)
  {
    ValidUsername(u.username) && ValidEmail(u.email)
  }

  /** `User.create({ username, email })`: the `trim` setters run, the arrays
      take their default `[]`, then the validators decide. */
  function NewUser(id: Id, username: string, email: string): (r: Result<User>)
    ensures r.Ok? <==> !AllWhitespace(username) && !AllWhitespace(email) && IsAddress(Trim(email))
    ensures r.Ok? ==> ValidUser(r.value)
    ensures r.Ok? ==> r.value.id == id && r.value.username == Trim(username) && r.value.email == Trim(email)
    ensures r.Ok? ==> r.value.thoughts == [] && r.value.friends == []
    ensures r.Err? ==> r.error == ValidationFailed
  {
    var name, mail := Trim(username), Trim(email);
    if Required(name) && Required(mail) && IsEmail(mail) then Ok(User(id, name, mail, [], []))
    else Err(ValidationFailed)
  }

  /** Together with `required`, the `isEmail` validator makes a stored email a
      well-formed address with exactly one `@`. */
  lemma ValidEmailIsAddress(s: string)
    requires ValidEmail(s)
    ensures MatchesEmailPattern(s) && multiset(s)['@'] == 1
  {
    AddressMatchesPattern(s);
    AddressHasOneAt(s);
  }

  /** The `friendCount` virtual: the length of `friends`, 0 when the array is absent. */
  function FriendCount(friends: Option<seq<Id>>): (n: nat)
    ensures friends.Some? ==> n == |friends.value|
    ensures friends.None? ==> n == 0
  {
    match friends
    case Some(f) => |f|
    case None => 0
  }
}
