/** The Thought schema and its embedded Reaction schema, models/Thought.js. */
module ThoughtModel {
  import opened Results
  import opened Documents
  import opened Validators

  /** An embedded reaction. `id` is the subdocument's own `_id`; `reactionId`
      is the separate path whose default is a new ObjectId. */
  datatype Reaction = Reaction(id: Id, reactionId: Id, reactionBody: string, author: Id)

  /** A thought document; its reactions are embedded, in order. */
  datatype Thought = Thought(id: Id, thoughtText: string, author: Id, reactions: seq<Reaction>)

  /** `reactionBody`: required, trimmed, then `isValidLength`. */
  predicate ValidReaction(r: Reaction)
  {
    r.reactionBody != [] && IsTrimmed(r.reactionBody) && IsValidLength(r.reactionBody)
  }

  /** `thoughtText`: required and `isValidLength`, not trimmed. */
  predicate ValidThoughtText(s: string)
  {
    s != [] && IsValidLength(s)
  }

  predicate ValidThought(t: Thought)
  {
    ValidThoughtText(t.thoughtText) && forall r :: r in t.reactions ==> ValidReaction(r)
  }

  /** `Thought.create({ thoughtText, author })`: `reactions` takes its default
      `[]` and the validators decide. */
  function NewThought(id: Id, thoughtText: string, author: Id): (r: Result<Thought>)
    ensures r.Ok? <==> 0 < Utf16Length(thoughtText) < 280
    ensures r.Ok? ==> ValidThought(r.value)
    ensures r.Ok? ==> r.value == Thought(id, thoughtText, author, [])
    ensures r.Err? ==> r.error == ValidationFailed
  {
    if thoughtText != [] && IsValidLength(thoughtText) then Ok(Thought(id, thoughtText, author, []))
    else Err(ValidationFailed)
  }

  /** A reaction as an update casts it: the `trim` setter runs and the two ids
      get their defaults; no validator runs. */
  function CastReaction(id: Id, reactionId: Id, reactionBody: string, author: Id): (r: Reaction)
    ensures IsTrimmed(r.reactionBody)
    ensures r.id == id && r.reactionId == reactionId && r.author == author
  {
    Reaction(id, reactionId, Trim(reactionBody), author)
  }

  /** The cast reaction meets the schema exactly when the trimmed body has a
      valid length: a body of blanks does not. */
  lemma CastReactionValid(id: Id, reactionId: Id, reactionBody: string, author: Id)
    ensures ValidReaction(CastReaction(id, reactionId, reactionBody, author))
        <==> IsValidLength(Trim(reactionBody))
    ensures AllWhitespace(reactionBody) ==> !ValidReaction(CastReaction(id, reactionId, reactionBody, author))
  {
    ValidLengthBounds(Trim(reactionBody));
  }

  /** The `reactionCount` virtual as intended: the number of reactions, 0 when
      the array is absent. */
  function ReactionCount(reactions: Option<seq<Reaction>>): (n: nat)
    ensures reactions.Some? ==> n == |reactions.value|
    ensures reactions.None? ==> n == 0
  {
    match reactions
    case Some(rs) => |rs|
    case None => 0
  }

  /** The getter as written: its body evaluates the conditional and drops it,
      so the virtual is `undefined` (None). */
  function ReactionCountAsWritten(reactions: Option<seq<Reaction>>): (v: Option<nat>)
    ensures v.None?
  {
    None
  }

  /** A thought with one reaction: the intended count is 1, the getter yields undefined. */
  lemma ReactionCountAsWrittenIsUndefined(r: Reaction)
    ensures ReactionCountAsWritten(Some([r])) == None
    ensures ReactionCount(Some([r])) == 1
  {
  }

  /** Appending a reaction raises the count by one. */
  lemma ReactionCountPush(rs: seq<Reaction>, r: Reaction)
    ensures ReactionCount(Some(rs + [r])) == ReactionCount(Some(rs)) + 1
  {
  }

  /** Removing the reaction at `i` lowers the count by one. */
  lemma ReactionCountRemove(rs: seq<Reaction>, i: nat)
    requires i < |rs|
    ensures ReactionCount(Some(rs[..i] + rs[i + 1..])) == ReactionCount(Some(rs)) - 1
  {
  }
}
