# Social-network API: the document-store logic

This project models the core of a small Express/Mongoose social-network API. It has two collections:

- **users**: a username, an email, the ids of the user's thoughts and the ids of the user's friends;
- **thoughts**: a text, an author, and embedded reactions.

The model covers the schema rules of `models/User.js` and `models/Thought.js`, the helpers in `utils/index.js`, and every handler in the two controllers.

Layout:

- `results.dfy` (`Results`): the outcome of a handler. It is either `Ok(value)`, or `Err` with one of:
  - `BadRequest(message)`: a 400 the controller sets itself;
  - `NotFound(resource)`: a 404 the controller sets itself;
  - `ValidationFailed`: a schema validator refused the document;
  - `DuplicateKey`: a unique index refused the write.

  `Given` is the JavaScript truthiness test `!field` applied to a body field.
- `documents.dfy` (`Documents`): what the store does to values.
  - Ids come from a counter.
  - The update operators `$push`, `$pull` and `$addToSet`.
  - The `trim: true` setter, using the ECMAScript whitespace set.
  - The natural order of a collection, used by a filter that matches every document.
- `validators.dfy` (`Validators`): `isValidLength`, `isEmail`, `validLengthMessage` and `formatDate`.
  - `isValidLength` counts UTF-16 code units, as JavaScript's `length` does.
  - The `isEmail` pattern is decided by a function and proved equal to a description of its parts.
- `user_model.dfy` and `thought_model.dfy`: the two schemas.
  - `User.create` trims, then validates.
  - `Thought.create` validates the text length.
  - A reaction is cast on the update path: it is trimmed and gets its two ids, but is not validated. For `reactionId` the model assumes the schema default yields a fresh id; see Left out.
  - The `friendCount` and `reactionCount` virtuals.
- `store.dfy` (`Store`): the class `Db`, which holds the two collections and the id counter. Its invariant `Valid()` has four parts:
  1. Users are stored under their own ids, with trimmed fields, unique usernames and emails, and no id twice in `thoughts` or `friends`.
  2. Thoughts are stored under their own ids, with distinct reaction `_id`s and trimmed reaction bodies. Every id was handed out before the counter.
  3. A user lists only thoughts that exist and that the user wrote.
  4. A thought whose author exists is listed by that author.

  Every write the controllers make is a `Db` method that keeps this invariant. Component lemmas carry each part of the proof.
- `user_controller.dfy` and `thought_controller.dfy`: one method per handler. Each takes the `Db` and the request fields, and returns a `Result`.
  - Every error case is stated, in the order the handler checks it.
  - A failed request leaves the store `unchanged`.
  - A successful one states the whole new state.

  `createUser` and `createThought` also have a pure outcome function, and the method returns exactly that function's value. Where the code does not do what its authors evidently meant, an "as written" function or a counterexample lemma sits beside the method; see Findings.
- `scenarios.dfy`: sequences of requests a client can send, and what they come to.

The model follows the code where it departs from what a reader might expect:

- Only `User.create` and `Thought.create` run validators. Updates go through `findOneAndUpdate`, which runs setters but not validators:
  - `updateThought` stores text of any length;
  - `addReaction` stores a body of any length, even one that trims to nothing;
  - `updateUserInfo` stores any email.
- Usernames are unique. `unique: true` is an index, so it is enforced on updates too.
- `deleteUser` removes only the user document. It does not cascade.
- There is no partial-failure error kind.
- Friendship runs one way. `removeFriend` never checks that the friend exists.
- `addReaction` never checks that the reaction's author exists.

## Model

| member | source | states |
|---|---|---|
| Results.Status | controllers/user-controller.js:21-36 | 400 exactly for `BadRequest` and 404 exactly for `NotFound`, which the handlers set before throwing; 500 exactly for the two store errors. |
| Results.Given | controllers/user-controller.js:34 | A body field passes `!field` exactly when it is present and not the empty string. |
| Results.NotFoundMessage | controllers/user-controller.js:4 | The `notFound` message is "No ", the resource name, then a fixed 23-character tail. |
| Results.ThrownMessage | controllers/user-controller.js:21-36 | The `message` of the thrown `Error`: a 400's own text, or the `notFound` message for a 404's resource. It is absent exactly for the two store errors. |
| Results.NotFoundMessageInjective | controllers/thought-controller.js:4-5 | Two 404 errors carry the same message only when they name the same resource. |
| Documents.Pull | controllers/user-controller.js:138-142 | `$pull` leaves no copy of the value. It keeps every other element and adds nothing. It keeps an array duplicate-free. |
| Documents.PullAbsent | controllers/user-controller.js:133-142 | Pulling a value that is not in the array leaves the array as it was. |
| Documents.PullOnce | controllers/thought-controller.js:183-187 | Pulling a value that occurs only at position i removes exactly that element; the rest stay in order. |
| Documents.AddToSetIdempotent | controllers/user-controller.js:107-111 | `$addToSet` twice equals once, and the value is then present. |
| Documents.AddToSetOnce | controllers/user-controller.js:107-111 | On a duplicate-free array, `$addToSet` keeps it duplicate-free, and the value occurs exactly once. |
| Documents.Trim | models/User.js:10 | The `trim` setter's result is a slice of the input with only whitespace cut from either end, and it has no whitespace at either end. It is empty exactly when the input is all whitespace. It leaves a trimmed string alone. |
| Documents.Push | controllers/thought-controller.js:146-150 | `$push` appends the value at the end and keeps every earlier element in place. |
| Documents.AddToSet | controllers/user-controller.js:107-111 | `$addToSet` makes the value present and keeps the array as a prefix. It adds one copy exactly when the value was absent, and nothing otherwise. |
| Documents.PullMembers | controllers/user-controller.js:138-142 | After `$pull`, a value is in the array exactly when it was before and is not the pulled value. |
| Documents.PullDistinct | controllers/user-controller.js:138-142 | In a duplicate-free array, pulling the element at i removes exactly that position and shortens the array by one. |
| Documents.LeadingBlanks | models/User.js:10 | Counts the whitespace a string starts with: every counted character is whitespace, and the next one is not. |
| Documents.TrailingBlanks | models/User.js:10 | Counts the whitespace a string ends with: every counted character is whitespace, and the one before them is not. |
| Documents.TrimIdempotent | models/User.js:17 | Trimming twice equals trimming once, so a setter run on an update changes a stored value no further. |
| Documents.FirstKey | controllers/user-controller.js:61-65 | The document that a match-everything filter selects is in the collection and has the least id. |
| Validators.Utf16Length | utils/index.js:6 | JavaScript's `length` lies between the number of characters and twice that. |
| Validators.Utf16LengthInBmp | utils/index.js:6 | For text in the Basic Multilingual Plane, `length` is the number of characters. |
| Validators.ValidLengthBounds | utils/index.js:6 | A valid string has 1 to 279 characters. For text in the Basic Multilingual Plane it is valid exactly then. The empty string is invalid. |
| Validators.IsValidLength | utils/index.js:6 | `isValidLength`: the JavaScript `length` is above 0 and below 280. |
| Validators.IsEmail | utils/index.js:4 | `isEmail`: the empty string, or an address of the pattern's shape. |
| Validators.JoinLabels | utils/index.js:4 | The `([\w-]+\.)+` part of the pattern: each label followed by a dot. It is empty exactly when there are no labels. |
| Validators.FormatDate | utils/index.js:12 | `formatDate` returns its 30-character placeholder whatever the date. |
| Validators.AddressMatchesPattern | utils/index.js:4 | The address decision accepts a string exactly when it is a local part of `[A-Za-z0-9_.-]+`, an `@`, one or more `[A-Za-z0-9_-]+` labels each followed by a dot, and a final label of 2 to 4 such characters. |
| Validators.AddressHasOneAt | utils/index.js:4 | Every address has exactly one `@`. |
| Validators.IsEmailAcceptsEmpty | utils/index.js:4 | `isEmail("")` holds, though the empty string is no address. |
| Validators.IsEmailIsAddressOrEmpty | utils/index.js:4 | `isEmail` accepts the empty string and exactly the strings of the pattern's shape. |
| Validators.SingleLabelAddress | utils/index.js:4 | `local@host.tld` with allowed characters and a 2 to 4 character `tld` is accepted. |
| Validators.ValidLengthMessage | utils/index.js:8-9 | The message starts with the field name and is 37 characters longer. |
| Validators.FormatDateIsConstant | utils/index.js:12 | `formatDate` gives the same string for any two dates. |
| UserModel.ValidUsername | models/User.js:6-11 | `username`: `required` (not empty) and trimmed. |
| UserModel.ValidEmail | models/User.js:13-19 | `email`: `required`, trimmed and accepted by `isEmail`. |
| UserModel.ValidUser | models/User.js:6-19 | A user document meets the schema's rules for both string paths. |
| UserModel.NewUser | models/User.js:6-34 | `User.create` succeeds exactly when the username is not all whitespace and the trimmed email is an address. On success the user has the given id, trimmed fields, empty `thoughts` and `friends`, and meets the schema. Otherwise it fails with a validation error. |
| UserModel.ValidEmailIsAddress | models/User.js:13-18 | A stored email meets the pattern and holds exactly one `@`. |
| UserModel.FriendCount | models/User.js:45-47 | The `friendCount` virtual is the length of `friends`, and 0 when the array is absent. |
| ThoughtModel.ValidReaction | models/Thought.js:11-18 | `reactionBody`: `required`, trimmed and `isValidLength`. |
| ThoughtModel.ValidThoughtText | models/Thought.js:55-61 | `thoughtText`: `required` and `isValidLength`, with no trimming. |
| ThoughtModel.ValidThought | models/Thought.js:53-70 | A thought document meets the text rule, and every embedded reaction meets the reaction rule. |
| ThoughtModel.NewThought | models/Thought.js:53-70 | `Thought.create` succeeds exactly when the text's `length` is between 1 and 279. The text is kept untrimmed, `reactions` is empty, and the thought meets the schema. Otherwise it fails with a validation error. |
| ThoughtModel.CastReaction | models/Thought.js:4-25 | A reaction pushed by an update keeps its two given ids and author, and its body is trimmed. |
| ThoughtModel.CastReactionValid | models/Thought.js:11-18 | A cast reaction meets the schema exactly when its trimmed body has a valid length. A body of blanks never does. |
| ThoughtModel.ReactionCount | models/Thought.js:97-99 | The intended `reactionCount`: the length of `reactions`, and 0 when the array is absent. |
| ThoughtModel.ReactionCountAsWritten | models/Thought.js:97-99 | The getter as written has no `return`, so it yields undefined for every thought. |
| ThoughtModel.ReactionCountAsWrittenIsUndefined | models/Thought.js:97-99 | For a thought with one reaction, the getter as written yields undefined. The intended count is 1. |
| ThoughtModel.ReactionCountPush | models/Thought.js:97-99 | Appending a reaction raises `reactionCount` by one. |
| ThoughtModel.ReactionCountRemove | models/Thought.js:97-99 | Removing a reaction lowers `reactionCount` by one. |
| Store.Consistent | models/User.js:6-34 | The store invariant: users well formed (own ids, trimmed fields, unique username and email, duplicate-free `thoughts` and `friends`), thoughts well formed (own ids, distinct trimmed reactions), every id handed out, every listed thought written by its lister, and every thought with a live author listed by that author. |
| Store.UsernameInUse | models/User.js:8 | The unique index on `username`: some user other than the one written already has this username. |
| Store.EmailInUse | models/User.js:15 | The unique index on `email`: some user other than the one written already has this email. |
| Store.Db.Valid | models/Thought.js:53-70 | The database's two collections and its counter meet `Consistent`. |
| Store.PushThought | controllers/thought-controller.js:58-62 | `$push` of a thought id onto one user's `thoughts`: that list gets the id at its end, and every other user is unchanged. |
| Store.PullThought | controllers/thought-controller.js:114-120 | `$pull` of a thought id from one user's `thoughts`: that list loses the id, and every other user is unchanged. |
| Store.UsersPut | models/User.js:6-18 | Storing a user keeps the users collection well formed: trimmed fields, unique username and email, duplicate-free arrays, ids before the counter. This holds when the user's fields are trimmed and nobody else holds its username or email. |
| Store.UsersRemove | controllers/user-controller.js:80 | Removing a user keeps the users collection well formed. |
| Store.ThoughtsGrow | models/Thought.js:6-9 | Handing out more ids keeps the thoughts collection well formed. |
| Store.ThoughtsPut | models/Thought.js:53-70 | Storing a thought whose ids were handed out keeps the thoughts collection well formed. |
| Store.ThoughtsRemove | controllers/thought-controller.js:122 | Removing a thought keeps the thoughts collection well formed. |
| Store.ReactionsPush | controllers/thought-controller.js:146-150 | Appending a trimmed reaction whose `_id` and `reactionId` are the next two ids keeps reaction ids distinct and handed out. |
| Store.ReactionsRemove | controllers/thought-controller.js:183-187 | The reaction at i differs from every other reaction. Removing it keeps the rest well formed. |
| Store.LinksInsertUser | controllers/user-controller.js:39 | A new user with no thoughts keeps every thought's link to its author. |
| Store.LinksReplaceUser | controllers/user-controller.js:107-111 | Changing a user but not its `thoughts` keeps the links. |
| Store.LinksRemoveUser | controllers/user-controller.js:80 | Removing a user keeps the links; its thoughts stay as orphans. |
| Store.LinksInsertThought | controllers/thought-controller.js:56-62 | Storing a new thought and pushing its id onto its author's `thoughts` keeps the links. |
| Store.PushFreshThought | controllers/thought-controller.js:58-62 | The author's `thoughts` stays duplicate-free when the new id is pushed. |
| Store.LinksReplaceThought | controllers/thought-controller.js:84-88 | Changing a thought but not its author keeps the links. |
| Store.LinksRemoveOwnedThought | controllers/thought-controller.js:114-122 | Pulling a thought from its existing author's list, then deleting it, keeps the links. |
| Store.LinksRemoveOrphanThought | controllers/thought-controller.js:104-122 | Deleting a thought whose author is gone keeps the links, because nobody lists it. |
| Store.Db.InsertUser | controllers/user-controller.js:39 | `User.create` stores the user under the next id and advances the counter. The thoughts are unchanged and the invariant holds. |
| Store.Db.ReplaceUser | controllers/user-controller.js:61-65 | An update of one user document replaces exactly that entry and keeps the invariant. |
| Store.Db.RemoveUser | controllers/user-controller.js:80 | `user.remove()` deletes exactly that entry and keeps the invariant. |
| Store.Db.InsertThought | controllers/thought-controller.js:56-62 | `Thought.create` followed by `$push` stores the thought under the next id and appends that id to the author's `thoughts`. The invariant holds. |
| Store.Db.ReplaceThought | controllers/thought-controller.js:84-88 | An update of one thought document replaces exactly that entry and keeps the invariant. |
| Store.Db.RemoveThought | controllers/thought-controller.js:114-122 | Pulls the id from the author's `thoughts` when the author exists, then deletes the thought. The invariant holds. |
| UserController.GetAllUsers | controllers/user-controller.js:8-11 | Returns exactly the stored users. |
| UserController.GetUserById | controllers/user-controller.js:15-27 | Returns the user with that id, or `NotFound("user")`. |
| UserController.CreateUserOutcome | controllers/user-controller.js:31-42 | A missing or empty field gives 400 "Username and email are both required". With both fields present: a validation error exactly when a field trims to nothing or the email is no address, and `DuplicateKey` exactly when the trimmed username or email is taken. On success the user is trimmed, valid, has empty arrays and holds nobody else's username or email. |
| UserController.CreateUserOutcomeOk | controllers/user-controller.js:39 | A trimmed, non-empty username with a trimmed address that nobody holds yet gives exactly that user, with empty arrays. |
| UserController.CreateUserStatus | controllers/user-controller.js:31-42 | A refused registration ends with 400 exactly when a field is missing or empty, never with 404; any other refusal ends with 500. |
| UserController.CreateUser | controllers/user-controller.js:31-42 | Answers `CreateUserOutcome`. On failure the store is unchanged. On success exactly one user is added, under a fresh id. |
| UserController.Patched | controllers/user-controller.js:61-65 | The update document `{ username, email }`: a field present in the body is set to its trimmed value, an absent one is left alone, and `_id`, `thoughts` and `friends` stay. |
| UserController.UpdateUserInfo | controllers/user-controller.js:46-68 | 400 when neither field is given, then 404 for an unknown id, then `DuplicateKey` exactly when the trimmed new value is someone else's. Any failure changes nothing. On success only the fields present in the body change, each to its trimmed value, and `thoughts` and `friends` stay. |
| UserController.UpdateUserAsWritten | controllers/user-controller.js:61-65 | The update as written patches the first user in natural order. It fails with `DuplicateKey` exactly when the patched first user's username or email belongs to another user; otherwise every other user stays the same. |
| UserController.UpdateUserAsWrittenMissesTarget | controllers/user-controller.js:61-65 | With users 0 and 1, renaming user 1 to an unused name as written renames user 0 and leaves user 1 as it was. |
| UserController.UpdateUserAsWrittenRefusesOwnName | controllers/user-controller.js:61-65 | With users 0 and 1, user 1 sending its own username again is refused as written with `DuplicateKey`, since user 0 would take that name. |
| UserController.DeleteUser | controllers/user-controller.js:72-83 | 404 for an unknown id, with no change. Otherwise it returns the deleted user and removes only that document; thoughts and other users' `friends` stay. |
| UserController.AddFriend | controllers/user-controller.js:87-121 | In order: 404 "friend", 404 "user", 400 "That friend is already in this user's friends list". It succeeds exactly when none applies, and a failure changes nothing. On success `friendId` is appended once to the user's `friends`, `friendCount` rises by one, the friend is untouched, and the response carries the friend's id and username. |
| UserController.RemoveFriend | controllers/user-controller.js:125-149 | 404 "user", then 400 "That friend was not found in this user's friends list". It succeeds exactly when neither applies, and a failure changes nothing. On success the one occurrence of `friendId` is removed from that user's `friends` with the rest in order, and `friendCount` falls by one. |
| ThoughtController.GetAllThoughts | controllers/thought-controller.js:9-15 | Returns exactly the stored thoughts. |
| ThoughtController.GetThoughtById | controllers/thought-controller.js:19-37 | Returns the thought with that id, or `NotFound("thought")`. |
| ThoughtController.CreateThoughtOutcome | controllers/thought-controller.js:41-56 | 400 when the text is missing or empty or the author is missing, then 404 "user" for an unknown author. Then a validation error exactly when the text is 280 or more code units long. On success the thought has the next id, the given text and author, and no reactions. |
| ThoughtController.CreateThought | controllers/thought-controller.js:41-65 | Answers `CreateThoughtOutcome`. On failure the store is unchanged. On success the thought is stored under a fresh id, which is appended to the end of its author's `thoughts`, where it occurs exactly once. |
| ThoughtController.UpdateThought | controllers/thought-controller.js:69-100 | 400 without text, then 404 for an unknown id, and success otherwise. A failure changes nothing. On success only `thoughtText` changes; `author` and `reactions` stay. |
| ThoughtController.DeleteThought | controllers/thought-controller.js:104-127 | 404 for an unknown id, with no change. Otherwise the thought is gone, its id is pulled from its author's `thoughts` when the author exists, and no user lists it. |
| ThoughtController.DeleteThoughtAsWritten | controllers/thought-controller.js:112-120 | The deletion as written pulls the id from the first user in natural order, not from the author. |
| ThoughtController.DeleteThoughtAsWrittenLeavesDangling | controllers/thought-controller.js:112-120 | When the author is not the first user, the deletion as written leaves the author listing a thought that no longer exists. |
| ThoughtController.AddReaction | controllers/thought-controller.js:131-162 | 400 without body or author, then 404 for an unknown thought, and success otherwise. A failure changes nothing. On success exactly one reaction is appended, cast from the body, with earlier reactions untouched and `reactionCount` up by one. Its `_id` differs from the `_id` of every reaction already in the store, and its `reactionId` from every stored `reactionId`. |
| ThoughtController.FirstReactionWithId | controllers/thought-controller.js:174-176 | The index of the first reaction with that `_id`, or none when no reaction has it. |
| ThoughtController.RemoveReaction | controllers/thought-controller.js:166-199 | 404 "thought", then 404 "reaction" exactly when no reaction has that `_id`. A failure changes nothing. On success the matching reaction is removed, the others stay in order, `reactionCount` falls by one, and no reaction with that `_id` remains. |
| Scenarios.ThoughtTextBoundary | models/Thought.js:55-61 | A text of 279 characters is accepted; 280 characters and the empty text are refused. |
| Scenarios.CreateThenGetThought | controllers/thought-controller.js:41-65 | A created thought can be read back, and its author lists it exactly once. Creation succeeds exactly when the text is non-empty and under 280 code units and the author exists. |
| Scenarios.DeleteThenGetThought | controllers/thought-controller.js:104-127 | After a deletion, reading the thought gives 404 and no user lists it. |
| Scenarios.AddFriendTwice | controllers/user-controller.js:102-105 | Adding the same friend twice: the second request gives 400, and the friend is listed once. |
| Scenarios.RemoveMissingReaction | controllers/thought-controller.js:174-181 | Removing a reaction that is not there gives 404 "reaction", and the count stays. |
| Scenarios.ExampleAddress | utils/index.js:4 | "a@example.com" is an address. |
| Scenarios.AliceCanRegister | controllers/user-controller.js:31-42 | In an empty store, "alice" with "a@example.com" is created exactly as given, with empty arrays. |
| Scenarios.CreateThenGetUser | controllers/user-controller.js:31-42 | A created user reads back with `friendCount` 0 and no thoughts. |
| Scenarios.ThoughtWithReaction | controllers/thought-controller.js:131-162 | A new thought with one reaction then has one reaction and a `reactionCount` of 1. |
| Scenarios.DeleteAuthorThenGetThought | controllers/user-controller.js:72-83 | Deleting its author leaves a thought readable, with the same author and text. |

## Left out

- HTTP routing, the server bootstrap and the database connection are not modelled: they only dispatch and connect. Response bodies are modelled as the returned value. Status codes are `Results.Status`.
- The error-handling middleware and the two error-mapping helpers are not modelled. No controller calls the helpers, and the middleware takes three arguments, so Express does not install it as an error handler. A store error ends the request with status 500.
- `populate` and the `select({ __v: 0 })` projection are not modelled. Responses carry ids, not the documents they reference.
- Ids outside the `Id` type are not modelled. A path or body id that is not a well-formed ObjectId string is handled differently by each handler: `removeReaction` compares it as a string, `removeFriend`'s `includes` never casts it, `updateThought` checks the body first, and `addReaction` casts `author` only at the `$push`. The model claims no behaviour for such ids.
- The `reactionId` default at models/Thought.js:8 calls `new Mongoose.Types.ObjectId()` on the `Mongoose` export of the library. The model assumes this yields a fresh ObjectId, as `ThoughtModel.CastReaction` and `ThoughtController.AddReaction` state. The library is not part of this model; if its `Mongoose` export has no `Types`, every `addReaction` that passes the 400 and 404 checks ends with status 500 instead.
- Ids are modelled as naturals from one counter, shared by users, thoughts and both reaction ids.
- Documents.FirstKey: MongoDB does not guarantee a collection's natural order. The model takes it to be insertion order, and so the least id. `UpdateUserAsWritten`, `DeleteThoughtAsWritten` and their counterexample lemmas rest on this choice.
- Timestamps and the `createdAt`/`updatedAt` getters are not modelled, because they read the clock. `formatDate` is modelled as the constant it is.
- Concurrent requests are not modelled. Neither is a failure between the two writes of `createThought` or `deleteThought`: each handler is one atomic method.
- A body field is either absent (`None`) or a string. A field given as another JSON type is not modelled.
- An update body key that is absent is modelled as leaving the field alone.
- The `friendCount`/`reactionCount` case of an absent array cannot arise from the handlers, so it is stated only for the virtuals.
- UserController.GetAllUsers: returns the set of users, not the list sorted by username.
- ThoughtController.GetAllThoughts: returns the set of thoughts. The query's stored order is not modelled.
- Validators.ValidLengthMessage: states the prefix and the length of the message, not its exact suffix.
- Validators.Utf16Length: counts code units per character. Unpaired surrogates cannot occur in Dafny strings, so they are not modelled.

## Findings

| source | as written | input that shows it | evidently intended | confidence | as-written member | corrected member |
|---|---|---|---|---|---|---|
| utils/index.js:4 | The whole pattern is an optional group between `^` and `$`, so `isEmail("")` is true. | `""` | The empty string is not an email. In `User.js` the `required` rule hides this. | not executed | Validators.IsEmailAcceptsEmpty | Validators.AddressMatchesPattern |
| models/Thought.js:98 | The getter evaluates the conditional but has no `return`, so `reactionCount` is undefined. | a thought with one reaction | `reactionCount` is the number of reactions. | not executed | ThoughtModel.ReactionCountAsWrittenIsUndefined | ThoughtModel.ReactionCountPush |
| controllers/user-controller.js:62 | The filter `{ id: user.id }` names a path the schema disables (`id: false`), so it matches every user. The first user in natural order is updated when the new values are nobody else's; otherwise the unique index refuses the write and the request ends with 500 (`UpdateUserAsWrittenRefusesOwnName`). | users 0 and 1; PUT /api/users/1 with `username: "robert"` | Update the user whose id is in the URL. | not executed | UserController.UpdateUserAsWrittenMissesTarget | UserController.UpdateUserInfo |
| controllers/thought-controller.js:112 | `User.findById` is not awaited, so `user` is a pending query. It is always truthy and its `_id` is undefined. The `$pull` filter `{ _id: undefined }` then matches every user, and the first user in natural order is changed. | users 0 and 1, user 1 wrote thought 2; DELETE /api/thoughts/2 | Pull the id from the author's `thoughts`. | not executed | ThoughtController.DeleteThoughtAsWrittenLeavesDangling | ThoughtController.DeleteThought |
