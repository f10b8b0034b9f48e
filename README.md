# devconnector backend core in Dafny

This project models the REST back end of devconnector, a small developer social network built on Express and Mongoose. It covers three route files and one schema.

- `routes/api/users.js`:
  - registration, guarded by e-mail uniqueness;
  - the login decision chain, which ends in a signed bearer token;
  - the current-user view.
- `routes/api/profile.js`:
  - building a partial profile from a request body;
  - create-or-update of the caller's profile;
  - the public profile reads;
  - the experience and education lists;
  - deleting the profile together with its user.
- `routes/api/posts.js`:
  - listing, reading, creating and deleting posts;
  - liking and unliking posts;
  - adding and removing comments.
- `models/Profile.js`:
  - the profile document;
  - which paths are required;
  - the `current: false` default.

## How it is modelled

Each MongoDB collection is a class holding a `seq` of documents: `Users.UserTable`, `Profiles.ProfileStore` and `Posts.PostStore`. A route handler is a method that changes that sequence. Each method's `ensures` states both the answer and the whole new collection. `Valid()` is the invariant each route keeps:

- e-mails and user ids are unique;
- each user has at most one profile;
- each sub-document id is unique within its list;
- a user likes a post at most once.

Documents and request bodies are datatypes. A missing body field is `None`, and JavaScript truthiness is `Js.Truthy`.

`Js` gives the JavaScript array and string operations the routes rely on:

- `indexOf`, which returns -1 when the value is absent;
- `splice(start, 1)`, where a negative start counts back from the end;
- `split(",")` and `join`.

The removals in the unlike, remove-comment and remove-experience routes are proved equal to a reference removal, `Lists.RemoveFirst`. The `forEach` loops in the unlike, remove-experience and remove-education routes are `while` loops with invariants.

Foreign libraries are function-typed parameters that the model does not interpret:

- `bcrypt.hash` and `bcrypt.compare`;
- `gravatar.url`;
- `jwt.sign`, with the secret key closed over.

Other outside inputs become plain parameters:

- the salt;
- freshly generated ObjectIds, required to be unused;
- `Date.now()`;
- the `isValid` verdict of each validator.

`models/Post.js` and `models/User.js` are not part of this model. The post and user documents are reconstructed from how the routes use them.

## Model

| member | source | states |
|---|---|---|
| Js.IndexOf | routes/api/posts.js:267-269 | the result is -1 exactly when the value is absent; otherwise it is the first position holding the value |
| Js.Splice1 | routes/api/posts.js:272 | one element goes at the clamped start, and a negative start counts back from the end; earlier elements stay and later ones shift down by one; a start past the end changes nothing |
| Js.SpliceMinusOne | routes/api/profile.js:344 | `splice(-1, 1)` on a non-empty array drops exactly the last element |
| Js.JoinSplit | routes/api/profile.js:96 | joining the pieces of `split(sep)` with `sep` gives back the original string |
| Js.SplitCount | routes/api/profile.js:96 | `split` yields one more piece than there are separators |
| Js.SplitPiecesFree | routes/api/profile.js:96 | no piece of `split(sep)` contains `sep` |
| Js.SplitJoin | routes/api/profile.js:96 | non-empty lists of separator-free pieces survive join-then-split unchanged |
| Lists.RemoveFirstAt | routes/api/posts.js:267-272 | removing the first element with key `x` is a cut at the first index of `x` among the keys; an absent key removes nothing |
| Lists.SpliceIndexOfIsRemoveFirst | routes/api/profile.js:303-308 | when the key is present, `splice(keys.indexOf(x), 1)` is the reference removal |
| Lists.RemoveFirstUnique | routes/api/posts.js:267-272 | with unique keys, the removal keeps keys unique and leaves no element with that key |
| Lists.CutKeepsUnique | routes/api/posts.js:272 | dropping one element keeps keys unique |
| Lists.PrependKeepsUnique | routes/api/posts.js:140 | `unshift` of an element with a new key keeps keys unique |
| Lists.AppendKeepsUnique | routes/api/users.js:52-53 | inserting a document with a new key keeps keys unique |
| Lists.ReplaceKeepsUnique | routes/api/profile.js:110-114 | replacing a document by one with the same key keeps keys unique |
| Users.EmailIndex | routes/api/users.js:72 | `findOne({ email })` finds a user exactly when one has that e-mail, and then that user has it |
| Users.Login | routes/api/users.js:66-107 | "User not found" exactly when no user has the e-mail; otherwise a user with that e-mail decides the outcome, and the login succeeds exactly when the password matches that user's hash |
| Users.LoginDecision | routes/api/users.js:82-104 | with unique e-mails, a match gives exactly `"Bearer " + sign({id, name, avatar}, 3600)` for that user, and anything else gives "Incorrect password" |
| Users.LoginAfterRegister | routes/api/users.js:31-107 | a user registered under a fresh e-mail logs in with the chosen password, given that the comparison accepts a password against its own salted hash |
| Users.Current | routes/api/users.js:115-126 | the current-user view carries id, name, e-mail and avatar, and no password hash |
| Users.UserTable.Register | routes/api/users.js:31-60 | a taken e-mail answers "Email already exits" (the message as written at routes/api/users.js:34) and changes nothing; otherwise exactly one user is added, with the hashed password and the gravatar of the e-mail (size 200, rating pg, fallback mm); e-mails and ids stay unique |
| Users.UserTable.DeleteById | routes/api/profile.js:368 | exactly the user with that id is removed, if any, and uniqueness is kept |
| Users.RemoveFirstUniqueEmails | routes/api/profile.js:368 | deleting a user keeps e-mails unique |
| ProfileModel.NewExperience | models/Profile.js:57-89 | an entry is built exactly when title and company are present and non-empty and from is present; it copies the input, and `current` is true only when the input says true (the default is false) |
| ProfileModel.NewEducation | models/Profile.js:91-120 | an entry is built exactly when school, degree and field of study are present and non-empty and from is present; it copies the input, and `current` defaults to false |
| ProfileModel.Instantiate | models/Profile.js:9-142 | a new profile is saved exactly when the handle is non-empty and skills are given; it has every set path, empty entry lists and the current date |
| Profiles.SplitSkills | routes/api/profile.js:95-97 | the skills list comes from `split(",")`: it joins back to the input, has one piece more than there are commas, and no piece holds a comma |
| Profiles.SkillsExample | routes/api/profile.js:96 | `"html,css,js"` splits into `["html", "css", "js"]` |
| Profiles.Projection | routes/api/profile.js:66-106 | `user` is the caller; each scalar path and social link is set exactly when its body value is truthy; skills are set exactly when the body has them, round-tripping through `join` |
| Profiles.BuildProfileFields | routes/api/profile.js:66-106 | the field-by-field construction gives exactly the projection |
| Profiles.Merge | routes/api/profile.js:110-114 | `$set` replaces each path the fields set and keeps every other stored path; `social` is replaced as a whole; the entry lists and the date are kept |
| Profiles.UpdateDropsUnnamedLinks | routes/api/profile.js:100-114 | an update that does not name a social link leaves it empty, even if the stored profile had it |
| Profiles.CreateAsWritten | routes/api/profile.js:119-127 | a taken handle answers "That handle already exists", yet the new profile is saved whenever the schema accepts it; with a free handle the answer is the saved profile, or the refused save when the schema rejects it |
| Profiles.CreateAsWrittenDuplicatesHandle | routes/api/profile.js:119-127 | a second user asking for a taken handle is refused and still ends up with a second profile under that handle |
| Profiles.CreateChecked | routes/api/profile.js:119-127 | corrected create: a taken handle changes nothing and answers the handle error; a free handle is served exactly as the code as written serves it |
| Profiles.CreateCheckedKeepsHandlesUnique | routes/api/profile.js:119-127 | the corrected create keeps handles unique |
| Profiles.IndexOfParam | routes/api/profile.js:339-341 | `indexOf` over the ids as JavaScript values finds nothing for an undefined parameter (-1), and for a defined id finds what the plain search finds |
| Profiles.IndexOfDefined | routes/api/profile.js:339-341 | searching the ids as values for a defined id gives the same index as searching the ids |
| Profiles.RemoveEducationDropsLast | routes/api/profile.js:339-344 | with the id present, the as-written removal drops the last entry |
| Profiles.RemoveEducationWrongEntry | routes/api/profile.js:339-344 | with two entries, removing the first one's id keeps it and drops the second |
| Profiles.AddThenRemoveEducationAsWritten | routes/api/profile.js:323-354 | an education entry just added (routes/api/profile.js:248-282) and then removed as written stays, and what was the last entry goes |
| Profiles.AddThenRemoveExperience | routes/api/profile.js:287-318 | an experience entry just added (routes/api/profile.js:209-243) and then removed by its id leaves the earlier entries, in order |
| Profiles.EducationWithout | routes/api/profile.js:323-354 | corrected removal: exactly the entry with that id goes, the others keep their order, and an absent id changes nothing |
| Profiles.Populate | routes/api/profile.js:36 | `populate("user", ["name", "avatar"])` attaches that user's name and avatar, or nothing when no such user exists |
| Profiles.ProfileStore.IndexOfUser | routes/api/profile.js:35 | `findOne({ user })` finds that user's profile, or -1 exactly when there is none |
| Profiles.ProfileStore.FindByUser | routes/api/profile.js:29-46 | no profile exactly when the user has none; otherwise that user's stored profile, populated (the same query serves GET /user/:user_id) |
| Profiles.ProfileStore.FindByHandle | routes/api/profile.js:141-157 | no profile exactly when no profile has the handle; otherwise a stored profile with that handle, populated |
| Profiles.ProfileStore.ListAll | routes/api/profile.js:189-204 | "There are no profiles" exactly when the collection is empty; otherwise every profile is populated, in order |
| Profiles.ProfileStore.Upsert | routes/api/profile.js:53-132 | an invalid body changes nothing; an existing profile is merged in place; otherwise the as-written create runs; one profile per user is kept |
| Profiles.ProfileStore.AddExperience | routes/api/profile.js:209-243 | each refusal changes nothing: an invalid input, a missing profile, or a missing required path refusing the save; otherwise the entry goes in front of the caller's experience |
| Profiles.ProfileStore.AddEducation | routes/api/profile.js:248-282 | the same for education entries |
| Profiles.ProfileStore.RemoveExperience | routes/api/profile.js:287-318 | no profile, or "Experience not found", changes nothing; otherwise exactly the entry with that id is removed |
| Profiles.ProfileStore.RemoveEducation | routes/api/profile.js:323-354 | no profile, or "Education not found", changes nothing; otherwise the last entry is removed, whatever its id |
| Profiles.ProfileStore.DeleteOwn | routes/api/profile.js:362-374 | the caller's profile is removed, and then the caller's user record, even when there was no profile |
| Profiles.RemoveProfileKeepsValid | routes/api/profile.js:366 | removing a profile keeps one profile per user and every remaining profile well formed |
| Posts.LikedByMap | routes/api/posts.js:131-134 | the `filter(...).length > 0` check is membership among the like users |
| Posts.LikeKeepsUnique | routes/api/posts.js:131-140 | a like by a user without one keeps likes one per user and adds exactly one |
| Posts.UnlikeRemovesFirst | routes/api/posts.js:175-184 | unlike removes the first like by the caller and keeps the rest in order |
| Posts.UnlikeClearsCaller | routes/api/posts.js:175-184 | with likes one per user, the caller no longer likes the post after an unlike |
| Posts.UnlikeUndoesLike | routes/api/posts.js:140 | a like followed by an unlike from the same user restores the likes |
| Posts.RemovedCommentIsCallers | routes/api/posts.js:254-272 | when the filter passes and comment ids are unique, the comment spliced out is the caller's comment with that id |
| Posts.RemovePostKeepsValid | routes/api/posts.js:109-110 | removing a post keeps post ids unique and every other post valid |
| Posts.InsertByDateCorrect | routes/api/posts.js:36 | inserting by date keeps a list newest first and adds exactly that post |
| Posts.SortNewestFirstCorrect | routes/api/posts.js:36 | `sort({ date: -1 })` gives a newest-first permutation |
| Posts.PostStore.IndexOfPost | routes/api/posts.js:46 | `findById` finds the post with that id, or -1 exactly when there is none |
| Posts.PostStore.List | routes/api/posts.js:34-39 | every post, each as often as stored, newest first |
| Posts.PostStore.Get | routes/api/posts.js:45-49 | the stored post with that id, or an empty answer exactly when there is none |
| Posts.PostStore.Create | routes/api/posts.js:60-89 | an invalid body changes nothing; otherwise exactly one post is added, by the caller, with the body's text, name and avatar and no likes or comments |
| Posts.PostStore.Delete | routes/api/posts.js:93-117 | a missing post, or a caller who is not the author, changes nothing; otherwise exactly that post is removed |
| Posts.PostStore.LikePost | routes/api/posts.js:123-152 | a missing post, or an existing like by the caller, changes nothing; otherwise the caller's like goes in front |
| Posts.PostStore.UnlikePost | routes/api/posts.js:158-197 | a missing post, or no like by the caller, changes nothing; otherwise exactly the caller's like is removed |
| Posts.PostStore.AddComment | routes/api/posts.js:203-241 | an invalid body or a missing post changes nothing; otherwise the caller's comment with a fresh id goes in front |
| Posts.PostStore.RemoveComment | routes/api/posts.js:247-278 | "Can not delete" unless the caller wrote a comment with that id; otherwise the first comment with that id is removed |

## Left out

- HTTP status codes and error-message bodies are reduced to one constructor per distinct answer.
- A handler that answers twice is modelled by its first answer. GET /handle/:handle and GET /user/:user_id send a 404 and then `res.json(null)`. The create branch answers "That handle already exists" and also tries to answer with the saved profile.
- Requests are taken one at a time. Interleaved requests and a partial failure of the cascaded delete are not modelled. The `Profile.findOne` result that the post routes load and never use is not modelled.
- The passport JWT strategy is not part of this model: the caller's id is a parameter.
- The input validators are not part of this model: their verdict is the `inputValid`/`bodyValid` parameter.
- bcrypt, gravatar and jsonwebtoken are uninterpreted function parameters. The salt and freshly generated ObjectIds are parameters too, and ObjectIds are required to be unused.
- The `max: 40` option on `handle` is not modelled. It is not a validator for a Mongoose String path.
- Profiles.HandleInUse: `Profile.findOne({ handle: undefined })` is taken to find nothing. That case is only reachable when the validator lets a body without a handle through.
- ProfileModel.Instantiate: an absent skills list is taken to fail the `required` validator.
- Dates are plain integers and the model does no date arithmetic.
- Database failures, which land in the `.catch` handlers, are not modelled.
- The `if (err) throw err` paths after `bcrypt.hash` (routes/api/users.js:50) and `jwt.sign` (routes/api/users.js:91) are not modelled: the uninterpreted hash and sign functions never fail.

## Findings

| source | as written | input that shows it | evidently intended | confidence | as-written member | corrected member |
|---|---|---|---|---|---|---|
| routes/api/profile.js:339-344 | the remove index is `indexOf(req.params.exp_id)` on a route whose parameter is `:edu_id`; the index is therefore -1, and `splice(-1, 1)` drops the last entry | education entries with ids `a`, `b`; DELETE /education/a drops `b` and keeps `a` | remove the entry whose id is `edu_id` | high (not executed) | Profiles.RemoveEducationWrongEntry, Profiles.AddThenRemoveEducationAsWritten | Profiles.EducationWithout |
| routes/api/profile.js:119-127 | a taken handle answers 400 but nothing returns, so `new Profile(...).save()` still runs | a profile with handle `h` exists; another user without a profile posts handle `h`; two profiles now have handle `h` | refuse the create and save nothing | high (not executed) | Profiles.CreateAsWrittenDuplicatesHandle | Profiles.CreateChecked |
