# Blog API: authors, posts and their consistency rules

This project models the core of a small blog REST API built on Express and
Mongoose. The API has two collections. Authors have a first name, a last
name and a unique user name. Blog posts have a title, a content, a
non-owning reference to an author, and a list of comments.

The model has five modules:

- `Models` (models.js) is pure. It holds the record shapes, JavaScript's
  `String.prototype.trim`, the post's `authorName` virtual and
  `serialize()`.
- `Requests` (server.js) holds the checks the handlers run on a request
  body before they touch storage:
  - the ordered loop over required fields, with its early exit
  - the loop that copies whitelisted fields into an update
- `Server` (server.js) is imperative. Class `Store` holds the two
  collections as maps from id to record, plus a counter that supplies
  fresh ids. Each route handler is a method of `Store`. It returns the
  reply the client receives (the first reply sent) and updates the maps as
  the handler's storage calls do. Each handler takes a `Fault` argument
  that names the storage call of the request that rejects, if any.
  Counting starts from 0, in the order the handler issues its calls.
- `Scenarios` holds client request sequences against a fresh store, with
  the replies and records they lead to.
- `Wrappers` holds `Option`.

Every mutating handler is proved to keep two things:

- the store invariant `Valid()`: user names are unique, and every stored id
  was minted before the counter's current value
- the referential integrity of the posts' `author` paths, where the code
  evidently intends to keep it (`ReferencesResolve()`).

Several handlers depart from their evident intent. Each of these is modelled
twice:

- the handler as written, which the rest of the model does not depend on
- a `…Intended` method with the evident intent

Scenario methods show the difference (see "## Findings").

Some documented behaviours differ from the code. The model follows the
code:

- **Author update, id mismatch.** It should stop at the 400 reply. As
  written it goes on: it checks the user name and updates the author the
  body's `id` names (server.js:79-103).
- **Author update, user-name check.** It should only conflict with a
  different author. As written it matches the author being updated too
  (server.js:94).
- **Author delete.** It should delete the author's posts, then the author,
  and reply 204. As written the reply is always 500, the posts are gone
  (unless their removal failed) and the author is kept (server.js:121-123).
- **Post fetch by id.** It should resolve the author first. As written the
  reference stays an ObjectId, so the `author` of the reply is the text
  "undefined undefined" (server.js:151, models.js:24).
- **Post creation.** It should reference the `author_id` author. As written
  it stores the body's `id` field, which is usually absent (server.js:181).
- **Post fetch, unknown id.** It should be a distinct not-found outcome. The
  code, and the model, reply 500 "Internal server error".

## Model

| member | source | states |
|---|---|---|
| Models.Trim | models.js:24 | The result has no white space at either end. It is empty exactly when the input is all white space. It is a slice of the input with only white space outside it. |
| Models.TrimUnique | models.js:24 | A non-empty slice with non-white-space edges and only white space around it is the trimmed string. |
| Models.TrimIdempotent | models.js:24 | Trimming twice gives the same string as trimming once. |
| Models.TrimAppendSpace | models.js:24 | A trailing space does not change the trimmed string. |
| Models.PrependSpaceTrim | models.js:24 | A leading space does not change the trimmed string. |
| Models.AuthorName | models.js:23-25 | The display name is defined exactly when the author path is present, and it is always trimmed. An unpopulated ObjectId yields "undefined undefined". |
| Models.AuthorNameEmptyLastName | models.js:23-25 | With an empty last name, the display name is the first name trimmed. |
| Models.AuthorNameEmptyFirstName | models.js:23-25 | With an empty first name, the display name is the last name trimmed. |
| Models.AuthorNameOfCleanNames | models.js:23-25 | With two non-empty names that have no edge white space, the display name is `firstName + " " + lastName` unchanged. |
| Models.Serialize | models.js:27-34 | It succeeds exactly when the author path is present. The result carries the document's id, title and content and the author's display name. |
| Models.SerializeIgnoresComments | models.js:27-34 | The comments have no effect on the serialized form. |
| Models.WriteKeepsUnique | models.js:8-11 | Writing an author record keeps user names unique when no other author holds its user name. |
| Requests.FirstMissingIndex | server.js:37-44 | It returns the position of the first required field the body lacks. Every field before that position is present. |
| Requests.FirstMissing | server.js:37-44 | The result is None exactly when every required field is present. |
| Requests.CheckRequired | server.js:37-44 | The loop with early return yields the first missing field in list order, or none exactly when all are present. |
| Requests.Pick | server.js:85-91 | The update holds exactly the whitelisted fields present in the body, with the body's values. |
| Requests.CopyUpdateable | server.js:85-91 | The in-place `forEach` fill builds exactly `Pick(body, fields)`. |
| Requests.PickIgnoresOtherFields | server.js:85-91 | Body fields outside the whitelist have no effect on the update. |
| Server.ApplyPostUpdate | server.js:214-223 | A post update never changes the post's author reference or its comments. |
| Server.Cascade | server.js:117-119 | Exactly the posts that reference the author are removed, and the others are kept unchanged. The count drops by the number of that author's posts. |
| Server.UpdatePostKeepsOwners | server.js:214-223 | Rewriting a post's title or content keeps the set of posts, their owners, their comments and their references. |
| Server.UpdateKeepsUnique | server.js:93-103 | An author update keeps user names unique when no other author holds the updated user name. |
| Server.AddAuthorKeeps | server.js:46-60 | A new author under a fresh id, with a user name nobody holds, keeps the store invariant for the next counter value. |
| Server.StoreResolvedPost | server.js:173-182 | Storing a post that references an existing author keeps every reference resolving. |
| Server.ResolvedPostsSerialize | server.js:133-141 | When every reference resolves, each populated post serializes, with its author's trimmed display name. |
| Server.Store.GetAuthors | server.js:17-33 | It replies 500 when the query fails. Otherwise it replies 200 with one `{id, name, userName}` per stored author, where name is `firstName + " " + lastName` untrimmed. |
| Server.Store.PostAuthor | server.js:35-76 | It checks the required fields in order before any storage call, then whether the user name is taken, then the create. The replies are 400, 500, 400 and 500, and none of those changes the store. On success it adds exactly one author under a fresh id and replies 201 with the untrimmed name. It keeps user names unique. |
| Server.Store.PutAuthor | server.js:78-112 | As written: a mismatch replies 400, yet the rest still runs. The user-name lookup matches the author being updated too. The record updated is the one the body's `id` names. A failed lookup sends no reply. Only whitelisted fields change. |
| Server.Store.PutAuthorIntended | server.js:78-112 | A mismatch replies 400 and changes nothing. Only a different author holding the user name is a conflict. On success only the path-id record changes, by the whitelisted fields. |
| Server.Store.DeleteAuthor | server.js:114-129 | As written: the reply is always 500 and the author is never deleted. The author's posts are removed unless their removal failed. |
| Server.Store.DeleteAuthorIntended | server.js:114-129 | The posts go first. If their removal fails, nothing changes. If the author delete fails, the author is kept. Otherwise posts and author are gone and the reply is 204. |
| Server.Store.GetBlogPosts | server.js:133-147 | It replies 500 if the query fails or any post's author does not resolve. Otherwise it replies 200 with each post's serialized, populated form. |
| Server.Store.GetBlogPost | server.js:149-159 | As written: it replies 500 for an unknown id or an unset author. Otherwise it replies 200 with the author "undefined undefined", because the reference is not populated. |
| Server.Store.GetBlogPostIntended | server.js:149-159 | It replies 500 for an unknown id or an unresolved author. Otherwise it replies 200 with the author's trimmed display name. |
| Server.Store.PostBlogPost | server.js:161-205 | As written: it checks the required fields in order, then that the author exists (400 "Author not found"), then the create. The new post stores the body's `id` as its author. The reply names the `author_id` author, untrimmed, with empty comments. |
| Server.Store.PostBlogPostIntended | server.js:161-205 | The same checks, but the new post references the `author_id` author, so every reference still resolves. |
| Server.Store.PutBlogPost | server.js:207-229 | As written: a mismatch replies 400, yet the path-id post is still updated. Only title and content can change. Owners and comments are kept. |
| Server.Store.PutBlogPostIntended | server.js:207-229 | A mismatch replies 400 and changes nothing. Otherwise only the path-id post's title and content change. |
| Server.Store.DeleteBlogPost | server.js:231-236 | It replies 204 whether or not the post existed, and only that post is removed. |
| Scenarios.MissingFieldNamed | server.js:36-44 | A body with only `firstName` gets "Missing \`lastName\` in request body", and no author is stored. |
| Scenarios.DuplicateUserName | server.js:46-53 | A second author with the same user name gets 400 "Username already taken". Exactly one author remains. |
| Scenarios.ResubmitOwnUserName | server.js:93-100 | As written, re-submitting one's own user name gets 400 and the record is kept. |
| Scenarios.ResubmitOwnUserNameIntended | server.js:93-100 | Excluding the author itself from the lookup, the same request gets 200 with the record unchanged. |
| Scenarios.MismatchedAuthorUpdate | server.js:79-103 | As written, a body naming another author gets 400, yet that other author is renamed. |
| Scenarios.MismatchedAuthorUpdateIntended | server.js:79-83 | With the early return, the same request gets 400 and the other author is unchanged. |
| Scenarios.MismatchedPostUpdate | server.js:207-223 | As written, a body without `id` gets 400, yet the post's title changes. |
| Scenarios.MismatchedPostUpdateIntended | server.js:208-212 | With the early return, the same request gets 400 and the post is kept. |
| Scenarios.DeleteAuthorWithPost | server.js:117-128 | As written, deleting an author who wrote a post gets 500. The post is gone and the author remains. |
| Scenarios.DeleteAuthorWithPostIntended | server.js:117-128 | As intended, the same request gets 204, and the author and the post are both gone. |
| Scenarios.CreatedPostAuthor | server.js:177-189 | As written, creating a post replies with the author's name, yet the stored post has no author. |
| Scenarios.CreatedPostBreaksListing | server.js:137-140 | After that creation, listing the posts fails with 500. |
| Scenarios.ListedPostAuthor | server.js:133-141 | With `author_id` stored, listing the posts gives the post with its author's trimmed display name. |
| Scenarios.FetchedPostAuthor | server.js:149-154 | As written, fetching a post names its author "undefined undefined". |
| Scenarios.FetchedPostAuthorIntended | server.js:149-154 | Round trip: after creating an author and a post, the fetched post's author is the trimmed `firstName + " " + lastName`. |
| Scenarios.UnknownAuthor | server.js:173-199 | A post for an unknown author gets 400 "Author not found", and no post is stored. |
| Scenarios.AdaDisplayName | models.js:23-25 | The author Ada Lovelace is displayed as "Ada Lovelace". |

## Left out

- Express, `morgan` logging, JSON body parsing and `console` output are not modelled. A request body is a map from field names to strings. Numbers, nulls and nested values in a body are not modelled.
- `runServer`, `closeServer`, the module-level server handle, `mongoose.connect`/`disconnect` and the `config` module are not modelled. They are process lifecycle and configuration.
- Asynchrony is not modelled: each request runs to completion before the next. The read-then-write race on user-name uniqueness is therefore out of scope.
- The storage layer's unique index on `userName` is not modelled as a separate check. The handlers' own lookup precedes every write, so within a sequential run it never fires.
- Mongoose ObjectIds are not modelled as such. Fresh ids come from a counter (`MintId`). A malformed id makes the storage call reject, and the model expresses any rejection through the `fault` argument rather than through the id's shape.
- List order is not modelled: the collections are maps, so GET /authors and GET /blogposts return keyed maps rather than ordered arrays.
- Document fields that Mongoose adds (`_id` of comments, `__v`) are not modelled.
- The "headers already sent" error after the missing `return` at server.js:79-83 and 208-212 is not modelled. The model keeps the first reply, which is what the client receives. The failing second send and the unhandled rejection it causes are dropped.
- `Author.findOne({userName: undefined})`, reached when an update body has no `userName`, is taken to match no author. Every stored author has a string user name.
- `findByIdAndUpdate(undefined, …)`, reached when an author update body has no `id`, is taken to match no author, which gives the 500 reply.

## Findings

| source | as written | input that shows it | evidently intended | confidence | as-written member | corrected member |
|---|---|---|---|---|---|---|
| server.js:79-83 | A path/body id mismatch sends 400, but the handler goes on and updates the author the body's `id` names | PUT /authors/<a> with body `{id: <b>, firstName: "Eve"}` | Stop after the 400 and change nothing | not executed | Scenarios.MismatchedAuthorUpdate | Scenarios.MismatchedAuthorUpdateIntended |
| server.js:208-212 | A mismatch sends 400, but the update of the path-id post still runs | PUT /blogposts/<p> with body `{title: "New"}` | Stop after the 400 and change nothing | not executed | Scenarios.MismatchedPostUpdate | Scenarios.MismatchedPostUpdateIntended |
| server.js:94 | The user-name lookup also matches the author being updated | PUT /authors/<a> with body `{id: <a>, userName: <a's own user name>}` | Conflict only with a different author | not executed | Scenarios.ResubmitOwnUserName | Scenarios.ResubmitOwnUserNameIntended |
| server.js:123 | Without the `.`, `then(...)` is a call to an undefined global: a ReferenceError. The delete query is never executed, and the reply is 500 | DELETE /authors/<a> for an author with one post | Delete the author after its posts and reply 204 | not executed | Scenarios.DeleteAuthorWithPost | Scenarios.DeleteAuthorWithPostIntended |
| server.js:181 | The new post's author is `req.body.id`, which is absent in a normal request | POST /blogposts with body `{title, content, author_id: <a>}`, then GET /blogposts | Store `req.body.author_id` | not executed | Scenarios.CreatedPostBreaksListing | Scenarios.ListedPostAuthor |
| server.js:151 | The post is serialized without `populate('author')`, so `authorName` reads fields of an ObjectId | GET /blogposts/<p> for a post by Ada Lovelace | Populate, so that the reply names "Ada Lovelace" | not executed | Scenarios.FetchedPostAuthor | Scenarios.FetchedPostAuthorIntended |
