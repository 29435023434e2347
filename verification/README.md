# Message board backend — a Dafny model

This project models the data logic of a small message-board server
(`index.js`): anyone can list posts (optionally by category), create posts
and comment on them; an administrator logs in with a username and password
and can then create, list, delete and re-role users, and list and delete
posts and comments. The server keeps everything in one JSON document holding
`posts` (each with an ordered list of embedded `comments`) and `users`.

Each request handler becomes a pure function from the current document
(`Document.Store`) to an `Outcome`: the reply kind (`Success`, a list, `Done`
for the plain `'ok'` reply, `NotFound` for 404, `Forbidden` for 403) and the
next document. `Board.Handle` dispatches a parsed `Board.Request` to its
handler and `Board.Run` handles a sequence of requests one after the other.

Modules:

- `Seqs` (`seqs.dfy`): `Option`, `Filter` (JavaScript `filter`), `Count`, `FindIndex`
  (JavaScript `find`, as a position), `Subseq` (order-preserving sub-sequence)
  and the lemmas about them.
- `Document` (`document.dfy`): posts, comments, users, the store, reply kinds,
  start-up seeding, the first-match lookups, and the admin gate `Authorized`
  shared by every `/kanri` handler except login.
- `PostService` (`posts.dfy`): `GET /posts`, `POST /posts`,
  `POST /posts/:postId/comments`.
- `UserService` (`users.dfy`): `/kanri/login`, `/kanri/create-user`,
  `/kanri/users`, `/kanri/delete-user/:targetId`, `/kanri/update-role/:targetId`.
- `AdminPosts` (`admin.dfy`): `/kanri/data`, `/kanri/delete-post/:postId`,
  `/kanri/delete-comment/:postId/:commentId`.
- `Board` (`board.dfy`): requests, dispatch, and properties across handlers.

Behaviour worth knowing, as the code has it:

- Start-up seeds the admin account only when the document does not exist at
  all (`db.data ||= …`); an existing document with empty collections is kept.
- Lookups take the *first* match. Ids come from the clock and are not
  guaranteed unique, so the model never assumes uniqueness: adding a comment,
  deleting a comment and updating a role touch only the first post or user
  with the id, while deleting a post or a user removes *every* one with it.
- Deleting or re-roling a missing target succeeds without change;
  update-role then replies with no user. Its reply otherwise carries the user
  with the new role already applied.
- Deleting a user twice leaves the same document as deleting once, but an
  admin who deletes their own account is refused on the second call. An
  admin who gives their own account a non-admin role is refused from then on.

## Model

| member | source | states |
|---|---|---|
| Seqs.Filter | index.js:32 | the result is an order-preserving sub-sequence of the input, holds exactly the values that pass the predicate, and is as long as the number of passing positions, so it keeps every passing element |
| Seqs.FindIndex | index.js:57 | no index exactly when no element matches; otherwise the index of a matching element with no match before it |
| Seqs.FilterAppend | index.js:32 | filtering a concatenation is the concatenation of the filtered parts, so survivors keep their relative order |
| Seqs.FilterIdempotent | index.js:143 | filtering a second time with the same predicate changes nothing |
| Seqs.FilterKeepsAll | index.js:106 | a filter returns its input unchanged if and only if every element passes |
| Document.InitDB | index.js:12-19 | a missing document becomes one with no posts and only the seeded admin `admin`/`admin123` with id 1; an existing document is kept unchanged even when empty |
| Document.FindUser | index.js:79 | no result exactly when no user has the id; otherwise the unique position of the first user with it |
| Document.FindPost | index.js:156 | no result exactly when no post has the id; otherwise the unique position of the first post with it |
| Document.Authorized | index.js:79-80 | a requester passes if and only if an id was sent and the first user with that id has role `admin`; a passing requester is some admin user |
| Document.AuthorizedAppend | index.js:82-83 | appending users does not change the gate's answer for a requester id that already matches a user |
| PostService.ListPosts | index.js:28-34 | never writes; with no or empty category lists all posts; otherwise an order-preserving sub-sequence holding exactly the posts of that category, one entry per such post |
| PostService.CreatePost | index.js:37-50 | appends exactly one post carrying the given fields, no comments, zero likes and not solved; earlier posts and all users unchanged |
| PostService.AddComment | index.js:53-62 | 404 and no change if and only if no post has the id; otherwise the first post with the id gains the comment at the end and nothing else changes |
| PostService.CreateThenList | index.js:30-47 | after a creation, the unfiltered and own-category listings are the earlier listing plus the new post at the end; other categories list as before |
| PostService.CommentThenList | index.js:57-60 | after commenting on an existing post, the next listing shows the first post with that id ending in the new comment |
| UserService.Login | index.js:67-73 | never writes; succeeds if and only if some user matches username, password and role `admin`, returning the id of the first such user; otherwise 403 |
| UserService.CreateUser | index.js:76-86 | refused and unchanged unless the requester is an admin; otherwise appends the given user, returns it, and leaves posts unchanged |
| UserService.ListUsers | index.js:89-96 | never writes; refused exactly when the requester is not an admin; otherwise returns every user |
| UserService.DeleteUser | index.js:99-109 | refused and unchanged unless admin; otherwise the users left are an order-preserving sub-sequence holding exactly the users with another id, one entry per such user; posts unchanged |
| UserService.UpdateRole | index.js:112-125 | refused and unchanged unless admin; changes no field but `role`, and only that of the first user with the target id, returning that user with the new role; with no user of the target id the reply carries no user and nothing changes |
| UserService.SeedAdminLogsIn | index.js:16 | on a freshly seeded document, logging in as `admin`/`admin123` returns user id 1 |
| UserService.DeleteUserIdempotent | index.js:102-106 | deleting the same user twice leaves the document of deleting once; the reply repeats unless the requester deleted their own id |
| UserService.AuthorizedAfterDelete | index.js:105-106 | removing the users with one id leaves the gate's answer unchanged for every other requester id |
| UserService.DeleteAbsentUser | index.js:106 | deleting an id no user has leaves the document unchanged |
| UserService.UpdateRoleIdempotent | index.js:118-123 | setting the same role twice leaves the document of setting it once |
| UserService.CreateUserKeepsAdmin | index.js:79-83 | an admin who creates a user still passes the gate afterwards |
| UserService.UpdateOwnRoleRevokes | index.js:115-121 | an admin who sets their own role to anything but `admin` no longer passes the gate |
| AdminPosts.AdminData | index.js:128-134 | never writes; refused exactly when the requester is not an admin; otherwise returns every post |
| AdminPosts.DeletePost | index.js:136-146 | refused and unchanged unless admin; otherwise the posts left are an order-preserving sub-sequence holding exactly the posts with another id, one entry per such post; users unchanged |
| AdminPosts.DeleteComment | index.js:148-162 | refused and unchanged unless admin; otherwise only the comments of the first post with the id change, losing exactly the comments with the comment id, in order; no change when the post is absent |
| AdminPosts.DeletePostIdempotent | index.js:142-143 | deleting a post twice gives the reply and document of deleting once |
| AdminPosts.DeleteAbsentPost | index.js:143 | deleting a post id no post has leaves the document unchanged |
| AdminPosts.DeleteCommentIdempotent | index.js:154-159 | deleting a comment twice gives the reply and document of deleting once |
| AdminPosts.DeleteAbsentComment | index.js:156-158 | deleting a comment id the first matching post does not hold leaves the document unchanged |
| Board.Handle | index.js:28-162 | read-only requests never write; a refused gate means 403 and no change; 403 only from login or a refused gate; 404 only from commenting, with no change; users change only through user requests, posts only through post requests |
| Board.Run | index.js:28-134 | a sequence of read-only requests leaves the document unchanged |
| Board.GateRefuses | index.js:151-152 | an admin request with no requester id, an id no user has, or whose first matching user is not an admin gets 403 and changes nothing |
| Board.AdminIsAdmitted | index.js:139-140 | an admin request whose first matching user is an admin is never refused |
| Board.EndToEnd | index.js:37-143 | on a fresh server: a created post is the one post listed under its category, a comment makes its comment list one long, the seeded admin logs in as id 1, and after that admin deletes the post no listed post has its id |

## Left out

- HTTP routing, body parsing, static files, status codes and JSON
  serialisation: only the reply kind and its payload are modelled.
- Reading and writing `db.json` on every request: the document is a value
  passed in and returned. Storage failures are not modelled.
- A stored document that lacks its `users` or `posts` array: start-up does
  not seed it and every handler then fails on the missing array; the model's
  store always holds both arrays.
- The clock: post, comment and user ids and the creation timestamp are
  parameters of the request, with no uniqueness assumed.
- JavaScript coercions: `Number(...)` on route parameters and loose `==`
  between a query-string requester id and a numeric user id. Ids are
  already-parsed integers; a requester id that was not sent is `None`, and a
  route parameter that does not parse (`NaN`, which matches nothing) is not
  modelled.
- Missing body fields (`undefined` titles, passwords, roles, categories):
  every field is a string.
- The category query parameter given more than once (an array in Express):
  it is one optional string.
- The server-rendered admin page (`GET /kanri`) and its inline script, and
  the public browser script: user interface only.
- Concurrent requests racing on the document (last writer wins): the model
  handles one request at a time.
