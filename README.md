# Blog backend store and handlers, in Dafny

This project models the request handlers, the bearer-token middleware and the
data model of a small blogging backend written in Go (gin over gorm). Users
register and log in. Authenticated users create, edit and delete their own
posts and comment on any post. Anyone can list posts newest-first and read a
post and its comments.

How the model is laid out:

- **`Models`** (`models.dfy`) holds the three tables' rows: `User`, `Post`
  and `Comment`. It also holds the public JSON form of a user (which has no
  password) and the schema's constraints over the whole store
  (`Consistent`):
  - primary keys ascend in insertion order;
  - usernames and emails are present and unique;
  - every post and comment points at an existing user;
  - every comment points at an existing post.

  Each kind of change to the tables has a lemma proving it keeps these
  constraints, including the declared `ON DELETE CASCADE`s.
- **`Query`** (`query.dfy`) gives the query shapes the handlers use, stated
  over a table held as a sequence:
  - `Find` for `First`;
  - `Filter` for `Where` and `Delete`;
  - `Reverse` for `Order(... desc)` over a table in creation order;
  - `Window` for `Offset`/`Limit`.

  It also proves their order and membership facts.
- **`Params`** (`params.dfy`) gives the two number parsers, each with its
  decimal grammar and its 64-bit range written out: `strconv.ParseUint(s, 10,
  64)` for post ids and `strconv.Atoi` for `limit`/`offset`. It also gives the
  `limit`/`offset` validation of the post listing.
- **`Middleware`** (`middleware.dfy`) gives the `Authorization` header
  classification: a missing header, a malformed header or a token that does
  not verify each end in 401. Otherwise the verified identity goes on.
- **`Handlers`** (`handlers.dfy`) holds the store as a class:
  - its fields are the three tables, one autoincrement counter per table, and
    the clock that stamps `created_at`;
  - every route is a method that answers with a status and a body;
  - every rejection leaves the store's fields unchanged;
  - every method keeps `Valid()`: the schema's constraints, plus "every
    stored key and time is below its counter".

  Each protected handler's outcome is a predicate over the store's fields
  taken as one value (`Tables`) before and after the call, such as
  `UpdatePostOutcome`. `ServeProtected` puts the middleware in front of the
  four protected routes, as the router does, and promises the outcome of the
  route's handler. A few client methods (`RegisterFirst`,
  `RegisterSameEmail`, `LoginThenPost`, `DeleteThenListComments`) use the
  handler contracts the way a caller would:
  - the second registration with the same email conflicts;
  - a user who logs in sees only their public fields;
  - a post they create is owned by them;
  - after a delete, the post's comments answer 404.

Password hashing, password comparison, token issuing and token verification
are parameters of the members that use them (`hash`, `check`, `issue`,
`verify`). None of them is given a body. The wall clock becomes the store's
`clock` counter.

Three behaviours of the code worth knowing:

- The update handler checks ownership (403) before it validates the body
  (400).
- Given the header value `"Bearer "` with nothing after it, the middleware
  function passes the header check and hands the empty token to
  verification. A verifier that refuses the empty token ends the request
  with "invalid or expired token" (`Middleware.EmptyTokenRejected`).
  This is a statement about the value the middleware reads. An HTTP server
  that trims trailing whitespace from header values hands it `"Bearer"`
  instead, which fails the header check.
- The foreign keys and the cascades declared in the struct tags are modelled
  as enforced. Whether gorm's migration turns every one of them into an SQL
  constraint is not part of this model. The SQLite connection opened at
  `db.go:13` also does not switch on SQLite's foreign-key enforcement. On the
  running server they are what the struct tags declare, not a guarantee.

## Model

| member | source | states |
|---|---|---|
| Query.Find | handlers.go:58 | the index returned is of a row satisfying the condition with no earlier row satisfying it; `None` exactly when no row does (gorm's `First`) |
| Query.Filter | handlers.go:338 | the result holds exactly the rows of the table that satisfy the condition, and is no longer than the table (`Where`) |
| Query.Window | handlers.go:157-173 | `Offset` then `Limit`: empty past the end, at most `limit` rows, length `min(limit, n - offset)`, and row `i` is row `offset + i` of the input |
| Query.FilterAscending | handlers.go:338 | filtering keeps a table's ascending order, so comments stay in `created_at asc` order |
| Query.ReverseAt | handlers.go:155 | row `i` of the reversed table is row `n - 1 - i` of the table |
| Query.ReverseLength | handlers.go:155 | reversing keeps the number of rows |
| Query.ReverseOfAscending | handlers.go:155 | a table ascending by a key, read backwards, strictly descends by it and holds the same rows |
| Query.DescendingUnique | handlers.go:155 | two strictly descending listings of the same rows are equal: `Order("created_at desc")` has one answer |
| Query.AppendAscending | models.go:6 | appending a row whose key is above every present key keeps the table ascending (autoincrement insert) |
| Query.ReplaceAscending | handlers.go:238 | replacing a row by one with the same key keeps the table ascending (`Save` of an existing row) |
| Params.ScanDigits | handlers.go:43 | the digit loop: each character must be a digit, the accumulator takes the digit's value, and the scan fails once the accumulator passes 2^64 - 1 (its correctness is `Params.ScanCorrect`) |
| Params.ParseUint | handlers.go:41-48 | a post id parses exactly when it is a non-empty string of decimal digits whose value fits in 64 bits, and the result is that value |
| Params.ScanCorrect | handlers.go:43 | the digit-by-digit scan with its overflow cut-off succeeds exactly when the whole string is digits whose value fits in 64 bits, with that value |
| Params.ParseUintFormat | handlers.go:43 | every 64-bit value written in decimal parses back to itself |
| Params.ParseUintRejects | handlers.go:43-46 | the empty string, a leading sign, a leading space and the first value past 64 bits are all refused |
| Params.LeadingZero | handlers.go:43 | a leading zero does not change what an id parses to |
| Params.Atoi | handlers.go:158 | a parsed integer lies in the signed 64-bit range |
| Params.AtoiFormat | handlers.go:158 | every non-negative 64-bit value in decimal, bare, with `+` or with `-`, parses to itself or its negation |
| Params.ParsePage | handlers.go:157-173 | an empty parameter is ignored; a `limit` that is not an integer above zero gives "invalid limit" before `offset` is looked at; an `offset` that is not an integer of at least zero gives "invalid offset"; when each parameter is empty or valid the page is accepted, and it carries the parsed values (no limit for an empty `limit`, offset 0 for an empty `offset`) |
| Params.PageDefaultsAndPrecedence | handlers.go:157-173 | absent parameters mean no limit and offset 0; `limit=0`, `limit=-1` and `limit=abc` fail on the limit whatever the offset; `offset=-1` fails on the offset |
| Models.UsersValid | models.go:6-9 | primary keys ascend (from 1) in insertion order; username and email are present (`not null`) and each is unique (`unique`) |
| Models.PostsValid | models.go:17-22 | post keys and creation times ascend; every post's `user_id` names a stored user (the foreign key of the `User` association) |
| Models.CommentsValid | models.go:28-34 | comment keys and creation times ascend; every comment's `user_id` names a stored user and its `post_id` a stored post |
| Models.Consistent | models.go:5-35 | the schema's constraints over the whole store: the three tables' constraints together |
| Models.SameNameOrEmail | handlers.go:58 | the conflict query's condition: a row with the requested username or the requested email |
| Models.Taken | handlers.go:58-62 | registration conflicts exactly when some stored account meets the conflict condition |
| Models.AuthorOf | handlers.go:155 | the author `Preload("User")` attaches to a row: the public form of the first stored user with the row's `user_id`, or the zero user |
| Models.AuthorOfStored | handlers.go:193 | with unique keys, a row owned by a stored user is loaded with exactly that user's public form |
| Models.AuthorOfMissing | handlers.go:193 | a row whose `user_id` names no stored user is loaded with the zero user |
| Models.UserNamed | handlers.go:99 | `Where("username = ?").First`: the first stored user with that username, or none (its meaning is `Models.UserNamedExactly`) |
| Models.PostWithIdIn | handlers.go:193 | `First(&post, id)`: the first stored post with that id, or none; also at handlers.go:214, 255 and 288 (its meaning is `Models.PostWithIdExactly` and `Handlers.FoundPost`) |
| Models.UserNamedExactly | handlers.go:99 | with unique usernames, the lookup by username yields a user exactly when that user is stored under that name |
| Models.PostWithIdExactly | handlers.go:193 | with unique primary keys, the lookup by id yields a post exactly when that post is stored with that id |
| Models.PublicHidesPassword | models.go:8 | the serialized user is id, username and email, and does not change with the stored hash |
| Models.RegisterKeepsConsistent | handlers.go:76-82 | a new account with a free name and email and a key above every present key keeps the store consistent |
| Models.AddPostKeepsConsistent | handlers.go:139-145 | a post owned by an existing user, with a fresh key and a later time, keeps the store consistent |
| Models.AddCommentKeepsConsistent | handlers.go:305-311 | a comment by an existing user on an existing post, with a fresh key and a later time, keeps the store consistent |
| Models.EditPostKeepsConsistent | handlers.go:236-238 | overwriting one post's title and content keeps the store consistent |
| Models.DeletePostKeepsConsistent | models.go:33 | deleting a post together with the comments on it (the cascade on `comments.post_id`) keeps the store consistent |
| Models.PostGone | handlers.go:271 | after the delete, no stored post carries the deleted id |
| Models.UserGone | models.go:21 | after an account is deleted, no stored account carries its id |
| Models.DeletePostWithoutCascadeOrphans | models.go:33 | without the cascade, deleting a post that has a comment would break the comment's foreign key, so the cascade is needed |
| Models.DeleteUserKeepsConsistent | models.go:21-33 | deleting an account with its posts, its comments and the comments on its posts (the three declared cascades) keeps the store consistent |
| Models.SubsequenceUsersValid | models.go:7-9 | removing accounts while keeping order keeps names and emails unique and present |
| Middleware.IsBearer | middleware.go:20 | `strings.ToLower(scheme) == "bearer"`: six characters, each lowering to the letter of "bearer" in its place (its meaning is `Middleware.BearerSchemes`) |
| Middleware.SplitAtFirstSpace | middleware.go:19 | no split exactly when the header has no space; otherwise the header is the space-free scheme, one space, and the rest |
| Middleware.SplitUnique | middleware.go:19 | a space-free scheme, a space and any token always split back into that scheme and that token |
| Middleware.BearerSchemes | middleware.go:20 | the scheme is accepted exactly when it is "bearer" in any mix of upper and lower case, for every string; "Basic", "Bearer:" and "" are not |
| Middleware.Classify | middleware.go:12-35 | missing header gives "missing authorization header"; no space or a non-bearer scheme gives "invalid authorization header"; a well-formed bearer header whose token does not verify gives "invalid or expired token"; all aborts are 401; the request goes on exactly when the header is well formed and the token verifies, and then carries exactly the verified user id and username; every header value is covered |
| Middleware.TokenIsRestOfHeader | middleware.go:19-31 | with a bearer scheme, the token verified is everything after the first space, and verification alone decides the outcome |
| Middleware.EmptyTokenRejected | middleware.go:26-31 | given a verifier that refuses the empty token, "Bearer " passes the header check, reaches verification with the empty token and ends in "invalid or expired token" |
| Middleware.MalformedNeverVerified | middleware.go:13-24 | a missing or malformed header aborts whatever verification would have said |
| Middleware.IssuedTokenAuthorizes | middleware.go:26-35 | if verification accepts every issued token, a token issued for a user, sent as "Bearer <token>", lets the request through as that user |
| Handlers.RegisterBinds | handlers.go:13-17 | `binding:"required"`: a register body binds when it decodes and username, password and email are all non-empty |
| Handlers.LoginBinds | handlers.go:19-22 | a login body binds when it decodes and username and password are non-empty |
| Handlers.PostBinds | handlers.go:24-27 | a post body binds when it decodes and title and content are non-empty |
| Handlers.CommentBinds | handlers.go:29-31 | a comment body binds when it decodes and its content is non-empty |
| Handlers.PostViews | handlers.go:155 | the listed posts keep their order. Given unique user keys, each post carries the public form of the stored user owning it. A post whose owner is not stored carries the zero user |
| Handlers.CommentViews | handlers.go:338 | the listed comments keep their order. Given unique user keys, each comment carries the public form of the stored user who wrote it. A comment whose author is not stored carries the zero user |
| Handlers.AuthorsResolve | handlers.go:155 | the eager load resolves every owner id: to the stored user's public form when one exists (unique keys), to the zero user otherwise |
| Handlers.NewestFirst | handlers.go:155 | `Order("created_at desc")`: the posts read backwards from creation order (its meaning is `Handlers.NewestFirstOrder` and `Handlers.NewestFirstIsTheOrder`) |
| Handlers.CommentsOn | handlers.go:338 | `Where("post_id = ?").Order("created_at asc")`: the stored comments on the post, in stored order (its meaning is `Handlers.CommentsOnExactly`) |
| Handlers.NewestFirstOrder | handlers.go:155 | the newest-first listing holds every post once, in strictly descending `created_at` |
| Handlers.ListedPage | handlers.go:154-183 | every page of the newest-first listing, with authors, shows only stored posts, in strictly descending `created_at` |
| Handlers.NewestFirstIsTheOrder | handlers.go:155 | any listing of exactly the posts in strictly descending `created_at` is the newest-first listing |
| Handlers.SecondAndThirdNewest | handlers.go:157-173 | with at least three posts, `limit=2&offset=1` lists exactly the second and third newest |
| Handlers.CommentsOnExactly | handlers.go:338 | the comments listed for a post are exactly the stored comments on it, oldest first |
| Handlers.StoreInvariant | models.go:5-35 | the schema's constraints (`Models.Consistent`), and every stored key and `created_at` below the counter that issues the next one (autoincrement keys are never reused) |
| Handlers.TablesInvariant | models.go:5-35 | `Handlers.StoreInvariant` of a value of the tables |
| Handlers.Store.Valid | models.go:5-35 | `Handlers.StoreInvariant` of the store's fields; every method keeps it |
| Handlers.Store.State | db.go:18 | the store's fields (the three tables, the three counters and the clock) as one `Tables` value |
| Handlers.Store.constructor | db.go:18 | a freshly migrated store has empty tables, all counters at 1, and satisfies the invariant |
| Handlers.Store.Register | handlers.go:50-89 | a bad body gives 400; a taken username or email gives 409 "username or email already exists"; a hash failure gives 500 "failed to hash password"; all three leave the store unchanged; 201 exactly when none of these holds, and then the user with the next id and the hashed password is appended and nothing else changes |
| Handlers.Store.Login | handlers.go:91-129 | read-only; a bad body gives 400; 401 "invalid username or password" exactly when no stored user has that name and a matching password; 200 exactly when such a user exists and a token is issued, with that token and the user's public fields; 400 exactly when the body does not bind; 500 "failed to generate token" exactly when the user and password match but no token is issued |
| Handlers.Store.CreatePost | handlers.go:131-152 | keeps `Valid()`; answers 201, 400 or 500; the store goes from its old `State()` to its new one as `Handlers.CreatePostOutcome` says |
| Handlers.CreatePostOutcome | handlers.go:131-152 | a bad body gives 400; an unknown user id gives 500 "failed to create post" (the foreign key); both leave the tables exactly as they were; otherwise 201 with the post owned by the caller with the next id and the current time, appended and returned, the post counter and the clock advanced, and nothing else changed |
| Handlers.Store.ListPosts | handlers.go:154-183 | read-only; an invalid `limit`/`offset` gives 400 with its message; otherwise 200 with the window of the newest-first listing, each post with its author; every listed post is stored and `created_at` strictly descends |
| Handlers.Store.GetPost | handlers.go:185-204 | read-only; an id that does not parse gives 400 "invalid post id"; an unknown id gives 404; 200 exactly when a post has that id, and then it is that stored post, carrying the public form of the stored user who owns it |
| Handlers.Store.UpdatePost | handlers.go:206-245 | keeps `Valid()`; answers 200, 400, 403 or 404; the store goes from its old `State()` to its new one as `Handlers.UpdatePostOutcome` says |
| Handlers.UpdatePostOutcome | handlers.go:206-245 | bad id 400, unknown id 404, another user's post 403, then bad body 400, in that order and each leaving the tables exactly as they were; otherwise 200 with the post, and row by row the posts table keeps every row except the one with that id, whose title and content are overwritten; nothing else changes |
| Handlers.Store.DeletePost | handlers.go:247-278 | keeps `Valid()`; answers 200, 400, 403 or 404; the store goes from its old `State()` to its new one as `Handlers.DeletePostOutcome` says; after a 200 no post keeps the id |
| Handlers.DeletePostOutcome | handlers.go:247-278 | bad id 400, unknown id 404, another user's post 403, each leaving the tables exactly as they were; otherwise 200 "post deleted", the posts with that id and the comments on it are filtered out, and users and counters are unchanged |
| Handlers.Store.CreateComment | handlers.go:280-318 | keeps `Valid()`; answers 201, 400, 404 or 500; the store goes from its old `State()` to its new one as `Handlers.CreateCommentOutcome` says |
| Handlers.CreateCommentOutcome | handlers.go:280-318 | bad id 400, unknown post 404, then bad body 400, then unknown user 500 "failed to create comment", each leaving the tables exactly as they were; otherwise 201 with the comment by the caller on the fetched post, with the next id and the current time, appended, the comment counter and the clock advanced, and nothing else changed |
| Handlers.Store.AppendComment | handlers.go:305-311 | `Create(&comment)` for a stored user and a stored post: the comment with the next id and the current time is appended, the comment counter and the clock advance, nothing else changes, and `Valid()` is kept |
| Handlers.Store.ListComments | handlers.go:320-345 | read-only; bad id 400; unknown post 404; 200 exactly when the post exists, with exactly the comments on it, oldest first, each with its author |
| Handlers.Store.DeleteUser | models.go:21-33 | removes the account, its posts, its comments and every comment on its posts, and keeps the invariant; afterwards no post or comment belongs to the id |
| Handlers.Store.Dispatch | main.go:38-41 | runs the route's handler for the given user: keeps `Valid()`, never answers 401, and the store goes from its old `State()` to its new one as `Handlers.RouteOutcome` says (the handler's own outcome) |
| Handlers.Store.ServeProtected | main.go:36-41 | 401 exactly when the middleware aborts, with its message and the store unchanged; otherwise `Handlers.RouteOutcome` holds for the identity the middleware accepted, so the route's handler ran with that identity |
| Handlers.OwnedByOther | handlers.go:224-228 | the post named by the id exists and its owner is not the caller (the 403 condition) |
| Handlers.RouteOutcome | main.go:38-41 | each protected route's outcome is its handler's: `CreatePostOutcome`, `UpdatePostOutcome`, `DeletePostOutcome` or `CreateCommentOutcome` |
| Handlers.OwnedByCaller | handlers.go:224-228 | the post named by the id exists and its owner is the caller (the ownership check passes) |
| Handlers.RouteAccepted | main.go:38-41 | when each protected route takes effect: create-post when the body binds and the caller is stored; update when the caller owns the post and the body binds; delete when the caller owns the post; create-comment when the post exists, the body binds and the caller is stored |
| Handlers.RouteSucceeds | main.go:38-41 | for every route outcome: 200 or 201 exactly when the route is accepted; any other answer leaves the tables exactly as they were; never 401; update and delete answer 403 exactly when the post belongs to someone else |
| Handlers.RouteKeepsInvariant | main.go:38-41 | every protected route's outcome keeps the store invariant of the tables |
| Handlers.RegisterStep | handlers.go:76-88 | appending a fresh account with the next id and advancing that counter keeps the store invariant |
| Handlers.AddPostStep | handlers.go:139-151 | appending a post with the next id and the current time and advancing both keeps the store invariant |
| Handlers.AddCommentStep | handlers.go:305-317 | appending a comment with the next id and the current time and advancing both keeps the store invariant |
| Handlers.EditPostStep | handlers.go:236-244 | overwriting one post's title and content keeps the store invariant |
| Handlers.DeletePostStep | handlers.go:271-277 | removing a post and the comments on it keeps the store invariant |
| Handlers.DeleteUserStep | models.go:21-33 | removing an account with everything that cascades from it keeps the store invariant |
| Handlers.FoundPost | handlers.go:193-197 | the lookup by id finds a post exactly when some stored post has that id, and what it finds is stored and has that id |
| Handlers.OnlyPostWithId | handlers.go:238 | with unique keys, the row being saved is the only one carrying its id |

## Left out

- Password hashing and comparison (bcrypt) and token signing and verification (JWT, HS256, 24-hour expiry, the secret taken from `JWT_SECRET` with a fixed fallback) are parameters of the model. The fact that verification accepts any HMAC algorithm, and that tokens expire, are therefore not modelled.
- Storage failures other than a refused foreign key are not modelled: the 500 answers "database error", "failed to create user", "failed to fetch post(s)", "failed to fetch comments", "failed to update post" and "failed to delete post". The model's stores cannot fail. "failed to create user" cannot arise without concurrency either, since the uniqueness query runs first.
- A body that fails binding answers 400 with a `ValidationError` body. The text of gin's validator message is not modelled.
- Case folding of the scheme covers ASCII letters only, where Go's `strings.ToLower` folds all of Unicode. The outcome is the same, because no non-ASCII character lowers to a letter of "bearer". Bytes that are not valid UTF-8 are not modelled: the strings are sequences of characters.
- Concurrent requests are not modelled; nor are the uniqueness race between the register lookup and the insert, or request logging.
- The users' `created_at`/`updated_at` and the posts' `updated_at` columns are not modelled. `created_at` is a strictly increasing counter, so ties and clock skew between rows do not arise.
- Ids are unbounded naturals. An id above 2^64 - 1 cannot be named by a request, because `Params.ParseUint` refuses it. The store's counter is not bounded.
- Handlers.Store.DeleteUser models the schema's user cascade. No route deletes users.
- The router's public routes, the static files, the health check and server start-up (`main.go` apart from the protected group) are not part of this model. Neither is the browser client in `web/app.js`.
- Params.Atoi: its contract states only the signed 64-bit range of the result. The accepted grammar is proved for canonical renderings, with and without a sign, by `Params.AtoiFormat`. For other strings, such as `+007`, it is given only by the definition.
