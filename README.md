# remix-demo: credential store, form strategies and post table, in Dafny

This project models the server-side logic of a small Remix blog application:

- the **credential store** (`app/models/auth.ts`): `login`, a read-only lookup that fails with
  "User not found", "no password" or "Invalid credentials" in that order, and `register`, a guarded
  insert that refuses a taken email ("User already exists with this email") and otherwise creates a
  user together with a bcrypt-hashed password credential;
- the **authentication service** (`app/services/auth.server.ts`): the login and register form
  strategies, which report the first missing or empty field before delegating to `login` or
  `register`, the authenticator's session keys, and the registry naming the two strategies;
- the **new-post form action** (`app/routes/__dashboard/posts/index.tsx`): it builds an error
  dictionary for `title` and `body`, answers 400 with it, or issues one create request with
  `userId: 1` and redirects to `/`;
- the **post table** (`app/models/post.model.ts`): the create-post schema's length rules,
  `createPost` (refuses an unknown author with "User does not exists"), `getPosts` (every post,
  newest first, with its author's names) and `getPostDetailsBySlug` (the first published post with
  the slug and its newest comments, ten at most).

Modules, one per source file or shared concept:

| file | module | models |
|---|---|---|
| `results.dfy` | `Results` | `Option` and `Result` (a value, or the message the source throws or returns) |
| `bcrypt.dfy` | `Bcrypt` | the password hasher, abstract: `GenSalt`, `Hash`, `Compare` |
| `auth.dfy` | `Auth` | the user table (`CredentialStore`, a map from email to record), `Login`, `RegisterOutcome` |
| `auth_server.dfy` | `AuthServer` | the form strategies, the `Authenticator` configuration and `Registry` |
| `sorting.dfy` | `Sorting` | ordering by a timestamp, newest first |
| `post_model.dfy` | `PostModel` | the schema, `PostTable.CreatePost`, `GetPosts`, `GetPostDetailsBySlug` |
| `posts_route.dfy` | `PostsRoute` | the new-post form `Action` |

Every `async`/`await` is treated as plain sequential code. The database is replaced by values: the
user table is a map from email to user record (so a lookup by email is a map lookup, and the
table invariant `TableInvariant` ties each key to the record's own email and keeps ids distinct);
the post and comment tables are sequences in insertion order. `register` and `createPost` update
their table in place, so they are methods of a class whose fields are those tables, each proved
against a specification function or an explicit description of the new state; `login` and the
queries are functions of the table contents.

Choices where the source leaves something open:

- The hash is idealised: a digest records its salt and the secret it was made from, and `Compare`
  accepts exactly that secret. The round trip `Compare(p, Hash(p, s))` is all the login and
  registration contracts use; the "wrong password is refused" lemma also relies on the digest
  being collision-free.
- Email lookup is exact (case-sensitive) map lookup.
- The database does not fix an order between rows with equal `createdAt`; the model keeps table
  order among equal keys. `findFirst` without an ordering returns the first match in table order.
- The prisma schema is not part of this model: user and post ids are drawn from a counter; a new
  post gets `createdAt == updatedAt == now` and no `publishedAt`.
- The author of a post or comment is joined by id; with ids unique (`TableInvariant`) the join is
  the author's names (`AuthorOfUnique`); a row whose author is missing gets no names.

The source as written has two oddities that the model keeps rather than corrects:

- In the posts action, the body check tests `!title`, not `!body`
  (`app/routes/__dashboard/posts/index.tsx:43`): an empty body under a non-empty title is
  accepted, and a missing title also reports "body is required".
- The schema's messages for `slug` and `content` say "at least 2 character(s)" while the limits
  are 1 and 5 (`app/models/post.model.ts:6-7`); the model uses the limits and the messages as
  written.

## Model

| member | source | states |
|---|---|---|
| `Bcrypt.Hash` | app/models/auth.ts:45-46 | the digest of a password carries its salt and is accepted by `Compare` for that same password |
| `Bcrypt.CompareRejectsOtherPassword` | app/models/auth.ts:15 | a digest refuses every password other than the one hashed (idealised hash) |
| `Auth.Login` | app/models/auth.ts:4-25 | unknown email fails with "User not found"; a record without credential fails with "no password"; a compare failure fails with "Invalid credentials"; the first failing check decides; success iff all three pass, returning the stored record with the credential removed and every other field unchanged; the table is only read |
| `Auth.LoginReturnsSubmittedEmail` | app/models/auth.ts:6-21 | under the table invariant a successful login returns a user whose email is the submitted one, case for case |
| `Auth.RegisterOutcome` | app/models/auth.ts:27-61 | a taken email fails with "User already exists with this email" and leaves the table and id counter unchanged; otherwise exactly one record is added under the email, with the given names, a fresh id and credential `Hash(password, salt)`, every other entry unchanged, and the user without credential is returned |
| `Auth.RegisterKeepsInvariant` | app/models/auth.ts:39-55 | registration preserves unique emails (each record under its own email) and distinct ids |
| `Auth.RegisterThenLogin` | app/models/auth.ts:4-61 | after a successful registration, login with the same email and password succeeds and returns the registered user |
| `Auth.RegisterThenWrongPassword` | app/models/auth.ts:15-17 | after a registration, login with any other password fails with "Invalid credentials" |
| `Auth.RegisterTwice` | app/models/auth.ts:39-43 | registering the same email twice: the second fails and the table keeps the one user from the first |
| `Auth.CredentialStore.Register` | app/models/auth.ts:27-61 | the in-place `register`: result and new table are those of `RegisterOutcome` with a salt of cost 10, and the table invariant is kept |
| `AuthServer.RunStrategy` | app/services/auth.server.ts:16-51 | the strategy registered as "login" yields exactly the login strategy's result and leaves the store unchanged; the one registered as "register" yields the register strategy's result and new store |
| `AuthServer.FirstMissingOrAllPresent` | app/services/auth.server.ts:16-48 | for any list of field checks, either every field is present or some check is the first to fail, never both, so the strategy contracts cover every form |
| `AuthServer.LoginStrategy` | app/services/auth.server.ts:16-28 | a missing or empty email fails with "Email is required" before the password is looked at; otherwise a missing or empty password fails with "Password is required"; with both present the result is exactly `login(email, password)` |
| `AuthServer.ReadRegisterForm` | app/services/auth.server.ts:30-41 | checks firstname, lastname, email, password in that order and reports only the first missing one; with all present it passes the lowercase form keys "firstname"/"lastname" on as firstName/lastName |
| `AuthServer.RegisterStrategy` | app/services/auth.server.ts:30-48 | a form failing the checks returns that message and leaves the store unchanged; otherwise result and new store are those of `register` on the form's fields |
| `AuthServer.RegisterFormThenLoginForm` | app/services/auth.server.ts:16-48 | a complete registration form for a new email, followed by a login form with the same email and password, logs in as the user just registered |
| `AuthServer.Authenticator.constructor` | app/services/auth.server.ts:11-14 | the authenticator keeps the given session key and session error key and starts with no strategies |
| `AuthServer.Authenticator.Use` | app/services/auth.server.ts:51 | registering a strategy under a name adds that one entry and returns the same authenticator, so calls chain |
| `AuthServer.CreateAuthenticator` | app/services/auth.server.ts:11-51 | the configured authenticator uses "sessionKey" and "sessionErrorKey", which are distinct, and maps "login" to the login strategy and "register" to the register strategy |
| `Sorting.Insert` | app/models/post.model.ts:18 | inserting into a newest-first sequence keeps it newest first and adds exactly the one element |
| `Sorting.SortDesc` | app/models/post.model.ts:18 | the result is ordered by key, descending, and is a permutation of the input |
| `PostModel.SchemaIssues` | app/models/post.model.ts:4-9 | the schema accepts iff title has at least 2, slug at least 1 and content at least 5 characters and the author id passes the cuid check; each field's issue is reported exactly when that field fails, at most once, and no other issue is reported |
| `PostModel.AuthorOf` | app/models/post.model.ts:70-75 | the author's names are found exactly when some user has the id, and are that user's first and last name |
| `PostModel.AuthorOfUnique` | app/models/post.model.ts:70-75 | with unique ids, a user's id joins to that user's own names |
| `PostModel.GetPosts` | app/models/post.model.ts:15-33 | every post appears exactly once, as its summary with its author's names, and the list is ordered by `createdAt` descending |
| `PostModel.GetPostsListsEveryPost` | app/models/post.model.ts:17-29 | each post of the table is in the list |
| `PostModel.GetPostsListsOnlyPosts` | app/models/post.model.ts:17-29 | everything listed is the summary of a post of the table |
| `PostModel.FindPublished` | app/models/post.model.ts:59-60 | nothing is found iff no post has the slug and a publication date; otherwise the result is the first such post in table order |
| `PostModel.CommentsOf` | app/models/post.model.ts:61-62 | the comments attached to a post are exactly the comments with its id, each as many times as the table holds it, and no other comment |
| `PostModel.NewestComments` | app/models/post.model.ts:62-77 | exactly min(10, number of the post's comments) comments, newest first, taken as a sub-multiset of the post's comments (no comment repeated beyond its occurrences); a comment of the post taken fewer times than it occurs, even one equal to a taken one, is left out only when 10 are taken, all no older than it |
| `PostModel.TakenCommentsBelongToPost` | app/models/post.model.ts:62-66 | every comment taken from the sorted list belongs to the post |
| `PostModel.OmittedCommentsNotNewer` | app/models/post.model.ts:63-66 | a comment of the post that the first 10 of the newest-first list hold fewer times than the post does lies beyond them, so 10 were taken and each is no older than it |
| `PostModel.GetPostDetailsBySlug` | app/models/post.model.ts:57-85 | nothing iff no published post has the slug; otherwise the first post of the table, in table order, with that slug and a publication date, with min(10, number of its comments) of its comments, newest first, a sub-multiset of that post's comments, a comment taken fewer times than it occurs being left out only when 10 are taken, all no older than it; comments are joined by the post's id, which picks that post's comments alone because post ids are distinct (`PostTable.Valid`) |
| `PostModel.FindPublishedIgnoresDraft` | app/models/post.model.ts:59-60 | appending an unpublished post never changes what the slug lookup finds |
| `PostModel.PostTable.CreatePost` | app/models/post.model.ts:35-55 | no user with the author id: returns error "User does not exists" with no data and the table unchanged; otherwise exactly one post with the given title, content, slug and author id is appended and returned with no error, and ids stay distinct |
| `PostModel.CreatedPostListedNotPublished` | app/models/post.model.ts:43-60 | a newly created post is listed by `getPosts` and does not change the slug lookup until it is published |
| `PostsRoute.Action` | app/routes/__dashboard/posts/index.tsx:32-58 | `title` error iff the title is not a non-empty string; `body` error iff the body is not a string or the title is empty (as written); both can be set together; the errors hold no other keys; any error gives status 400 with them and no create; otherwise exactly one create with the submitted title, body and `userId` 1, then a redirect to "/" |
| `PostsRoute.MissingTitleRejectsBoth` | app/routes/__dashboard/posts/index.tsx:37-45 | a missing title sets both the title and the body error |
| `PostsRoute.EmptyBodyAccepted` | app/routes/__dashboard/posts/index.tsx:43-45 | an empty-string body under a non-empty title passes both checks |

## Left out

- bcrypt internals and salt generation: the hash is an idealised abstract digest; its cost, the
  72-byte password truncation and the possibility of collisions are not modelled, and the random
  part of the salt is a parameter (`nonce`).
- Prisma and the database: tables are in-memory maps and sequences; transactions, collation, id
  generation by the database (cuid strings) and the rethrown database errors
  (`app/models/post.model.ts:52-54`, and the `catch`/rethrow blocks of `app/models/auth.ts`) are
  infrastructure faults outside the model.
- The remix-auth library and the session cookie layer: `authenticate`, `isAuthenticated` and
  `logout`, the session commit and the redirects after a strategy runs. The library and
  `session.server` are not part of this model; only the configuration (session keys and the
  strategy registry) is.
- How a thrown `Error` becomes the strategy's failure: the model carries the error's message as
  `Err(message)` for both the strategies' own errors and those of `login`/`register`.
- Non-string form values in the strategies: a form there is a map from string to string; an
  uploaded file under a strategy's field is not modelled. The posts action does model files.
- The `createPost` called by the posts action is a network POST to a mock API; it is modelled
  only as the recorded request, not its reply.
- The network fetch wrappers (`app/models/user.ts`, `app/models/post.ts`,
  `app/models/comments.ts`), all page rendering and client-side UI state, HTTP headers such as
  Cache-Control, the logout method check, and configuration files.
- `PostModel.SchemaIssues`: the cuid format check on the author id is a parameter, and string
  length counts characters rather than UTF-16 code units.
