# A verified model of a small social-feed server

The server (`app.js`) is a thin HTTP layer over three SQLite tables. `users` holds
username, profile image, salted PBKDF2 hash and salt. `tokens` holds one session token per
username. `posts` holds username, profile image, optional post image, date and text. Four
handlers read and change these tables:

- `POST /register-user` creates a user and issues a token;
- `POST /login` checks the password against the stored hash and issues a new token that
  replaces the old one;
- `POST /create-post` checks the (username, token) pair and appends a post carrying the
  author's current profile image;
- `GET /posts/{x}` parses a page number and returns at most 20 posts, newest first, from
  offset `page * 10`.

The model has six modules:

- `Options`: an optional value (absent JSON field, SQL NULL, NaN).
- `Js`: the JavaScript semantics the handlers rely on: truthiness of a JSON field,
  `x || null`, `split('/')` with its inverse `Join`, and `parseInt(x, 10)` with its
  inverse `Decimal`.
- `Schema`: the row types, the store as a value (`Tables`) and the invariant the handlers
  keep. The store has at most one user and one token per username, because both tables are
  maps keyed by the UNIQUE username. Only registered users hold tokens. User ids are unique,
  and post ids grow in insertion order.
- `Feed`: the feed query as pure functions: page parsing, offset, `ORDER BY date_posted
  DESC`, `LIMIT 20 OFFSET ?`, and the projection of rows. Lemmas prove ordering,
  permutation, window bounds and the overlap of pages.
- `Handlers`: each handler as a function from the tables before a request to the response
  and the tables after it. Each contract states the status codes (both directions) and
  the exact new state. Every error path changes nothing, except a failed token upsert
  during registration, which keeps the user row already inserted.
- `Server`: class `Database`, whose fields `users`, `tokens` and `posts` are changed one SQL
  statement at a time by the handler methods. Each method is proved to keep the invariant
  and to match its `Handlers` function.

Inputs the server gets from its environment are parameters:

- PBKDF2 is the store's function-valued constant `kdf`. It is called with the source's
  constants: 1000 iterations, key length 64, digest "sha512".
- The outputs of `randomBytes` (the salt and the token) are method parameters.
- `Date.now()` is the method parameter `nowMillis`.
- A failure of the store is the parameter `faults`: the set of SQL statements that fail
  during the request.

Three details of `app.js` the model keeps:

- The routes are `/register-user` and `/create-post`.
- The post-creation body carries `post_img`.
- A 500 answer echoes the raw SQLite message in `details`. The model keeps only the
  `error` text.

## Model

| member | source | states |
|---|---|---|
| `Js.Split` | app.js:85 | `url.split('/')` always yields at least one piece |
| `Js.JoinSplit` | app.js:85 | joining the pieces of a split with the separator gives back the string |
| `Js.SplitPiecesFree` | app.js:85 | no piece of a split contains the separator |
| `Js.SplitJoin` | app.js:85 | splitting a join of separator-free pieces gives back the pieces |
| `Js.TrimStart` | app.js:86 | `parseInt` skips exactly the leading white space: every dropped character is white space, and the rest is a suffix that starts with a non-space |
| `Js.DigitRun` | app.js:86 | the digits `parseInt` reads are the longest all-digit prefix |
| `Js.Truthy` | app.js:127 | a JSON field passes `!field` checks exactly when it is present, not null and not the empty string |
| `Js.OrNull` | app.js:170 | `post_img \|\| null` keeps a truthy value as it is and turns a falsy one into null |
| `Js.ParseInt` | app.js:86 | `parseInt(x, 10)`: white space, an optional sign, then the longest digit run; a string without any digit gives NaN |
| `Js.IsWhiteSpace` | app.js:86 | the characters `parseInt` skips first: TAB, LF, VT, FF, CR, the Unicode space separators, LINE and PARAGRAPH SEPARATOR and the byte order mark |
| `Js.DigitsValue` | app.js:86 | the number a run of decimal digits spells, most significant first; see `DecimalValue` |
| `Js.Decimal` | app.js:86 | the decimal notation of a number is a non-empty digit string |
| `Js.DecimalValue` | app.js:86 | the digit string of `n` spells `n` |
| `Js.ParseDecimal` | app.js:86 | `parseInt(String(n) + rest, 10) == n` whenever `rest` does not start with a digit |
| `Feed.Items` | app.js:104-110 | the answer has one projected item per row, in row order, with a falsy `post_img` as null |
| `Feed.PageSegmentOfPostsUrl` | app.js:85 | `split('/')[2]` of `/posts/x` is the part of x before its first '/' |
| `Feed.PageOfPostsUrl` | app.js:84-86 | `/posts/<n>` followed by any text that does not start with a digit (a query string, or more path as in `/posts/3/x`) asks for page n |
| `Feed.PageOfBarePostsUrl` | app.js:84-86 | `/posts` has no third piece and asks for page 0 |
| `Feed.PageOfNonNumericUrl` | app.js:85-86 | a page segment (the part before the next '/') with no digit at all (empty, `latest`, `-abc`, ` x`) asks for page 0 (`NaN \|\| 0`), whatever follows, as in `/posts/latest/2` |
| `Feed.PageOfLetterFirstUrl` | app.js:85-86 | a page segment that starts with a character other than white space, a sign or a digit (`a1`) asks for page 0 even when digits follow |
| `Feed.PageSegment` | app.js:85 | `req.url.split('/')[2]`, absent when the URL has fewer than three pieces; see `PageSegmentOfPostsUrl` |
| `Feed.PageNumber` | app.js:86 | `parseInt(x, 10) \|\| 0`: an absent segment or NaN gives 0; see `PageOfPostsUrl` and `PageOfNonNumericUrl` |
| `Feed.PageOfUrl` | app.js:85-86 | the page number read from the URL; see `PageOfPostsUrl`, `PageOfBarePostsUrl` and `PageOfNonNumericUrl` |
| `Feed.Offset` | app.js:87 | `offset = page * 10`; see `PagesOverlap` and `NegativePage` |
| `Feed.SortByDate` | app.js:92 | `ORDER BY date_posted DESC` as an insertion sort; see `SortByDateOrders` and `SortByDatePermutes` |
| `Feed.Window` | app.js:93 | `LIMIT 20 OFFSET ?`: exactly `min(20, rows left)` rows from the offset clamped at 0, none past the end, row k being row `max(offset, 0) + k` of its input |
| `Feed.Page` | app.js:87-110 | the feed for one page number: window of the date order, projected; see `PageIsWindow` |
| `Feed.ItemOf` | app.js:104-110 | the fields of a row the feed shows: username, prof_img, `post_img \|\| null`, date_posted and text_content, without the id |
| `Feed.InsertByDate` | app.js:92 | one step of the date sort: a post goes before the first post that is not newer; see `InsertByDatePermutes` and `InsertByDateKeepsOrder` |
| `Feed.InsertByDatePermutes` | app.js:92 | inserting a post into the ordered list adds exactly that post |
| `Feed.InsertByDateKeepsOrder` | app.js:92 | inserting into a newest-first list keeps it newest first |
| `Feed.SortByDateOrders` | app.js:92 | `ORDER BY date_posted DESC`: the sorted posts have non-increasing dates |
| `Feed.SortByDatePermutes` | app.js:91-92 | the sorted posts are exactly the table's posts (same multiset) |
| `Feed.PageIsWindow` | app.js:87-96 | a page is the contiguous run of the date order starting at `max(page*10, 0)`, of length `min(20, rows left)` |
| `Feed.PageBounded` | app.js:93 | a page holds at most 20 posts and no more than the table |
| `Feed.PageEmptyPastEnd` | app.js:93-96 | an offset at or past the end gives an empty page, not an error |
| `Feed.PageNewestFirst` | app.js:92-93 | every page is ordered by `date_posted` non-increasing |
| `Feed.PageFromTable` | app.js:104-110 | every item of a page is the projection of a stored post |
| `Feed.PagesOverlap` | app.js:87-93 | the first ten items of page n+1 are the last ten of page n, as far as page n has them |
| `Feed.NegativePage` | app.js:86-87 | a negative page (`/posts/-3`) reads the same rows as page 0, since SQLite reads a negative OFFSET as 0 |
| `Feed.FiveDatesPage` | app.js:90-93 | posts dated 5, 3, 4, 1, 2 are listed as 5, 4, 3, 2, 1 |
| `Schema.Invariant` | app.js:24-51 | the UNIQUE usernames of `users` and `tokens` (each a map keyed by username, rows filed under their own name), unique user ids already handed out, tokens only for registered users, posts by registered users with ids growing in insertion order; kept by `RegisterKeepsInvariant`, `LoginKeepsInvariant` and `CreatePostKeepsInvariant` |
| `Schema.EmptyInvariant` | app.js:24-51 | the freshly created, empty tables satisfy the store invariant |
| `Handlers.RegisterFieldsPresent` | app.js:260 | registration needs a truthy username, prof_img and password |
| `Handlers.LoginFieldsPresent` | app.js:334 | login needs a truthy username and password |
| `Handlers.PostFieldsPresent` | app.js:127 | post creation needs a truthy username, text_content and token |
| `Handlers.PasswordMatches` | app.js:346-353 | the user exists and the password hashed with the stored salt equals the stored hash; the 200 and 401 iffs of `Login` are stated with it |
| `Handlers.NewUser` | app.js:277-282 | the inserted user row: next id, username, prof_img, the password hashed with the fresh salt, and the salt |
| `Handlers.WithNewUser` | app.js:281-282 | the tables after the user insert: the new row filed under its username and the id sequence advanced; nothing else changes |
| `Handlers.HashPassword` | app.js:278 | the stored hash is `pbkdf2Sync(password, salt, 1000, 64, 'sha512')` in hex, with the same constants at app.js:349 |
| `Handlers.UpsertTokenRow` | app.js:291-296 | the upsert maps the username to the new token, adds no key but that username, and keeps every other token, user and post |
| `Handlers.TokenMatches` | app.js:134 | the token lookup finds a row exactly when that (username, token) pair is stored |
| `Handlers.NewPost` | app.js:164-177 | the appended row: next id, the author's current prof_img, `post_img \|\| null`, `floor(now / 1000)` and the text; see `CreatePost` |
| `Handlers.Register` | app.js:258-315 | 400 iff a field is falsy; 409 iff the username exists; 201 iff the username is new and no statement fails. Every failure except the token store's leaves all tables unchanged. A token-store failure keeps the inserted user row. A token-store failure happens exactly when the upsert itself fails, after the user insert. Success adds exactly the row (next id, username, prof_img, `pbkdf2(password, salt, 1000, 64, sha512)`, salt), upserts the token, and answers with the user's id, name, image and token |
| `Handlers.RegisterKeepsInvariant` | app.js:266-296 | registration keeps unique usernames and ids, and tokens only for registered users |
| `Handlers.Login` | app.js:332-387 | 400 iff a field is falsy. 200 iff the user exists, the password hashed with the stored salt equals the stored hash, and no statement fails. Every 401 is the same "Invalid username or password". Failures change nothing. Success upserts the new token and answers with the stored row's id, name and image |
| `Handlers.LoginKeepsInvariant` | app.js:355-363 | login keeps the store invariant |
| `Handlers.LoginReplacesToken` | app.js:355-363 | after a login the user's token is the new one, the previous one no longer matches, and other users' tokens are unchanged |
| `Handlers.LoginFailuresAlike` | app.js:346-387 | an unknown user and a wrong password give identical outcomes: the same 401 answer and unchanged tables |
| `Handlers.CreatePost` | app.js:125-197 | 400 iff username, text or token is falsy; 401 ("Invalid token or session expired") iff the (username, token) pair is not stored; 404 iff the token matches but no user row exists; no table changes unless 201. Success appends exactly one post: next id, the user row's current prof_img, `post_img \|\| null`, `floor(now/1000)`, text |
| `Handlers.CreatePostKeepsInvariant` | app.js:164-177 | post creation keeps the store invariant (author registered, ids increasing) |
| `Handlers.CreatePostFindsAuthor` | app.js:142-161 | in a store that satisfies the invariant, the 404 "User not found" answer never happens |
| `Handlers.ListPosts` | app.js:84-114 | the feed handler: 500 when the query fails, else 200 with the page of the URL; see `ListPostsAnswer` |
| `Handlers.ListPostsAnswer` | app.js:84-114 | the feed answers 500 exactly when the query fails. Otherwise it answers 200 with the page: `min(20, rows left)` items, item k the projection of post `max(page*10, 0) + k` of the date order, newest first, empty past the end |
| `Handlers.RegisterThenLogin` | app.js:346-363 | registering and then logging in with the same credentials succeeds; the login token differs from the registration token, which then fails post creation with 401 |
| `Handlers.RegisterTwice` | app.js:266-275 | a second registration of a username answers 409 and changes nothing |
| `Server.Database.constructor` | app.js:24-51 | a new store has empty tables, id sequences at 0, and satisfies the invariant |
| `Server.Database.SelectUser` | app.js:267-268 | `SELECT * FROM users WHERE username = ?` finds the row filed under that username, if any |
| `Server.Database.SelectToken` | app.js:134-135 | the token lookup succeeds iff exactly that (username, token) pair is stored |
| `Server.Database.InsertUser` | app.js:281-282 | the user insert adds one row with the next id and changes nothing else |
| `Server.Database.UpsertToken` | app.js:291-296 | the upsert maps the username to the new token and changes nothing else |
| `Server.Database.InsertPost` | app.js:173-177 | the post insert appends one row with the next id and changes nothing else |
| `Server.Database.Register` | app.js:249-321 | the registration handler keeps the invariant and its response and new tables are those of `Handlers.Register` |
| `Server.Database.Login` | app.js:323-394 | the login handler keeps the invariant and its response and new tables are those of `Handlers.Login` |
| `Server.Database.CreatePost` | app.js:116-203 | the post handler keeps the invariant, its response and new tables are those of `Handlers.CreatePost`, and in a valid store it never answers 404 |
| `Server.Database.ListPosts` | app.js:84-114 | the feed handler changes nothing and answers `Handlers.ListPosts`: 200 exactly when the query does not fail, with at most 20 items |

## Left out

- The HTTP server, routing on method and URL, request-body streaming, response headers and
  response writing. These are I/O plumbing. A handler's result is a `Response` value, and
  `ListPosts` takes a URL that has already been routed to it.
- JSON parsing and the "Invalid JSON format" answers. Requests are records that are already
  parsed.
- JSON fields that are not strings. A field is modelled as a string or as absent/null, so
  the truthiness of numbers, booleans and objects is not captured.
- The `/upload` handler (multipart parsing and file rename) and static serving from `res/`.
  Both are filesystem I/O done by libraries that are not modelled.
- Opening the database, creating the tables, and console logging. Only the tables'
  structure and their UNIQUE username columns remain, as the store's types and invariant.
  The `id` column of `tokens` is never read and is not modelled.
- PBKDF2, SHA-512 and `randomBytes`. The key-derivation function is a parameter of the
  store. Salts and tokens are arbitrary strings, so their hex format and lengths (16 and 32
  random bytes) are not modelled. `RegisterThenLogin` and `LoginReplacesToken` state as a
  precondition that the new token differs from the old one.
- `Date.now()` is the parameter `nowMillis`, an integer. `Math.floor(nowMillis / 1000)` is
  Dafny's division, which rounds down for a positive divisor.
- Concurrency between requests, including the race between the duplicate-username check
  and the insert. The model runs requests one at a time.
- Server.Database.InsertUser: requires that the username is free. The handler always checks
  this first, so the UNIQUE-constraint error that only such a race could raise is not
  modelled.
- The raw SQLite error text in `details` of 500 answers. A failing statement is only named
  in `faults`.
- JavaScript number precision. `parseInt` of more than 15 digits, and an offset past
  SQLite's 64-bit integers, are modelled as exact unbounded integers.
- The order of posts with the same `date_posted`. SQL leaves it open. The model's insertion
  sort keeps insertion order. The ordering, bound and emptiness lemmas do not depend on how
  ties are broken. `PagesOverlap` assumes that every query breaks ties the same way.
