/** What each request handler does to the store and answers, as a function from the tables
    before the request to the response and the tables after it. The store's own failures are
    an input: `faults` is the set of SQL statements that fail during this request. */
module Handlers {
  import opened Options
  import opened Js
  import opened Schema
  import Feed

  /** `crypto.pbkdf2Sync(password, salt, iterations, keylen, digest).toString('hex')`,
      whose internals are not modelled. */
  type Kdf = (string, string, nat, nat, string) -> string

  const Iterations: nat := 1000
  const KeyLength: nat := 64
  const Digest: string := "sha512"

  /** The stored form of a password under a salt. */
  function HashPassword(kdf: Kdf, password: string, salt: string): string {
    kdf(password, salt, Iterations, KeyLength, Digest)
  }

  /** The SQL statements the handlers run. */
  datatype Statement =
    | SelectUser    // SELECT ... FROM users WHERE username = ?
    | InsertUser    // INSERT INTO users ...
    | UpsertToken   // INSERT INTO tokens ... ON CONFLICT(username) DO UPDATE ...
    | SelectToken   // SELECT * FROM tokens WHERE username = ? AND token = ?
    | InsertPost    // INSERT INTO posts ...
    | SelectPosts   // SELECT * FROM posts ORDER BY date_posted DESC LIMIT 20 OFFSET ?

  /** Parsed JSON bodies; a field that is absent or null is None. */
  datatype RegisterRequest = RegisterRequest(username: Option<string>, profImg: Option<string>, password: Option<string>)
  datatype LoginRequest = LoginRequest(username: Option<string>, password: Option<string>)
  datatype PostRequest = PostRequest(
    username: Option<string>,
    postImg: Option<string>,
    textContent: Option<string>,
    token: Option<string>)

  datatype UserView = UserView(id: nat, username: string, profImg: string)
  datatype PostView = PostView(
    id: nat,
    username: string,
    profImg: string,
    postImg: Option<string>,
    textContent: string,
    datePosted: int)

  /** The JSON object a response carries. */
  datatype Body =
    | Error(error: string)
    | Session(message: string, user: UserView, token: string)
    | Created(message: string, post: PostView)
    | Data(data: seq<Feed.Item>)

  datatype Response = Response(status: nat, body: Body)

  datatype Outcome = Outcome(response: Response, tables: Tables)

  const MissingFields := Response(400, Error("Missing required fields"))
  const MissingCredentials := Response(400, Error("Missing username or password"))
  const UsernameTaken := Response(409, Error("Username already exists"))
  const InvalidCredentials := Response(401, Error("Invalid username or password"))
  const InvalidToken := Response(401, Error("Invalid token or session expired"))
  const UserNotFound := Response(404, Error("User not found"))
  /** A failed statement; the raw SQLite message the source adds as `details` is left out. */
  const DatabaseError := Response(500, Error("Database error"))
  const TokenStoreError := Response(500, Error("Error storing token"))

  /** `INSERT INTO tokens (username, token) VALUES (?, ?) ON CONFLICT(username) DO UPDATE
      SET token = excluded.token`. */
  function UpsertTokenRow(t: Tables, username: string, token: string): (r: Tables)
    ensures r.tokens.Keys == t.tokens.Keys + {username} && r.tokens[username] == token
    ensures forall v :: v in t.tokens && v != username ==> r.tokens[v] == t.tokens[v]
    ensures r.users == t.users && r.posts == t.posts
    ensures r.lastUserId == t.lastUserId && r.lastPostId == t.lastPostId
  {
    t.(tokens := t.tokens[username := token])
  }

  /** `SELECT * FROM tokens WHERE username = ? AND token = ?` finds a row. */
  predicate TokenMatches(t: Tables, username: string, token: string) {
    username in t.tokens && t.tokens[username] == token
  }

  // ---------------------------------------------------------------------------
  // POST /register-user

  predicate RegisterFieldsPresent(req: RegisterRequest) {
    Truthy(req.username) && Truthy(req.profImg) && Truthy(req.password)
  }

  /** The row a registration inserts: the next id, and the password hashed with the salt. */
  function NewUser(t: Tables, kdf: Kdf, req: RegisterRequest, salt: string): User
    requires RegisterFieldsPresent(req)
  {
    User(t.lastUserId + 1, req.username.value, req.profImg.value, HashPassword(kdf, req.password.value, salt), salt)
  }

  /** The tables once the new user row is in. */
  function WithNewUser(t: Tables, kdf: Kdf, req: RegisterRequest, salt: string): Tables
    requires RegisterFieldsPresent(req)
  {
    t.(users := t.users[req.username.value := NewUser(t, kdf, req, salt)], lastUserId := t.lastUserId + 1)
  }

  /** Registration with a fresh `salt` and `token` (the outputs of `randomBytes`). */
  function Register(t: Tables, kdf: Kdf, req: RegisterRequest, salt: string, token: string, faults: set<Statement>): (o: Outcome)
    ensures o.response.status in {201, 400, 409, 500}
    ensures o.response.status == 400 <==> !RegisterFieldsPresent(req)
    ensures o.response.status == 409 <==>
              RegisterFieldsPresent(req) && SelectUser !in faults && req.username.value in t.users
    ensures o.response.status == 201 <==>
              && RegisterFieldsPresent(req) && req.username.value !in t.users
              && SelectUser !in faults && InsertUser !in faults && UpsertToken !in faults
    // Every failure but a failed token upsert leaves all tables as they were ...
    ensures o.response.status != 201 && o.response != TokenStoreError ==> o.tables == t
    // ... and a failed token upsert, the one failure after the insert, keeps the user row.
    ensures o.response == TokenStoreError <==>
              && RegisterFieldsPresent(req) && req.username.value !in t.users
              && SelectUser !in faults && InsertUser !in faults && UpsertToken in faults
    ensures o.response == TokenStoreError ==>
              RegisterFieldsPresent(req) && o.tables == WithNewUser(t, kdf, req, salt)
    ensures o.response.status == 201 ==>
              && o.tables == UpsertTokenRow(WithNewUser(t, kdf, req, salt), req.username.value, token)
              && o.response.body == Session("User registered successfully",
                   UserView(t.lastUserId + 1, req.username.value, req.profImg.value), token)
  {
    if !RegisterFieldsPresent(req) then Outcome(MissingFields, t)
    else
      var username := req.username.value;
      if SelectUser in faults then Outcome(DatabaseError, t)
      else if username in t.users then Outcome(UsernameTaken, t)
      else if InsertUser in faults then Outcome(DatabaseError, t)
      else
        var t1 := WithNewUser(t, kdf, req, salt);
        if UpsertToken in faults then Outcome(TokenStoreError, t1)
        else
          var view := UserView(t1.lastUserId, username, req.profImg.value);
          Outcome(Response(201, Session("User registered successfully", view, token)), UpsertTokenRow(t1, username, token))
  }

  lemma RegisterKeepsInvariant(t: Tables, kdf: Kdf, req: RegisterRequest, salt: string, token: string, faults: set<Statement>)
    requires Invariant(t)
    ensures Invariant(Register(t, kdf, req, salt, token, faults).tables)
  {
    var o := Register(t, kdf, req, salt, token, faults);
    if o.tables != t {
      var t1 := WithNewUser(t, kdf, req, salt);
      assert forall u :: u in t.users ==> t.users[u].id < t1.lastUserId;
      assert Invariant(t1);
    }
  }

  // ---------------------------------------------------------------------------
  // POST /login

  predicate LoginFieldsPresent(req: LoginRequest) {
    Truthy(req.username) && Truthy(req.password)
  }

  /** The password hashed with the stored salt equals the stored hash. */
  predicate PasswordMatches(t: Tables, kdf: Kdf, username: string, password: string) {
    username in t.users && HashPassword(kdf, password, t.users[username].salt) == t.users[username].password
  }

  /** Login with a fresh `token` (the output of `randomBytes`). */
  function Login(t: Tables, kdf: Kdf, req: LoginRequest, token: string, faults: set<Statement>): (o: Outcome)
    ensures o.response.status in {200, 400, 401, 500}
    ensures o.response.status == 400 <==> !LoginFieldsPresent(req)
    ensures o.response.status == 200 <==>
              && LoginFieldsPresent(req) && PasswordMatches(t, kdf, req.username.value, req.password.value)
              && SelectUser !in faults && UpsertToken !in faults
    ensures o.response.status == 401 <==>
              && LoginFieldsPresent(req) && SelectUser !in faults
              && !PasswordMatches(t, kdf, req.username.value, req.password.value)
    // An unknown user and a wrong password get the very same answer.
    ensures o.response.status == 401 ==> o.response == InvalidCredentials
    ensures o.response.status != 200 ==> o.tables == t
    ensures o.response.status == 200 ==>
              var row := t.users[req.username.value];
              && o.tables == UpsertTokenRow(t, req.username.value, token)
              && o.response.body == Session("Login successful", UserView(row.id, row.username, row.profImg), token)
  {
    if !LoginFieldsPresent(req) then Outcome(MissingCredentials, t)
    else
      var username := req.username.value;
      if SelectUser in faults then Outcome(DatabaseError, t)
      else if username !in t.users then Outcome(InvalidCredentials, t)
      else
        var row := t.users[username];
        if HashPassword(kdf, req.password.value, row.salt) != row.password then Outcome(InvalidCredentials, t)
        else if UpsertToken in faults then Outcome(TokenStoreError, t)
        else
          var view := UserView(row.id, row.username, row.profImg);
          Outcome(Response(200, Session("Login successful", view, token)), UpsertTokenRow(t, username, token))
  }

  lemma LoginKeepsInvariant(t: Tables, kdf: Kdf, req: LoginRequest, token: string, faults: set<Statement>)
    requires Invariant(t)
    ensures Invariant(Login(t, kdf, req, token, faults).tables)
  {
  }

  /** After a login the user's current token is the new one: the old one no longer matches,
      and every other user's token is untouched. */
  lemma LoginReplacesToken(t: Tables, kdf: Kdf, req: LoginRequest, token: string, faults: set<Statement>,
                           previous: string, other: string, otherToken: string)
    requires Login(t, kdf, req, token, faults).response.status == 200
    requires previous != token
    requires other != req.username.value
    ensures var after := Login(t, kdf, req, token, faults).tables;
            && TokenMatches(after, req.username.value, token)
            && !TokenMatches(after, req.username.value, previous)
            && (TokenMatches(after, other, otherToken) <==> TokenMatches(t, other, otherToken))
  {
  }

  /** An unknown username and a known username with the wrong password cannot be told apart:
      same response, same (unchanged) tables. */
  lemma LoginFailuresAlike(t: Tables, kdf: Kdf, unknown: LoginRequest, wrong: LoginRequest,
                           token1: string, token2: string, faults: set<Statement>)
    requires LoginFieldsPresent(unknown) && LoginFieldsPresent(wrong)
    requires SelectUser !in faults
    requires unknown.username.value !in t.users
    requires wrong.username.value in t.users
    requires !PasswordMatches(t, kdf, wrong.username.value, wrong.password.value)
    ensures Login(t, kdf, unknown, token1, faults) == Login(t, kdf, wrong, token2, faults) == Outcome(InvalidCredentials, t)
  {
  }

  // ---------------------------------------------------------------------------
  // POST /create-post

  predicate PostFieldsPresent(req: PostRequest) {
    Truthy(req.username) && Truthy(req.textContent) && Truthy(req.token)
  }

  /** The row a post creation appends at `Date.now() = nowMillis`: the author's current
      profile image, a falsy post image as null, and the time in whole seconds. */
  function NewPost(t: Tables, req: PostRequest, nowMillis: int): Post
    requires PostFieldsPresent(req) && req.username.value in t.users
  {
    Post(t.lastPostId + 1, req.username.value, t.users[req.username.value].profImg,
         OrNull(req.postImg), nowMillis / 1000, req.textContent.value)
  }

  function CreatePost(t: Tables, req: PostRequest, nowMillis: int, faults: set<Statement>): (o: Outcome)
    ensures o.response.status in {201, 400, 401, 404, 500}
    ensures o.response.status == 400 <==> !PostFieldsPresent(req)
    ensures o.response.status == 401 <==>
              && PostFieldsPresent(req) && SelectToken !in faults
              && !TokenMatches(t, req.username.value, req.token.value)
    ensures o.response.status == 404 <==>
              && PostFieldsPresent(req) && SelectToken !in faults && SelectUser !in faults
              && TokenMatches(t, req.username.value, req.token.value) && req.username.value !in t.users
    ensures o.response.status == 201 <==>
              && PostFieldsPresent(req) && TokenMatches(t, req.username.value, req.token.value)
              && req.username.value in t.users
              && SelectToken !in faults && SelectUser !in faults && InsertPost !in faults
    ensures o.response.status == 401 ==> o.response == InvalidToken
    ensures o.response.status != 201 ==> o.tables == t
    ensures o.response.status == 201 ==>
              var p := NewPost(t, req, nowMillis);
              && o.tables == t.(posts := t.posts + [p], lastPostId := p.id)
              && o.response.body == Created("Post created successfully",
                   PostView(p.id, p.username, p.profImg, p.postImg, p.textContent, p.datePosted))
              && p.datePosted * 1000 <= nowMillis < (p.datePosted + 1) * 1000
  {
    if !PostFieldsPresent(req) then Outcome(MissingFields, t)
    else
      var username := req.username.value;
      if SelectToken in faults then Outcome(DatabaseError, t)
      else if !TokenMatches(t, username, req.token.value) then Outcome(InvalidToken, t)
      else if SelectUser in faults then Outcome(DatabaseError, t)
      else if username !in t.users then Outcome(UserNotFound, t)
      else if InsertPost in faults then Outcome(DatabaseError, t)
      else
        var p := NewPost(t, req, nowMillis);
        var view := PostView(p.id, p.username, p.profImg, p.postImg, p.textContent, p.datePosted);
        Outcome(Response(201, Created("Post created successfully", view)), t.(posts := t.posts + [p], lastPostId := p.id))
  }

  lemma CreatePostKeepsInvariant(t: Tables, req: PostRequest, nowMillis: int, faults: set<Statement>)
    requires Invariant(t)
    ensures Invariant(CreatePost(t, req, nowMillis, faults).tables)
  {
  }

  /** Only registered users hold tokens, so the "User not found" answer never happens. */
  lemma CreatePostFindsAuthor(t: Tables, req: PostRequest, nowMillis: int, faults: set<Statement>)
    requires Invariant(t)
    ensures CreatePost(t, req, nowMillis, faults).response.status != 404
  {
  }

  // ---------------------------------------------------------------------------
  // GET /posts/{x}

  function ListPosts(t: Tables, url: string, faults: set<Statement>): Response {
    if SelectPosts in faults then DatabaseError
    else Response(200, Data(Feed.Page(t.posts, Feed.PageOfUrl(url))))
  }

  /** The feed answers 500 exactly when its query fails and 200 otherwise. A 200 answer
      holds the posts at offset `page * 10` (0 when negative) of the date order: at most 20,
      newest first, none past the end. Nothing changes. */
  lemma ListPostsAnswer(t: Tables, url: string, faults: set<Statement>)
    ensures SelectPosts in faults ==> ListPosts(t, url, faults) == DatabaseError
    ensures SelectPosts !in faults ==>
              var page := Feed.PageOfUrl(url);
              var data := Feed.Page(t.posts, page);
              var sorted := Feed.SortByDate(t.posts);
              var lo := if Feed.Offset(page) < 0 then 0 else Feed.Offset(page);
              && ListPosts(t, url, faults) == Response(200, Data(data))
              && |data| == (if lo >= |t.posts| then 0
                            else if |t.posts| - lo < Feed.PageSize then |t.posts| - lo
                            else Feed.PageSize)
              && (forall k :: 0 <= k < |data| ==> data[k] == Feed.ItemOf(sorted[lo + k]))
              && (forall i, j :: 0 <= i < j < |data| ==> data[i].datePosted >= data[j].datePosted)
  {
    Feed.PageIsWindow(t.posts, Feed.PageOfUrl(url));
    Feed.PageNewestFirst(t.posts, Feed.PageOfUrl(url));
  }

  // ---------------------------------------------------------------------------
  // Sessions across requests

  /** Registering, then logging in with the same credentials, succeeds; the login's token
      replaces the registration's, which no longer authorizes a post. */
  lemma RegisterThenLogin(t: Tables, kdf: Kdf, username: string, profImg: string, password: string,
                          salt: string, token1: string, token2: string, text: string, nowMillis: int)
    requires username != "" && profImg != "" && password != "" && text != ""
    requires username !in t.users
    requires token1 != token2 && token1 != ""
    ensures var reg := Register(t, kdf, RegisterRequest(Some(username), Some(profImg), Some(password)), salt, token1, {});
            var login := Login(reg.tables, kdf, LoginRequest(Some(username), Some(password)), token2, {});
            var post := CreatePost(login.tables, PostRequest(Some(username), None, Some(text), Some(token1)), nowMillis, {});
            && reg.response.status == 201
            && login.response.status == 200
            && login.response.body.token != reg.response.body.token
            && post == Outcome(InvalidToken, login.tables)
  {
    var req := RegisterRequest(Some(username), Some(profImg), Some(password));
    var reg := Register(t, kdf, req, salt, token1, {});
    assert reg.tables.users[username] == NewUser(t, kdf, req, salt);
  }

  /** A second registration of the same username is refused and changes nothing. */
  lemma RegisterTwice(t: Tables, kdf: Kdf, first: RegisterRequest, second: RegisterRequest,
                      salt1: string, salt2: string, token1: string, token2: string)
    requires RegisterFieldsPresent(first) && RegisterFieldsPresent(second)
    requires first.username == second.username
    requires Register(t, kdf, first, salt1, token1, {}).response.status == 201
    ensures var after := Register(t, kdf, first, salt1, token1, {}).tables;
            Register(after, kdf, second, salt2, token2, {}) == Outcome(UsernameTaken, after)
  {
  }
}
