/** The request handlers as they run: a store object whose tables the handlers change one
    SQL statement at a time. Each handler is proved to do what the matching function of
    Handlers says, and to keep the store's invariant. */
module Server {
  import opened Options
  import opened Js
  import opened Schema
  import opened Handlers
  import Feed

  class Database {
    /** PBKDF2, fixed for the life of the store. */
    const kdf: Kdf
    var users: map<string, User>
    var tokens: map<string, string>
    var posts: seq<Post>
    var lastUserId: nat
    var lastPostId: nat

    /** The content of the three tables and the id sequences. */
    function State(): Tables
      reads this
    {
      Tables(users, tokens, posts, lastUserId, lastPostId)
    }

    ghost predicate Valid()
      reads this
    {
      Invariant(State())
    }

    /** A store whose tables have just been created. */
    constructor (kdf: Kdf)
      ensures Valid() && State() == Empty && this.kdf == kdf
    {
      this.kdf := kdf;
      users, tokens, posts := map[], map[], [];
      lastUserId, lastPostId := 0, 0;
    }

    // -------------------------------------------------------------------------
    // One method per statement

    /** `SELECT * FROM users WHERE username = ?`. */
    method SelectUser(username: string) returns (row: Option<User>)
      ensures row.Some? <==> username in users
      ensures row.Some? ==> row.value == users[username]
    {
      row := if username in users then Some(users[username]) else None;
    }

    /** `SELECT * FROM tokens WHERE username = ? AND token = ?` finds a row. */
    method SelectToken(username: string, token: string) returns (found: bool)
      ensures found <==> TokenMatches(State(), username, token)
    {
      found := username in tokens && tokens[username] == token;
    }

    /** `INSERT INTO users (username, prof_img, password, salt) VALUES (?, ?, ?, ?)`; the
        caller has checked that the UNIQUE username is not taken. */
    method InsertUser(username: string, profImg: string, hash: string, salt: string) returns (id: nat)
      requires username !in users
      modifies this
      ensures id == old(lastUserId) + 1 && lastUserId == id
      ensures users == old(users)[username := User(id, username, profImg, hash, salt)]
      ensures tokens == old(tokens) && posts == old(posts) && lastPostId == old(lastPostId)
    {
      id := lastUserId + 1;
      users := users[username := User(id, username, profImg, hash, salt)];
      lastUserId := id;
    }

    /** `INSERT INTO tokens (username, token) VALUES (?, ?)
        ON CONFLICT(username) DO UPDATE SET token = excluded.token`. */
    method UpsertToken(username: string, token: string)
      modifies this
      ensures State() == UpsertTokenRow(old(State()), username, token)
    {
      tokens := tokens[username := token];
    }

    /** `INSERT INTO posts (username, prof_img, post_img, date_posted, text_content)`. */
    method InsertPost(username: string, profImg: string, postImg: Option<string>, datePosted: int, textContent: string)
      returns (id: nat)
      modifies this
      ensures id == old(lastPostId) + 1 && lastPostId == id
      ensures posts == old(posts) + [Post(id, username, profImg, postImg, datePosted, textContent)]
      ensures users == old(users) && tokens == old(tokens) && lastUserId == old(lastUserId)
    {
      id := lastPostId + 1;
      posts := posts + [Post(id, username, profImg, postImg, datePosted, textContent)];
      lastPostId := id;
    }

    // -------------------------------------------------------------------------
    // The handlers

    /** `POST /register-user`; `salt` and `token` are this request's `randomBytes` output. */
    method Register(req: RegisterRequest, salt: string, token: string, faults: set<Statement>) returns (resp: Response)
      requires Valid()
      modifies this
      ensures Valid()
      ensures Outcome(resp, State()) == Handlers.Register(old(State()), kdf, req, salt, token, faults)
    {
      ghost var before := State();
      RegisterKeepsInvariant(before, kdf, req, salt, token, faults);
      if !RegisterFieldsPresent(req) {
        return MissingFields;
      }
      var username, profImg, password := req.username.value, req.profImg.value, req.password.value;
      if Statement.SelectUser in faults {
        return DatabaseError;
      }
      var existing := SelectUser(username);
      if existing.Some? {
        return UsernameTaken;
      }
      var hash := HashPassword(kdf, password, salt);
      if Statement.InsertUser in faults {
        return DatabaseError;
      }
      var id := InsertUser(username, profImg, hash, salt);
      assert State() == WithNewUser(before, kdf, req, salt);
      if Statement.UpsertToken in faults {
        return TokenStoreError;
      }
      UpsertToken(username, token);
      resp := Response(201, Session("User registered successfully", UserView(id, username, profImg), token));
    }

    /** `POST /login`; `token` is this request's `randomBytes` output. */
    method Login(req: LoginRequest, token: string, faults: set<Statement>) returns (resp: Response)
      requires Valid()
      modifies this
      ensures Valid()
      ensures Outcome(resp, State()) == Handlers.Login(old(State()), kdf, req, token, faults)
    {
      LoginKeepsInvariant(State(), kdf, req, token, faults);
      if !LoginFieldsPresent(req) {
        return MissingCredentials;
      }
      var username, password := req.username.value, req.password.value;
      if Statement.SelectUser in faults {
        return DatabaseError;
      }
      var row := SelectUser(username);
      if row.None? {
        return InvalidCredentials;
      }
      var hashed := HashPassword(kdf, password, row.value.salt);
      if hashed != row.value.password {
        return InvalidCredentials;
      }
      if Statement.UpsertToken in faults {
        return TokenStoreError;
      }
      UpsertToken(username, token);
      resp := Response(200, Session("Login successful", UserView(row.value.id, row.value.username, row.value.profImg), token));
    }

    /** `POST /create-post` at `Date.now() = nowMillis`. */
    method CreatePost(req: PostRequest, nowMillis: int, faults: set<Statement>) returns (resp: Response)
      requires Valid()
      modifies this
      ensures Valid()
      ensures Outcome(resp, State()) == Handlers.CreatePost(old(State()), req, nowMillis, faults)
      ensures resp.status != 404
    {
      CreatePostKeepsInvariant(State(), req, nowMillis, faults);
      CreatePostFindsAuthor(State(), req, nowMillis, faults);
      if !PostFieldsPresent(req) {
        return MissingFields;
      }
      var username, textContent, token := req.username.value, req.textContent.value, req.token.value;
      if Statement.SelectToken in faults {
        return DatabaseError;
      }
      var found := SelectToken(username, token);
      if !found {
        return InvalidToken;
      }
      if Statement.SelectUser in faults {
        return DatabaseError;
      }
      var userRow := SelectUser(username);
      if userRow.None? {
        return UserNotFound;
      }
      var profImg := userRow.value.profImg;
      var datePosted := nowMillis / 1000;
      var postImage := OrNull(req.postImg);
      if Statement.InsertPost in faults {
        return DatabaseError;
      }
      var id := InsertPost(username, profImg, postImage, datePosted, textContent);
      resp := Response(201, Created("Post created successfully",
                                    PostView(id, username, profImg, postImage, textContent, datePosted)));
    }

    /** `GET /posts/{x}`: reads the posts table and changes nothing. */
    method ListPosts(url: string, faults: set<Statement>) returns (resp: Response)
      ensures resp == Handlers.ListPosts(State(), url, faults)
      ensures resp.status == 200 <==> Statement.SelectPosts !in faults
      ensures resp.status == 200 ==> resp.body.Data? && |resp.body.data| <= Feed.PageSize
    {
      ListPostsAnswer(State(), url, faults);
      if Statement.SelectPosts in faults {
        return DatabaseError;
      }
      var page := Feed.PageOfUrl(url);
      var offset := Feed.Offset(page);
      var rows := Feed.Window(Feed.SortByDate(posts), offset);
      resp := Response(200, Data(Feed.Items(rows)));
    }
  }
}
