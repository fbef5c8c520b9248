/** The three tables of the store (users, tokens, posts) as values, and the invariant the
    request handlers keep over them. */
module Schema {
  import opened Options

  /** A row of `users`; `password` holds the hex PBKDF2 digest, never the password. */
  datatype User = User(id: nat, username: string, profImg: string, password: string, salt: string)

  /** A row of `posts`; `profImg` is the author's profile image when the post was made. */
  datatype Post = Post(
    id: nat,
    username: string,
    profImg: string,
    postImg: Option<string>,
    datePosted: int,
    textContent: string)

  /** The whole store. `users` and `tokens` are keyed by the UNIQUE username column, so each
      holds at most one row per username; `posts` is in insertion (rowid) order. The two
      counters play the part of SQLite's AUTOINCREMENT sequence for `users` and `posts`. */
  datatype Tables = Tables(
    users: map<string, User>,
    tokens: map<string, string>,
    posts: seq<Post>,
    lastUserId: nat,
    lastPostId: nat)

  /** The tables as they are created: all empty. */
  const Empty: Tables := Tables(map[], map[], [], 0, 0)

  /** What the handlers keep true of the store: a user row is filed under its own username
      and has a unique id already handed out; only registered users hold a token; every post
      has a registered author and an id handed out, and ids grow in insertion order. */
  ghost predicate Invariant(t: Tables) {
    && (forall u :: u in t.users ==> t.users[u].username == u && 0 < t.users[u].id <= t.lastUserId)
    && (forall u, v :: u in t.users && v in t.users && u != v ==> t.users[u].id != t.users[v].id)
    && t.tokens.Keys <= t.users.Keys
    && (forall i :: 0 <= i < |t.posts| ==>
          0 < t.posts[i].id <= t.lastPostId && t.posts[i].username in t.users)
    && (forall i, j :: 0 <= i < j < |t.posts| ==> t.posts[i].id < t.posts[j].id)
  }

  lemma EmptyInvariant()
    ensures Invariant(Empty)
  {
  }
}
