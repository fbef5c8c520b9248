/** The feed query `GET /posts/{x}`: the page number parsed from the URL, the offset
    `page * 10`, and `SELECT * FROM posts ORDER BY date_posted DESC LIMIT 20 OFFSET ?`
    projected to the fields the client sees. */
module Feed {
  import opened Options
  import opened Js
  import opened Schema

  /** The LIMIT of the query. */
  const PageSize: nat := 20
  /** How far the OFFSET moves per page (less than PageSize, so pages overlap). */
  const PageStep: nat := 10

  /** A post as the feed returns it: no id, and a falsy post image as null. */
  datatype Item = Item(
    username: string,
    profImg: string,
    postImg: Option<string>,
    datePosted: int,
    textContent: string)

  function ItemOf(p: Post): Item {
    Item(p.username, p.profImg, OrNull(p.postImg), p.datePosted, p.textContent)
  }

  function Items(s: seq<Post>): (r: seq<Item>)
    ensures |r| == |s| && forall k :: 0 <= k < |s| ==> r[k] == ItemOf(s[k])
  {
    seq(|s|, k requires 0 <= k < |s| => ItemOf(s[k]))
  }

  // ---------------------------------------------------------------------------
  // Page number and offset

  /** The third '/'-separated piece of the URL (`req.url.split('/')[2]`), if there is one. */
  function PageSegment(url: string): Option<string> {
    var parts := Split(url, '/');
    if |parts| > 2 then Some(parts[2]) else None
  }

  /** `parseInt(x, 10) || 0`: NaN (also for an absent x) and 0 both give 0. */
  function PageNumber(x: Option<string>): int {
    match x
    case None => 0
    case Some(s) => ParseInt(s).GetOr(0)
  }

  function PageOfUrl(url: string): int {
    PageNumber(PageSegment(url))
  }

  function Offset(page: int): int {
    page * PageStep
  }

  /** The page segment of `/posts/x` is the part of x before its first '/'. */
  lemma PageSegmentOfPostsUrl(x: string)
    ensures PageSegment("/posts/" + x) == Some(Split(x, '/')[0])
  {
    assert "/posts/" + x == "" + ['/'] + ("posts" + ['/'] + x);
    SplitAfterPiece("", '/', "posts" + ['/'] + x);
    SplitAfterPiece("posts", '/', x);
  }

  /** `/posts/<n>` yields page n, whatever non-digit text follows the digits (a query
      string, or further path pieces as in `/posts/3/x`). */
  lemma PageOfPostsUrl(n: nat, rest: string)
    requires |rest| > 0 ==> !IsDigit(rest[0])
    ensures PageOfUrl("/posts/" + Decimal(n) + rest) == n
  {
    assert '/' !in Decimal(n) by {
      forall i | 0 <= i < |Decimal(n)| ensures Decimal(n)[i] != '/' {
        assert IsDigit(Decimal(n)[i]);
      }
    }
    assert "/posts/" + Decimal(n) + rest == "/posts/" + (Decimal(n) + rest);
    PageSegmentOfPostsUrl(Decimal(n) + rest);
    SplitFirstAfter(Decimal(n), rest, '/');
    var first := Split(rest, '/')[0];
    SplitFirstIsPrefix(rest, '/');
    assert |first| > 0 ==> first[0] == rest[0];
    ParseDecimal(n, first);
  }

  /** `/posts` has no page segment, so it yields page 0. */
  lemma PageOfBarePostsUrl()
    ensures PageOfUrl("/posts") == 0
  {
    var parts := ["", "posts"];
    assert parts[1..] == ["posts"];
    assert "/posts" == "" + ['/'] + "posts";
    SplitJoin(parts, '/');
  }

  /** A page segment without any digit (empty, `latest`, `-abc`, ` x`) yields page 0,
      whatever follows it after the next '/' (as in `/posts/latest/2`). */
  lemma PageOfNonNumericUrl(x: string)
    requires var segment := Split(x, '/')[0];
             forall i :: 0 <= i < |segment| ==> !IsDigit(segment[i])
    ensures PageOfUrl("/posts/" + x) == 0
  {
    PageSegmentOfPostsUrl(x);
  }

  /** A page segment that starts with something other than white space, a sign or a digit
      (`a1`, `latest2`) yields page 0, even when digits come later. */
  lemma PageOfLetterFirstUrl(x: string)
    requires var segment := Split(x, '/')[0];
             |segment| > 0 && !IsWhiteSpace(segment[0]) && !IsDigit(segment[0])
             && segment[0] != '-' && segment[0] != '+'
    ensures PageOfUrl("/posts/" + x) == 0
  {
    PageSegmentOfPostsUrl(x);
    var segment := Split(x, '/')[0];
    assert TrimStart(segment) == segment;
    assert DigitRun(segment) == [];
  }

  // ---------------------------------------------------------------------------
  // ORDER BY date_posted DESC

  ghost predicate NewestFirst(s: seq<Post>) {
    forall i, j :: 0 <= i < j < |s| ==> s[i].datePosted >= s[j].datePosted
  }

  /** Puts `p` into a newest-first sequence, before the first post not newer than it. */
  function InsertByDate(p: Post, s: seq<Post>): seq<Post> {
    if |s| == 0 then [p]
    else if s[0].datePosted <= p.datePosted then [p] + s
    else [s[0]] + InsertByDate(p, s[1..])
  }

  lemma {:induction false} InsertByDatePermutes(p: Post, s: seq<Post>)
    ensures multiset(InsertByDate(p, s)) == multiset(s) + multiset{p}
    decreases |s|
  {
    if |s| > 0 && s[0].datePosted > p.datePosted {
      InsertByDatePermutes(p, s[1..]);
      assert s == [s[0]] + s[1..];
    }
  }

  /** The posts newest first. SQL leaves the order of posts with equal dates open; this
      insertion sort keeps them in insertion order. */
  function SortByDate(s: seq<Post>): seq<Post> {
    if |s| == 0 then [] else InsertByDate(s[0], SortByDate(s[1..]))
  }

  lemma {:induction false} InsertByDateKeepsOrder(p: Post, s: seq<Post>)
    requires NewestFirst(s)
    ensures NewestFirst(InsertByDate(p, s))
    decreases |s|
  {
    if |s| > 0 && s[0].datePosted > p.datePosted {
      var tail := InsertByDate(p, s[1..]);
      InsertByDateKeepsOrder(p, s[1..]);
      InsertByDatePermutes(p, s[1..]);
      forall k | 0 <= k < |tail| ensures s[0].datePosted >= tail[k].datePosted {
        assert tail[k] in multiset(tail);
        assert tail[k] == p || tail[k] in multiset(s[1..]);
      }
    }
  }

  /** The sorted posts are newest first ... */
  lemma {:induction false} SortByDateOrders(s: seq<Post>)
    ensures NewestFirst(SortByDate(s))
  {
    if |s| > 0 {
      SortByDateOrders(s[1..]);
      InsertByDateKeepsOrder(s[0], SortByDate(s[1..]));
    }
  }

  /** ... and they are the same posts, each as often as in the table. */
  lemma {:induction false} SortByDatePermutes(s: seq<Post>)
    ensures multiset(SortByDate(s)) == multiset(s)
  {
    if |s| > 0 {
      SortByDatePermutes(s[1..]);
      InsertByDatePermutes(s[0], SortByDate(s[1..]));
      assert s == [s[0]] + s[1..];
    }
  }

  // ---------------------------------------------------------------------------
  // LIMIT 20 OFFSET ?

  /** The rows `LIMIT PageSize OFFSET offset` keeps; SQLite reads a negative OFFSET as 0. */
  function Window(s: seq<Post>, offset: int): (r: seq<Post>)
    ensures |r| <= PageSize
    ensures var lo := if offset < 0 then 0 else offset;
            |r| == (if lo >= |s| then 0 else if |s| - lo < PageSize then |s| - lo else PageSize)
    ensures offset >= |s| ==> r == []
    ensures forall k :: 0 <= k < |r| ==>
              var i := (if offset < 0 then 0 else offset) + k;
              i < |s| && r[k] == s[i]
  {
    var lo := if offset < 0 then 0 else if offset > |s| then |s| else offset;
    var hi := if lo + PageSize > |s| then |s| else lo + PageSize;
    s[lo..hi]
  }

  /** The feed for one page number. */
  function Page(posts: seq<Post>, page: int): seq<Item> {
    Items(Window(SortByDate(posts), Offset(page)))
  }

  /** A page is the run of the newest-first posts that starts at the offset (0 when the
      offset is negative) and holds PageSize posts, or fewer when the table ends first. */
  lemma PageIsWindow(posts: seq<Post>, page: int)
    ensures var lo := if Offset(page) < 0 then 0 else Offset(page);
            && |Page(posts, page)| == (if lo >= |posts| then 0
                                       else if |posts| - lo < PageSize then |posts| - lo
                                       else PageSize)
            && forall k :: 0 <= k < |Page(posts, page)| ==>
                 Page(posts, page)[k] == ItemOf(SortByDate(posts)[lo + k])
  {
    SortByDatePermutes(posts);
    assert |SortByDate(posts)| == |multiset(SortByDate(posts))| == |posts|;
  }

  /** A page never holds more than PageSize posts. */
  lemma PageBounded(posts: seq<Post>, page: int)
    ensures |Page(posts, page)| <= PageSize
    ensures |Page(posts, page)| <= |posts|
  {
    PageIsWindow(posts, page);
  }

  /** A page whose offset is at or past the end of the table is empty, not an error. */
  lemma PageEmptyPastEnd(posts: seq<Post>, page: int)
    requires Offset(page) >= |posts|
    ensures Page(posts, page) == []
  {
    PageIsWindow(posts, page);
  }

  /** Every page is newest first. */
  lemma PageNewestFirst(posts: seq<Post>, page: int)
    ensures forall i, j :: 0 <= i < j < |Page(posts, page)| ==>
              Page(posts, page)[i].datePosted >= Page(posts, page)[j].datePosted
  {
    PageIsWindow(posts, page);
    SortByDateOrders(posts);
  }

  /** Every item of a page shows a post of the table. */
  lemma PageFromTable(posts: seq<Post>, page: int)
    ensures forall k :: 0 <= k < |Page(posts, page)| ==> Page(posts, page)[k] in Items(posts)
  {
    PageIsWindow(posts, page);
    SortByDatePermutes(posts);
    var sorted := SortByDate(posts);
    var lo := if Offset(page) < 0 then 0 else Offset(page);
    forall k | 0 <= k < |Page(posts, page)| ensures Page(posts, page)[k] in Items(posts) {
      assert sorted[lo + k] in multiset(sorted);
      var j :| 0 <= j < |posts| && posts[j] == sorted[lo + k];
      assert Items(posts)[j] == Page(posts, page)[k];
    }
  }

  /** Consecutive pages overlap by PageSize - PageStep = 10 posts: the first ten items of
      page n + 1 are the last ten of page n, as far as page n has them. */
  lemma PagesOverlap(posts: seq<Post>, page: int)
    requires page >= 0
    ensures forall k {:trigger Page(posts, page + 1)[k]} ::
              0 <= k < PageStep && PageStep + k < |Page(posts, page)| ==>
              k < |Page(posts, page + 1)| && Page(posts, page + 1)[k] == Page(posts, page)[PageStep + k]
  {
    PageIsWindow(posts, page);
    PageIsWindow(posts, page + 1);
    assert Offset(page + 1) == Offset(page) + PageStep;
  }

  /** A negative page number reads the same rows as page 0. */
  lemma NegativePage(posts: seq<Post>, page: int)
    requires page < 0
    ensures Page(posts, page) == Page(posts, 0)
  {
  }

  /** A post of the examples below: the n-th post, made at time `date`. */
  function Sample(n: nat, date: int): Post {
    Post(n, "alice", "a.png", None, date, "hello")
  }

  /** Posts dated 5, 3, 4, 1, 2 come back as 5, 4, 3, 2, 1 on page 0. */
  lemma FiveDatesPage()
    ensures Page([Sample(1, 5), Sample(2, 3), Sample(3, 4), Sample(4, 1), Sample(5, 2)], 0)
         == Items([Sample(1, 5), Sample(3, 4), Sample(2, 3), Sample(5, 2), Sample(4, 1)])
  {
    var s := [Sample(1, 5), Sample(2, 3), Sample(3, 4), Sample(4, 1), Sample(5, 2)];
    var sorted := [Sample(1, 5), Sample(3, 4), Sample(2, 3), Sample(5, 2), Sample(4, 1)];
    assert SortByDate(s) == sorted;
    assert Window(sorted, 0) == sorted;
  }
}
