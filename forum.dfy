/** The forum router: posts listed with filters and comment counts, a post
    with its comments, new posts and comments, and upvotes, over the
    `forum_posts` and `forum_comments` tables. */
module Forum {
  import opened Js
  import opened Sql
  import opened Http

  // ---------------------------------------------------------------------
  // Listing posts

  /** `%${search}%` */
  function SearchPattern(search: Json): Json {
    Str("%" + ToJsString(search) + "%")
  }

  /** The posts GET /posts returns, in words: the category by equality when
      given, and the search text matched case-insensitively against the
      title or the content when given. */
  predicate PostMatches(r: Row, q: map<string, Json>) {
    && (Truthy(Field(q, "category")) ==> Keeps(Equals("category"), r, Field(q, "category")))
    && (Truthy(Field(q, "search")) ==> SearchKeeps(r, "title", "content", SearchPattern(Field(q, "search"))))
  }

  /** The WHERE clause of GET /posts, grown from `WHERE 1=1`. */
  method BuildPostQuery(q: map<string, Json>) returns (w: Where)
    ensures Numbered(w)
    ensures forall r :: Holds(r, w) <==> PostMatches(r, q)
    ensures !Truthy(Field(q, "category")) && !Truthy(Field(q, "search")) ==> w.params == []
    ensures Truthy(Field(q, "search")) ==>
      |w.params| >= 2 && w.params[|w.params| - 2] == w.params[|w.params| - 1] == SearchPattern(Field(q, "search"))
  {
    var category, search := Field(q, "category"), Field(q, "search");
    var paramCount := 0;
    w := Where([], []);
    w, paramCount := AndFilterIf(w, paramCount, Truthy(category), Equals("category"), category);
    w, paramCount := AndSearchIf(w, paramCount, Truthy(search), "title", "content", SearchPattern(search));
  }

  /** A search text without LIKE metacharacters finds the posts whose title
      or content contains it, ignoring case. */
  lemma SearchIsSubstring(r: Row, search: Json)
    requires Literal(ToJsString(search))
    ensures SearchKeeps(r, "title", "content", SearchPattern(search)) <==>
      || (Col(r, "title").Str? && Includes(Lower(Col(r, "title").s), Lower(ToJsString(search))))
      || (Col(r, "content").Str? && Includes(Lower(Col(r, "content").s), Lower(ToJsString(search))))
  {
    var term := ToJsString(search);
    if Col(r, "title").Str? {
      ILikeContains(Col(r, "title").s, term);
    }
    if Col(r, "content").Str? {
      ILikeContains(Col(r, "content").s, term);
    }
  }

  // ---------------------------------------------------------------------
  // Comment counts

  /** A listed post with its `comment_count`. */
  function WithCount(post: Row, count: nat): Row {
    post["comment_count" := Num(count)]
  }

  /** The per-post `SELECT COUNT(*) ... WHERE post_id = $1` of GET /posts,
      run one post after the other. */
  method AddCommentCounts(posts: seq<Row>, comments: seq<Row>) returns (out: seq<Row>)
    ensures |out| == |posts|
    ensures forall i :: 0 <= i < |posts| ==>
      out[i] == WithCount(posts[i], CountWhere(comments, "post_id", Col(posts[i], "id")))
  {
    out := [];
    for i := 0 to |posts|
      invariant |out| == i
      invariant forall j :: 0 <= j < i ==>
        out[j] == WithCount(posts[j], CountWhere(comments, "post_id", Col(posts[j], "id")))
    {
      var post := posts[i];
      var counted := Select(comments, WhereEq("post_id", Col(post, "id")));
      SelectCount(comments, "post_id", Col(post, "id"));
      out := out + [WithCount(post, |counted|)];
    }
  }

  // ---------------------------------------------------------------------
  // New rows

  /** POST /posts rejects a body without a truthy category, title and
      content. */
  predicate PostAccepted(body: map<string, Json>) {
    Truthy(Field(body, "category")) && Truthy(Field(body, "title")) && Truthy(Field(body, "content"))
  }

  /** The row POST /posts inserts; id, upvotes and created_at are the
      table's defaults. */
  function NewPost(body: map<string, Json>, id: nat, now: int): Row {
    map[
      "id" := Num(id),
      "user_id" := OrNull(Field(body, "user_id")),
      "category" := Field(body, "category"),
      "title" := Field(body, "title"),
      "content" := Field(body, "content"),
      "upvotes" := Num(0),
      "created_at" := Num(now)
    ]
  }

  /** The row POST /posts/:id/comments inserts. */
  function NewComment(postId: Json, body: map<string, Json>, id: nat, now: int): Row {
    map[
      "id" := Num(id),
      "post_id" := postId,
      "user_id" := OrNull(Field(body, "user_id")),
      "parent_id" := OrNull(Field(body, "parent_id")),
      "content" := Field(body, "content"),
      "created_at" := Num(now)
    ]
  }

  /** New posts and comments: a falsy user_id or parent_id is stored as
      null, and the texts as sent. */
  lemma NewRowDefaults(body: map<string, Json>, postId: Json, id: nat, now: int)
    ensures var p := NewPost(body, id, now);
      && (Col(p, "user_id") == Null <==> !Truthy(Field(body, "user_id")))
      && Col(p, "category") == Field(body, "category") && Col(p, "title") == Field(body, "title")
      && Col(p, "content") == Field(body, "content") && Col(p, "upvotes") == Num(0)
    ensures var c := NewComment(postId, body, id, now);
      && (Col(c, "user_id") == Null <==> !Truthy(Field(body, "user_id")))
      && (Col(c, "parent_id") == Null <==> !Truthy(Field(body, "parent_id")))
      && Col(c, "post_id") == postId && Col(c, "content") == Field(body, "content")
  {
  }

  // ---------------------------------------------------------------------
  // Upvotes

  /** `upvotes + 1`: NULL stays NULL. */
  function PlusOne(v: Json): (r: Json)
    ensures v.Num? ==> r == Num(v.n + 1)
    ensures !v.Num? ==> r == Null
  {
    if v.Num? then Num(v.n + 1) else Null
  }

  function Upvoted(r: Row): Row {
    r["upvotes" := PlusOne(Col(r, "upvotes"))]
  }

  /** `UPDATE forum_posts SET upvotes = upvotes + 1 WHERE w` */
  function UpvoteWhere(rows: seq<Row>, w: Where): (out: seq<Row>)
    ensures |out| == |rows|
  {
    seq(|rows|, i requires 0 <= i < |rows| => if Holds(rows[i], w) then Upvoted(rows[i]) else rows[i])
  }

  /** The upvote by id touches the one post the id lookup finds, and nothing
      when there is none. */
  lemma UpvoteStatement(rows: seq<Row>, next: nat, id: Json)
    requires TableValid(rows, next)
    ensures IndexOfId(rows, id).None? ==> UpvoteWhere(rows, WhereEq("id", id)) == rows
    ensures IndexOfId(rows, id).Some? ==>
      var k := IndexOfId(rows, id).value;
      && UpvoteWhere(rows, WhereEq("id", id)) == rows[k := Upvoted(rows[k])]
      && TableValid(rows[k := Upvoted(rows[k])], next)
  {
    var w := WhereEq("id", id);
    if IndexOfId(rows, id).Some? {
      var k := IndexOfId(rows, id).value;
      KeyMatchesOnly(rows, w, "id", 0, 1, k);
      ReplaceKeepsValid(rows, next, k, Upvoted(rows[k]));
    }
  }

  // ---------------------------------------------------------------------
  // The router

  class ForumApi {
    var posts: seq<Row>
    var nextPostId: nat
    var comments: seq<Row>
    var nextCommentId: nat

    predicate Valid()
      reads this
    {
      TableValid(posts, nextPostId) && TableValid(comments, nextCommentId)
    }

    constructor()
      ensures Valid() && posts == [] && comments == []
    {
      posts, nextPostId := [], 0;
      comments, nextCommentId := [], 0;
    }

    /** GET /posts */
    method ListPosts(q: map<string, Json>) returns (reply: Reply, listed: seq<Row>, counted: seq<Row>)
      ensures reply == Success(200, RowsJson(counted))
      ensures SortedBy(listed, Desc("created_at"))
      ensures multiset(listed) <= multiset(posts)
      ensures forall r :: r in listed <==> r in posts && PostMatches(r, q)
      ensures |counted| == |listed|
      ensures forall i :: 0 <= i < |listed| ==>
        counted[i] == WithCount(listed[i], CountWhere(comments, "post_id", Col(listed[i], "id")))
    {
      var w := BuildPostQuery(q);
      listed := Query(posts, w, Desc("created_at"));
      QuerySpec(posts, w, Desc("created_at"));
      counted := AddCommentCounts(listed, comments);
      reply := Success(200, RowsJson(counted));
    }

    /** GET /posts/:id */
    method GetPost(id: Json) returns (reply: Reply, thread: seq<Row>)
      ensures IndexOfId(posts, id).None? ==> reply == Failure(404, "Post not found") && thread == []
      ensures IndexOfId(posts, id).Some? ==>
        && reply == Success(200, Obj(posts[IndexOfId(posts, id).value]["comments" := RowsJson(thread)]))
        && SortedBy(thread, Asc("created_at"))
        && multiset(thread) <= multiset(comments)
        && forall r :: r in thread <==> r in comments && Holds(r, WhereEq("post_id", id))
    {
      thread := [];
      var found := Select(posts, WhereEq("id", id));
      SelectFirst(posts, WhereEq("id", id));
      if found == [] {
        return Failure(404, "Post not found"), thread;
      }
      thread := Query(comments, WhereEq("post_id", id), Asc("created_at"));
      QuerySpec(comments, WhereEq("post_id", id), Asc("created_at"));
      reply := Success(200, Obj(found[0]["comments" := RowsJson(thread)]));
    }

    /** POST /posts */
    method CreatePost(body: map<string, Json>, now: int) returns (reply: Reply)
      requires Valid()
      modifies this
      ensures Valid() && comments == old(comments) && nextCommentId == old(nextCommentId)
      ensures !PostAccepted(body) ==>
        reply == Failure(400, "Category, title, and content are required") && posts == old(posts) && nextPostId == old(nextPostId)
      ensures PostAccepted(body) ==>
        && posts == old(posts) + [NewPost(body, old(nextPostId), now)]
        && nextPostId == old(nextPostId) + 1
        && reply == Success(201, Obj(NewPost(body, old(nextPostId), now)))
    {
      if !Truthy(Field(body, "category")) || !Truthy(Field(body, "title")) || !Truthy(Field(body, "content")) {
        return Failure(400, "Category, title, and content are required");
      }
      var row := NewPost(body, nextPostId, now);
      AppendFresh(posts, nextPostId, row);
      posts := posts + [row];
      nextPostId := nextPostId + 1;
      reply := Success(201, Obj(row));
    }

    /** POST /posts/:id/comments */
    method CreateComment(postId: Json, body: map<string, Json>, now: int) returns (reply: Reply)
      requires Valid()
      modifies this
      ensures Valid() && posts == old(posts) && nextPostId == old(nextPostId)
      ensures !Truthy(Field(body, "content")) ==>
        reply == Failure(400, "Content is required") && comments == old(comments) && nextCommentId == old(nextCommentId)
      ensures Truthy(Field(body, "content")) ==>
        && comments == old(comments) + [NewComment(postId, body, old(nextCommentId), now)]
        && nextCommentId == old(nextCommentId) + 1
        && reply == Success(201, Obj(NewComment(postId, body, old(nextCommentId), now)))
    {
      if !Truthy(Field(body, "content")) {
        return Failure(400, "Content is required");
      }
      var row := NewComment(postId, body, nextCommentId, now);
      AppendFresh(comments, nextCommentId, row);
      comments := comments + [row];
      nextCommentId := nextCommentId + 1;
      reply := Success(201, Obj(row));
    }

    /** POST /posts/:id/upvote */
    method Upvote(id: Json) returns (reply: Reply)
      requires Valid()
      modifies this
      ensures Valid() && comments == old(comments) && nextPostId == old(nextPostId)
      ensures IndexOfId(old(posts), id).None? ==> reply == Failure(404, "Post not found") && posts == old(posts)
      ensures IndexOfId(old(posts), id).Some? ==>
        var k := IndexOfId(old(posts), id).value;
        && posts == old(posts)[k := Upvoted(old(posts)[k])]
        && reply == Success(200, Obj(posts[k]))
    {
      var w := WhereEq("id", id);
      UpvoteStatement(posts, nextPostId, id);
      var found := FindFirst(posts, w);
      posts := UpvoteWhere(posts, w);
      if found.None? {
        return Failure(404, "Post not found");
      }
      reply := Success(200, Obj(posts[found.value]));
    }
  }

  /** An upvote adds exactly one to a numeric counter and changes no other
      column of the post. */
  lemma UpvoteAddsOne(r: Row)
    ensures Col(r, "upvotes").Num? ==> Col(Upvoted(r), "upvotes") == Num(Col(r, "upvotes").n + 1)
    ensures forall c :: c != "upvotes" ==> Col(Upvoted(r), c) == Col(r, c)
  {
  }
}
