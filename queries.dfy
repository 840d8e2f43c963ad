/**
 * The read-only handlers: `getBlogs`, `getBlogsByUser`, `getBlogComments` and
 * `getUserComments`. Each is a filter, a sort on a timestamp and, for three of
 * them, a page window, over the stored records.
 */
module Queries {
  import opened Wrappers
  import opened Common
  import Text
  import opened BlogSchema
  import opened CommentSchema
  import opened Database
  import opened Listing

  // ---------------------------------------------------------------- blog listings

  /** The query string of `GET /api/blogs`. */
  datatype BlogQuery = BlogQuery(
    page: Option<string>, limit: Option<string>,
    status: Option<string>, tags: Option<string>, search: Option<string>)

  /** `{ tags: { $in: wanted } }`: some tag of the blog is one of the wanted ones. */
  predicate HasAnyTag(b: Blog, wanted: seq<string>) {
    exists i :: 0 <= i < |wanted| && wanted[i] in b.tags
  }

  /**
   * The filter `getBlogs` builds: the status when one is given, any of the
   * comma-separated tags when given, and the search text in the title or the
   * content, ignoring case, when given.
   */
  predicate MatchesQuery(b: Blog, q: BlogQuery) {
    && (Text.Truthy(q.status) ==> b.status == q.status.value)
    && (Text.Truthy(q.tags) ==> HasAnyTag(b, Text.Split(q.tags.value, ',')))
    && (Text.Truthy(q.search) ==>
          Text.ContainsIgnoringCase(b.title, q.search.value) || Text.ContainsIgnoringCase(b.content, q.search.value))
  }

  /** `sort({ createdAt: -1 })`: newest first. */
  function NewestBlogFirst(b: Blog): int {
    -(b.createdAt as int)
  }

  ghost predicate BlogsNewestFirst(bs: seq<Blog>) {
    forall i, j :: 0 <= i < j < |bs| ==> bs[i].createdAt >= bs[j].createdAt
  }

  /**
   * `getBlogs`: one page of the blogs that match the query, newest first, with
   * the number of all matching blogs; every status is listed unless one is asked for.
   */
  function GetBlogs(bs: Blogs, nextBlogId: nat, q: BlogQuery): (r: Outcome<Page<Blog>>)
    ensures r.Failure? ==> r.status == ServerError
    ensures r.Success? <==> Skip(QueryNumber(q.page, 1), QueryNumber(q.limit, 10)) >= 0
    ensures r.Success? ==>
      && (forall i :: 0 <= i < |r.value.items| ==> MatchesQuery(r.value.items[i], q) && r.value.items[i] in bs.Values)
      && BlogsNewestFirst(r.value.items)
      && r.value.total == |Matching(bs, nextBlogId, b => MatchesQuery(b, q))|
      && |r.value.items| <= Abs(QueryNumber(q.limit, 10))
      && r.value.page == QueryNumber(q.page, 1)
      && r.value.pages == Pages(r.value.total, QueryNumber(q.limit, 10))
      && r.value.items == Window(Select(bs, nextBlogId, b => MatchesQuery(b, q), NewestBlogFirst),
                                 Skip(r.value.page, QueryNumber(q.limit, 10)), QueryNumber(q.limit, 10))
  {
    var ordered := Select(bs, nextBlogId, b => MatchesQuery(b, q), NewestBlogFirst);
    var r := Paginate(ordered, q.page, q.limit);
    if r.Success? then
      WindowSorted(ordered, Skip(r.value.page, QueryNumber(q.limit, 10)), QueryNumber(q.limit, 10), NewestBlogFirst);
      r
    else r
  }

  /** The filter of `getBlogsByUser`: that author's published blogs. */
  predicate PublishedBy(b: Blog, user: UserId) {
    b.author == user && b.status == Published
  }

  /** `getBlogsByUser`: one page of the author's published blogs, newest first, with their number. */
  function GetBlogsByUser(bs: Blogs, nextBlogId: nat, user: UserId, page: Option<string>, limit: Option<string>)
    : (r: Outcome<Page<Blog>>)
    ensures r.Failure? ==> r.status == ServerError
    ensures r.Success? <==> Skip(QueryNumber(page, 1), QueryNumber(limit, 10)) >= 0
    ensures r.Success? ==>
      && (forall i :: 0 <= i < |r.value.items| ==> PublishedBy(r.value.items[i], user) && r.value.items[i] in bs.Values)
      && BlogsNewestFirst(r.value.items)
      && r.value.total == |Matching(bs, nextBlogId, b => PublishedBy(b, user))|
      && r.value.page == QueryNumber(page, 1)
      && r.value.pages == Pages(r.value.total, QueryNumber(limit, 10))
      && r.value.items == Window(Select(bs, nextBlogId, b => PublishedBy(b, user), NewestBlogFirst),
                                 Skip(r.value.page, QueryNumber(limit, 10)), QueryNumber(limit, 10))
  {
    var ordered := Select(bs, nextBlogId, b => PublishedBy(b, user), NewestBlogFirst);
    var r := Paginate(ordered, page, limit);
    if r.Success? then
      WindowSorted(ordered, Skip(r.value.page, QueryNumber(limit, 10)), QueryNumber(limit, 10), NewestBlogFirst);
      r
    else r
  }

  /** Drafts never appear in a user's listing, whoever wrote them. */
  lemma UserListingHasNoDrafts(bs: Blogs, nextBlogId: nat, user: UserId, page: Option<string>, limit: Option<string>)
    requires GetBlogsByUser(bs, nextBlogId, user, page, limit).Success?
    ensures forall b :: b in GetBlogsByUser(bs, nextBlogId, user, page, limit).value.items ==> b.status != Draft
  {
    var items := GetBlogsByUser(bs, nextBlogId, user, page, limit).value.items;
    forall b | b in items ensures b.status != Draft {
      var i :| 0 <= i < |items| && items[i] == b;
      assert PublishedBy(items[i], user);
    }
  }

  // ---------------------------------------------------------------- comment listings

  /** A top-level comment with its replies populated. */
  datatype Thread = Thread(comment: Comment, replies: seq<Comment>)

  /** `populate('replies')`: the reply records in the order of the ids; an id with no record is dropped. */
  function Populate(cs: Comments, ids: seq<CommentId>): (r: seq<Comment>)
    ensures |r| <= |ids|
    ensures (forall k :: k in ids ==> k in cs) ==> |r| == |ids| && forall i :: 0 <= i < |ids| ==> r[i] == cs[ids[i]]
  {
    if ids == [] then []
    else if ids[0] in cs then [cs[ids[0]]] + Populate(cs, ids[1..])
    else Populate(cs, ids[1..])
  }

  /** The filter of `getBlogComments`: on that blog, top-level, not deleted. */
  predicate TopLevelOn(c: Comment, blog: BlogId) {
    c.blog == blog && c.parentComment.None? && !c.isDeleted
  }

  function OldestCommentFirst(c: Comment): int {
    c.createdAt
  }

  /** The top-level comments of some threads, in order. */
  function Heads(ts: seq<Thread>): (r: seq<Comment>)
    ensures |r| == |ts| && forall i :: 0 <= i < |ts| ==> r[i] == ts[i].comment
  {
    if ts == [] then [] else [ts[0].comment] + Heads(ts[1..])
  }

  /** Each top-level comment with its populated replies. */
  function Threads(cs: Comments, top: seq<Comment>): (ts: seq<Thread>)
    ensures Heads(ts) == top
    ensures forall i :: 0 <= i < |ts| ==> ts[i].replies == Populate(cs, top[i].replies)
  {
    if top == [] then [] else [Thread(top[0], Populate(cs, top[0].replies))] + Threads(cs, top[1..])
  }

  /**
   * `getBlogComments`: 404 unless the blog exists; otherwise every top-level,
   * undeleted comment of the blog, oldest first, each with all its replies,
   * deleted or not.
   */
  function GetBlogComments(bs: Blogs, cs: Comments, nextCommentId: nat, blog: BlogId): (r: Outcome<seq<Thread>>)
    ensures r.Failure? <==> blog !in bs
    ensures r.Failure? ==> r.status == NotFound && r.message == "Blog not found"
  {
    if blog !in bs then Failure(NotFound, "Blog not found")
    else Success(Threads(cs, Select(cs, nextCommentId, c => TopLevelOn(c, blog), OldestCommentFirst)))
  }

  /**
   * What `getBlogComments` lists for an existing blog: exactly its top-level,
   * undeleted comments, oldest first, each with its replies populated.
   */
  lemma BlogCommentsListed(bs: Blogs, cs: Comments, nextCommentId: nat, blog: BlogId)
    requires blog in bs
    ensures var ts := GetBlogComments(bs, cs, nextCommentId, blog).value;
      var top := Heads(ts);
      && |top| == |Matching(cs, nextCommentId, c => TopLevelOn(c, blog))|
      && SortedBy(top, OldestCommentFirst)
      && (forall i :: 0 <= i < |top| ==> TopLevelOn(top[i], blog) && top[i] in cs.Values)
      && (forall k :: k in cs && k < nextCommentId && TopLevelOn(cs[k], blog) ==> cs[k] in top)
      && (forall i :: 0 <= i < |ts| ==> ts[i].replies == Populate(cs, top[i].replies))
  {
    var top := Select(cs, nextCommentId, c => TopLevelOn(c, blog), OldestCommentFirst);
    var ts := Threads(cs, top);
    assert GetBlogComments(bs, cs, nextCommentId, blog).value == ts;
    assert Heads(ts) == top;
  }

  /** Every populated reply names the same parent when every listed id does. */
  lemma {:induction false} PopulateParents(cs: Comments, ids: seq<CommentId>, parent: CommentId)
    requires forall k :: k in ids ==> k in cs && cs[k].parentComment == Some(parent)
    ensures forall x :: x in Populate(cs, ids) ==> x.parentComment == Some(parent)
  {
    if ids != [] {
      PopulateParents(cs, ids[1..], parent);
    }
  }

  /** A stored comment's populated replies all name it as their parent. */
  lemma StoredRepliesAreChildren(cs: Comments, nc: nat, nb: nat, c: Comment)
    requires CommentsStored(cs, nc, nb) && RepliesLinked(cs) && c in cs.Values
    ensures forall x :: x in Populate(cs, c.replies) ==> x.parentComment == Some(c.id)
  {
    var k :| k in cs && cs[k] == c;
    PopulateParents(cs, c.replies, k);
  }

  /** In a consistent store the replies of a thread are exactly comments that name it as parent. */
  lemma ThreadRepliesAreChildren(bs: Blogs, cs: Comments, nc: nat, nb: nat, blog: BlogId)
    requires CommentsStored(cs, nc, nb) && RepliesLinked(cs)
    requires GetBlogComments(bs, cs, nc, blog).Success?
    ensures var ts := GetBlogComments(bs, cs, nc, blog).value;
      forall i, x :: 0 <= i < |ts| && x in ts[i].replies ==> x.parentComment == Some(ts[i].comment.id)
  {
    var top := Select(cs, nc, c => TopLevelOn(c, blog), OldestCommentFirst);
    var ts := Threads(cs, top);
    assert GetBlogComments(bs, cs, nc, blog).value == ts;
    forall i | 0 <= i < |ts|
      ensures forall x :: x in ts[i].replies ==> x.parentComment == Some(ts[i].comment.id)
    {
      assert Heads(ts)[i] == ts[i].comment == top[i];
      StoredRepliesAreChildren(cs, nc, nb, top[i]);
    }
  }

  /** The filter of `getUserComments`: that author's comments that are not deleted. */
  predicate LiveBy(c: Comment, user: UserId) {
    c.author == user && !c.isDeleted
  }

  function NewestCommentFirst(c: Comment): int {
    -(c.createdAt as int)
  }

  /** `getUserComments`: one page of the author's live comments, newest first, with their number. */
  function GetUserComments(cs: Comments, nextCommentId: nat, user: UserId, page: Option<string>, limit: Option<string>)
    : (r: Outcome<Page<Comment>>)
    ensures r.Failure? ==> r.status == ServerError
    ensures r.Success? <==> Skip(QueryNumber(page, 1), QueryNumber(limit, 10)) >= 0
    ensures r.Success? ==>
      && (forall i :: 0 <= i < |r.value.items| ==> LiveBy(r.value.items[i], user) && r.value.items[i] in cs.Values)
      && (forall i, j :: 0 <= i < j < |r.value.items| ==> r.value.items[i].createdAt >= r.value.items[j].createdAt)
      && r.value.total == |Matching(cs, nextCommentId, c => LiveBy(c, user))|
      && r.value.page == QueryNumber(page, 1)
      && r.value.pages == Pages(r.value.total, QueryNumber(limit, 10))
      && r.value.items == Window(Select(cs, nextCommentId, c => LiveBy(c, user), NewestCommentFirst),
                                 Skip(r.value.page, QueryNumber(limit, 10)), QueryNumber(limit, 10))
  {
    var ordered := Select(cs, nextCommentId, c => LiveBy(c, user), NewestCommentFirst);
    var r := Paginate(ordered, page, limit);
    if r.Success? then
      WindowSorted(ordered, Skip(r.value.page, QueryNumber(limit, 10)), QueryNumber(limit, 10), NewestCommentFirst);
      r
    else r
  }
}
