/**
 * The two collections as finite maps, the id counters that stand for ObjectId
 * generation, and a clock that stands for `Date.now`. `Invariant` is what
 * every handler keeps; each lemma here shows that one kind of write keeps it.
 */
module Database {
  import opened Wrappers
  import opened Common
  import opened BlogSchema
  import opened CommentSchema

  type Blogs = map<BlogId, Blog>
  type Comments = map<CommentId, Comment>

  datatype Db = Db(blogs: Blogs, comments: Comments, nextBlogId: nat, nextCommentId: nat, clock: nat)

  /** The empty store. */
  function Empty(): Db {
    Db(map[], map[], 0, 0, 0)
  }

  predicate NoDuplicates<T(==)>(xs: seq<T>) {
    forall i, j :: 0 <= i < j < |xs| ==> xs[i] != xs[j]
  }

  /** The like list and its counter agree, and no user appears in the list twice. */
  predicate LikesInStep(b: Blog) {
    b.likesCount == |b.likes| && NoDuplicates(b.likes)
  }

  /** What a stored blog satisfies by itself: valid, likes in step, views counted from zero, saved after creation. */
  predicate BlogRecordOk(b: Blog) {
    && BlogSchema.Conforms(b) && LikesInStep(b)
    && b.views >= 0 && b.createdAt <= b.updatedAt
  }

  /** What a stored comment satisfies by itself. */
  predicate CommentRecordOk(c: Comment) {
    CommentSchema.Conforms(c) && (c.isDeleted <==> c.deletedBy.Some?)
  }

  // ---------------------------------------------------------------- the invariant, conjunct by conjunct

  /** Every blog is stored under its own id, below the id counter, and is valid by itself. */
  ghost predicate BlogsStored(bs: Blogs, nextBlogId: nat) {
    forall id :: id in bs ==> bs[id].id == id && id < nextBlogId && BlogRecordOk(bs[id])
  }

  /** Every blog was last saved before now. */
  ghost predicate BlogsInPast(bs: Blogs, clock: nat) {
    forall id :: id in bs ==> bs[id].updatedAt < clock
  }

  /** Every comment a blog lists exists and belongs to that blog. */
  ghost predicate BlogCommentsExist(bs: Blogs, cs: Comments) {
    forall id, k :: id in bs && k in bs[id].comments ==> k in cs && cs[k].blog == id
  }

  /** Every comment is stored under its own id, below the id counter, is valid, and names a blog that was created. */
  ghost predicate CommentsStored(cs: Comments, nextCommentId: nat, nextBlogId: nat) {
    forall id :: id in cs ==>
      cs[id].id == id && id < nextCommentId && CommentRecordOk(cs[id]) && cs[id].blog < nextBlogId
  }

  /** Every comment was created before now. */
  ghost predicate CommentsInPast(cs: Comments, clock: nat) {
    forall id :: id in cs ==> cs[id].createdAt < clock
  }

  /** A comment whose blog still exists is listed in that blog's `comments`. */
  ghost predicate CommentsListed(bs: Blogs, cs: Comments) {
    forall id :: id in cs && cs[id].blog in bs ==> id in bs[cs[id].blog].comments
  }

  /** A reply's parent is older, exists, and lists the reply among its `replies`. */
  ghost predicate ParentsLinked(cs: Comments) {
    forall id :: id in cs && cs[id].parentComment.Some? ==>
      var p := cs[id].parentComment.value;
      p < id && p in cs && id in cs[p].replies
  }

  /** Each listed reply exists and names the listing comment as its parent. */
  ghost predicate RepliesLinked(cs: Comments) {
    forall id, r :: id in cs && r in cs[id].replies ==> r in cs && cs[r].parentComment == Some(id)
  }

  ghost predicate Invariant(d: Db) {
    && BlogsStored(d.blogs, d.nextBlogId) && BlogsInPast(d.blogs, d.clock)
    && BlogCommentsExist(d.blogs, d.comments)
    && CommentsStored(d.comments, d.nextCommentId, d.nextBlogId) && CommentsInPast(d.comments, d.clock)
    && CommentsListed(d.blogs, d.comments) && ParentsLinked(d.comments) && RepliesLinked(d.comments)
  }

  lemma EmptyOk()
    ensures Invariant(Empty())
  {
  }

  // ---------------------------------------------------------------- the clock

  /** Reading `Date.now` moves the clock forward. */
  function Tick(d: Db): (e: Db)
    ensures e.clock > d.clock
  {
    d.(clock := d.clock + 1)
  }

  lemma TickKeeps(d: Db)
    requires Invariant(d)
    ensures Invariant(Tick(d))
  {
    var e := Tick(d);
    assert BlogsInPast(e.blogs, e.clock) by {
      forall id | id in e.blogs ensures e.blogs[id].updatedAt < e.clock {
        assert d.blogs[id].updatedAt < d.clock;
      }
    }
    assert CommentsInPast(e.comments, e.clock) by {
      forall id | id in e.comments ensures e.comments[id].createdAt < e.clock {
        assert d.comments[id].createdAt < d.clock;
      }
    }
  }

  // ---------------------------------------------------------------- writes to blogs

  /** `bs2` has no blog that `bs` lacks, and each of its blogs lists the same comments as before. */
  ghost predicate SameBlogLinks(bs: Blogs, bs2: Blogs) {
    forall id :: id in bs2 ==> id in bs && bs2[id].comments == bs[id].comments
  }

  /** Changing blogs without touching their comment lists, or removing blogs, keeps both link conjuncts. */
  lemma BlogLinksKept(bs: Blogs, bs2: Blogs, cs: Comments)
    requires BlogCommentsExist(bs, cs) && CommentsListed(bs, cs) && SameBlogLinks(bs, bs2)
    ensures BlogCommentsExist(bs2, cs) && CommentsListed(bs2, cs)
  {
    forall id, k | id in bs2 && k in bs2[id].comments ensures k in cs && cs[k].blog == id {
      assert k in bs[id].comments;
    }
    forall id | id in cs && cs[id].blog in bs2 ensures id in bs2[cs[id].blog].comments {
      assert id in bs[cs[id].blog].comments;
    }
  }

  /** Saves a changed blog over the stored one. */
  function PutBlog(d: Db, b: Blog): Db {
    d.(blogs := d.blogs[b.id := b])
  }

  /** Saving a valid blog, saved before now, that keeps its id and its comment list keeps the invariant. */
  lemma PutBlogKeeps(d: Db, b: Blog)
    requires Invariant(d) && b.id in d.blogs
    requires b.comments == d.blogs[b.id].comments && BlogRecordOk(b) && b.updatedAt < d.clock
    ensures Invariant(PutBlog(d, b))
  {
    var bs := d.blogs[b.id := b];
    PutSameLinks(d.blogs, b);
    BlogLinksKept(d.blogs, bs, d.comments);
    PutStored(d.blogs, b, d.nextBlogId, d.clock);
    assert PutBlog(d, b) == Db(bs, d.comments, d.nextBlogId, d.nextCommentId, d.clock);
  }

  lemma PutSameLinks(bs: Blogs, b: Blog)
    requires b.id in bs && b.comments == bs[b.id].comments
    ensures SameBlogLinks(bs, bs[b.id := b])
  {
  }

  lemma PutStored(bs: Blogs, b: Blog, next: nat, clock: nat)
    requires BlogsStored(bs, next) && BlogsInPast(bs, clock)
    requires b.id < next && BlogRecordOk(b) && b.updatedAt < clock
    ensures BlogsStored(bs[b.id := b], next) && BlogsInPast(bs[b.id := b], clock)
  {
  }

  /** Stores a new blog under the next id. */
  function AddBlog(d: Db, b: Blog): Db {
    d.(blogs := d.blogs[b.id := b], nextBlogId := d.nextBlogId + 1)
  }

  /** A valid new blog with no comments, stored under the next id, keeps the invariant. */
  lemma AddBlogKeeps(d: Db, b: Blog)
    requires Invariant(d) && b.id == d.nextBlogId
    requires b.comments == [] && BlogRecordOk(b) && b.updatedAt < d.clock
    ensures Invariant(AddBlog(d, b))
  {
    assert b.id !in d.blogs;
    AddStored(d.blogs, b, d.clock);
    AddLinks(d.blogs, b, d.comments, d.nextBlogId);
    CommentsStoredMore(d.comments, d.nextCommentId, d.nextBlogId);
  }

  lemma AddStored(bs: Blogs, b: Blog, clock: nat)
    requires BlogsStored(bs, b.id) && BlogsInPast(bs, clock)
    requires BlogRecordOk(b) && b.updatedAt < clock
    ensures BlogsStored(bs[b.id := b], b.id + 1) && BlogsInPast(bs[b.id := b], clock)
  {
  }

  lemma AddLinks(bs: Blogs, b: Blog, cs: Comments, nb: nat)
    requires b.id !in bs && b.id == nb && b.comments == []
    requires BlogCommentsExist(bs, cs) && CommentsListed(bs, cs)
    requires forall id :: id in cs ==> cs[id].blog < nb
    ensures BlogCommentsExist(bs[b.id := b], cs) && CommentsListed(bs[b.id := b], cs)
  {
    var bs2 := bs[b.id := b];
    forall id, k | id in bs2 && k in bs2[id].comments ensures k in cs && cs[k].blog == id {
      assert k in bs[id].comments;
    }
  }

  lemma CommentsStoredMore(cs: Comments, nc: nat, nb: nat)
    requires CommentsStored(cs, nc, nb)
    ensures CommentsStored(cs, nc, nb + 1) && forall id :: id in cs ==> cs[id].blog < nb
  {
  }

  /** `blog.remove()`: the blog goes; its comments stay. */
  function RemoveBlog(d: Db, id: BlogId): Db {
    d.(blogs := d.blogs - {id})
  }

  lemma RemoveBlogKeeps(d: Db, gone: BlogId)
    requires Invariant(d)
    ensures Invariant(RemoveBlog(d, gone))
  {
    BlogLinksKept(d.blogs, d.blogs - {gone}, d.comments);
  }

  // ---------------------------------------------------------------- writes to comments

  /** `cs2` holds the same comments as `cs`, each with the same blog, parent and replies. */
  ghost predicate SameCommentLinks(cs: Comments, cs2: Comments) {
    && (forall id :: id in cs2 <==> id in cs)
    && (forall id :: id in cs2 ==>
          cs2[id].blog == cs[id].blog && cs2[id].parentComment == cs[id].parentComment
          && cs2[id].replies == cs[id].replies)
  }

  /** Changing comments without touching their links keeps every link conjunct. */
  lemma CommentLinksKept(bs: Blogs, cs: Comments, cs2: Comments)
    requires BlogCommentsExist(bs, cs) && CommentsListed(bs, cs) && ParentsLinked(cs) && RepliesLinked(cs)
    requires SameCommentLinks(cs, cs2)
    ensures BlogCommentsExist(bs, cs2) && CommentsListed(bs, cs2) && ParentsLinked(cs2) && RepliesLinked(cs2)
  {
    forall id | id in cs2 && cs2[id].parentComment.Some?
      ensures var p := cs2[id].parentComment.value; p < id && p in cs2 && id in cs2[p].replies
    {
      assert cs[id].parentComment == cs2[id].parentComment;
    }
    forall id, r | id in cs2 && r in cs2[id].replies ensures r in cs2 && cs2[r].parentComment == Some(id) {
      assert r in cs[id].replies;
    }
  }

  /** Saves a changed comment over the stored one. */
  function PutComment(d: Db, c: Comment): Db {
    d.(comments := d.comments[c.id := c])
  }

  /** Saving a valid comment that keeps its id, blog, parent, replies and creation time keeps the invariant. */
  lemma PutCommentKeeps(d: Db, c: Comment)
    requires Invariant(d) && c.id in d.comments
    requires var before := d.comments[c.id];
      && c.blog == before.blog && c.parentComment == before.parentComment && c.replies == before.replies
      && c.createdAt == before.createdAt
    requires CommentRecordOk(c)
    ensures Invariant(PutComment(d, c))
  {
    var cs := d.comments[c.id := c];
    CommentLinksKept(d.blogs, d.comments, cs);
    PutCommentStored(d.comments, c, d.nextCommentId, d.nextBlogId, d.clock);
  }

  lemma PutCommentStored(cs: Comments, c: Comment, nc: nat, nb: nat, clock: nat)
    requires CommentsStored(cs, nc, nb) && CommentsInPast(cs, clock) && c.id in cs
    requires CommentRecordOk(c) && c.blog == cs[c.id].blog && c.createdAt == cs[c.id].createdAt
    ensures CommentsStored(cs[c.id := c], nc, nb) && CommentsInPast(cs[c.id := c], clock)
  {
  }

  /** The comments with `child` pushed onto the `replies` of `parent`, when there is one. */
  function PushReply(cs: Comments, parent: Option<CommentId>, child: CommentId): Comments {
    if parent.Some? && parent.value in cs then
      cs[parent.value := cs[parent.value].(replies := cs[parent.value].replies + [child])]
    else cs
  }

  /** The blogs with `child` pushed onto the `comments` of `blog`. */
  function PushComment(bs: Blogs, blog: BlogId, child: CommentId): Blogs
    requires blog in bs
  {
    bs[blog := bs[blog].(comments := bs[blog].comments + [child])]
  }

  /**
   * The three writes of a new comment: it is stored under the next id, its id
   * is pushed onto its parent's `replies`, and onto its blog's `comments`.
   */
  function AddComment(d: Db, c: Comment): Db
    requires c.blog in d.blogs
  {
    d.(comments := PushReply(d.comments[c.id := c], c.parentComment, c.id),
       blogs := PushComment(d.blogs, c.blog, c.id),
       nextCommentId := d.nextCommentId + 1)
  }

  /** A valid new comment whose blog and parent exist keeps the invariant once it is linked on both sides. */
  lemma AddCommentKeeps(d: Db, c: Comment)
    requires Invariant(d) && c.id == d.nextCommentId && c.blog in d.blogs
    requires c.replies == [] && CommentRecordOk(c) && c.createdAt < d.clock
    requires c.parentComment.Some? ==> c.parentComment.value in d.comments
    ensures Invariant(AddComment(d, c))
  {
    assert c.id !in d.comments;
    var cs := PushReply(d.comments[c.id := c], c.parentComment, c.id);
    var bs := PushComment(d.blogs, c.blog, c.id);
    PushCommentStored(d.blogs, c.blog, c.id, d.nextBlogId, d.clock);
    PushReplyFrame(d.comments, c);
    AddCommentStored(d.comments, c, d.nextBlogId, d.clock);
    AddCommentBlogSide(d.blogs, d.comments, c);
    AddCommentParents(d.comments, c);
    AddCommentReplies(d.comments, c);
  }

  lemma PushCommentStored(bs: Blogs, blog: BlogId, child: CommentId, nb: nat, clock: nat)
    requires BlogsStored(bs, nb) && BlogsInPast(bs, clock) && blog in bs
    ensures BlogsStored(PushComment(bs, blog, child), nb) && BlogsInPast(PushComment(bs, blog, child), clock)
  {
    var b := bs[blog];
    var pushed := b.(comments := b.comments + [child]);
    var bs2 := bs[blog := pushed];
    assert PushComment(bs, blog, child) == bs2;
    RecordOkWithComments(b, b.comments + [child]);
    assert pushed.id == b.id && pushed.updatedAt == b.updatedAt;
    forall id | id in bs2 ensures bs2[id].id == id && id < nb && BlogRecordOk(bs2[id]) && bs2[id].updatedAt < clock {
      if id != blog {
        assert bs2[id] == bs[id];
      }
    }
  }

  /** The comment list plays no part in a blog's own validity. */
  lemma RecordOkWithComments(b: Blog, comments: seq<CommentId>)
    requires BlogRecordOk(b)
    ensures BlogRecordOk(b.(comments := comments))
  {
  }

  /** Under `AddComment`, existing comments keep their id, fields and links, except that the parent gains one reply. */
  lemma PushReplyFrame(cs: Comments, c: Comment)
    requires c.id !in cs && (c.parentComment.Some? ==> c.parentComment.value in cs)
    ensures var cs2 := PushReply(cs[c.id := c], c.parentComment, c.id);
      && (forall id :: id in cs2 <==> id in cs || id == c.id)
      && cs2[c.id] == c
      && (forall id :: id in cs && Some(id) != c.parentComment ==> cs2[id] == cs[id])
      && (c.parentComment.Some? && c.parentComment.value in cs ==>
            var p := c.parentComment.value; cs2[p] == cs[p].(replies := cs[p].replies + [c.id]))
  {
    var cs1 := cs[c.id := c];
    if c.parentComment.Some? && c.parentComment.value in cs {
      var p := c.parentComment.value;
      assert p != c.id && cs1[p] == cs[p];
    }
  }

  lemma AddCommentStored(cs: Comments, c: Comment, nb: nat, clock: nat)
    requires CommentsStored(cs, c.id, nb) && CommentsInPast(cs, clock) && c.id !in cs
    requires c.parentComment.Some? ==> c.parentComment.value in cs
    requires CommentRecordOk(c) && c.createdAt < clock && c.blog < nb
    ensures var cs2 := PushReply(cs[c.id := c], c.parentComment, c.id);
      CommentsStored(cs2, c.id + 1, nb) && CommentsInPast(cs2, clock)
  {
    PushReplyFrame(cs, c);
  }

  lemma AddCommentBlogSide(bs: Blogs, cs: Comments, c: Comment)
    requires BlogCommentsExist(bs, cs) && CommentsListed(bs, cs) && c.blog in bs && c.id !in cs
    requires c.parentComment.Some? ==> c.parentComment.value in cs
    ensures var cs2 := PushReply(cs[c.id := c], c.parentComment, c.id);
      var bs2 := PushComment(bs, c.blog, c.id);
      BlogCommentsExist(bs2, cs2) && CommentsListed(bs2, cs2)
  {
    var cs2 := PushReply(cs[c.id := c], c.parentComment, c.id);
    var bs2 := PushComment(bs, c.blog, c.id);
    PushReplyFrame(cs, c);
    forall id, k | id in bs2 && k in bs2[id].comments ensures k in cs2 && cs2[k].blog == id {
      if k != c.id {
        assert k in bs[id].comments;
      }
    }
    forall id | id in cs2 && cs2[id].blog in bs2 ensures id in bs2[cs2[id].blog].comments {
      if id != c.id {
        assert id in bs[cs[id].blog].comments;
      }
    }
  }

  lemma AddCommentParents(cs: Comments, c: Comment)
    requires ParentsLinked(cs) && c.id !in cs && (forall id :: id in cs ==> id < c.id)
    requires c.parentComment.Some? ==> c.parentComment.value in cs
    ensures ParentsLinked(PushReply(cs[c.id := c], c.parentComment, c.id))
  {
    var cs2 := PushReply(cs[c.id := c], c.parentComment, c.id);
    PushReplyFrame(cs, c);
    forall id | id in cs2 && cs2[id].parentComment.Some?
      ensures var p := cs2[id].parentComment.value; p < id && p in cs2 && id in cs2[p].replies
    {
      if id != c.id {
        var p := cs[id].parentComment.value;
        assert id in cs[p].replies;
      }
    }
  }

  lemma AddCommentReplies(cs: Comments, c: Comment)
    requires RepliesLinked(cs) && c.id !in cs && c.replies == []
    requires c.parentComment.Some? ==> c.parentComment.value in cs
    ensures RepliesLinked(PushReply(cs[c.id := c], c.parentComment, c.id))
  {
    var cs2 := PushReply(cs[c.id := c], c.parentComment, c.id);
    PushReplyFrame(cs, c);
    forall id, r | id in cs2 && r in cs2[id].replies ensures r in cs2 && cs2[r].parentComment == Some(id) {
      if id != c.id && r != c.id {
        assert r in cs[id].replies;
      }
    }
  }

  // ---------------------------------------------------------------- ancestry

  /** The comment `n` parent links above `id`, if the chain is that long. */
  function Ancestor(cs: map<CommentId, Comment>, id: CommentId, n: nat): Option<CommentId>
    decreases n
  {
    if n == 0 then Some(id)
    else if id in cs && cs[id].parentComment.Some? then Ancestor(cs, cs[id].parentComment.value, n - 1)
    else None
  }

  /** Parents are older than their replies, so every proper ancestor has a smaller id. */
  lemma {:induction false} AncestorOlder(d: Db, id: CommentId, n: nat)
    requires Invariant(d)
    requires n >= 1 && Ancestor(d.comments, id, n).Some?
    ensures Ancestor(d.comments, id, n).value < id
  {
    var p := d.comments[id].parentComment.value;
    if n > 1 {
      AncestorOlder(d, p, n - 1);
    }
  }

  /** No comment is its own ancestor: the reply relation has no cycle. */
  lemma NoSelfAncestor(d: Db, id: CommentId, n: nat)
    requires Invariant(d) && n >= 1
    ensures Ancestor(d.comments, id, n) != Some(id)
  {
    if Ancestor(d.comments, id, n).Some? {
      AncestorOlder(d, id, n);
    }
  }
}
