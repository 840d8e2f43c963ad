/** The comment document: its fields, the defaults of a new one, and what `save` validates. */
module CommentSchema {
  import opened Wrappers
  import opened Common

  /** A comment document. `parentComment` is None for a top-level comment. */
  datatype Comment = Comment(
    id: CommentId,
    content: string,
    author: UserId,
    blog: BlogId,
    parentComment: Option<CommentId>,
    replies: seq<CommentId>,
    isDeleted: bool,
    deletedBy: Option<UserId>,
    createdAt: nat)

  /** A new comment: no replies, not deleted, created now. */
  function NewComment(id: CommentId, content: string, author: UserId, blog: BlogId,
                      parentComment: Option<CommentId>, now: nat): Comment
  {
    Comment(id, content, author, blog, parentComment, [], false, None, now)
  }

  /** The schema's validators: a non-empty content of at most 1000 characters and an author. */
  predicate Conforms(c: Comment) {
    c.content != "" && |c.content| <= 1000 && c.author != ""
  }
}
