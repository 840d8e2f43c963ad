/**
 * The handlers that change the store: `createBlog`, `updateBlog`, `deleteBlog`,
 * `toggleLikeBlog`, `getBlogById` (which counts a view), `createComment`,
 * `updateComment` and `deleteComment`.
 *
 * Each handler's decision is a function from the records it reads to an
 * `Outcome` (the status and message it answers with, or the record it writes);
 * the class `Store` holds the two collections and applies the write. The
 * authenticated `req.user` is the parameter `actor`. Cloudinary is the
 * parameters `upload` (what the upload returned) and `destroy` (whether
 * deleting an asset succeeded); `JSON.parse` is the parameter `parse`.
 */
module Engagement {
  import opened Wrappers
  import opened Common
  import Text
  import opened Auth
  import opened BlogSchema
  import opened CommentSchema
  import opened BlogText
  import opened Database

  // ---------------------------------------------------------------- request bodies

  /** The fields `createBlog` and `updateBlog` read from the body; a missing field is None. */
  datatype BlogForm = BlogForm(
    title: Option<string>, content: Option<string>, excerpt: Option<string>,
    tags: ListInput, customTags: ListInput, status: Option<string>)

  /** `req.file` and what uploading it to Cloudinary gave: no file, the secure URL, or a thrown error. */
  datatype Upload = NoFile | Uploaded(url: string) | UploadFailed

  /** The fields `createComment` reads from the body. */
  datatype CommentForm = CommentForm(content: Option<string>, blog: Option<BlogId>, parent: Option<CommentId>)

  const ServerErrorText := "Server Error"

  function Lookup<T>(m: map<nat, T>, id: nat): (r: Option<T>)
    ensures r.Some? <==> id in m
    ensures r.Some? ==> r.value == m[id]
  {
    if id in m then Some(m[id]) else None
  }

  // ---------------------------------------------------------------- likes and views

  /** `likes.filter(id => id !== user)`: every occurrence of `x` removed, the rest in order. */
  function Without(xs: seq<UserId>, x: UserId): (r: seq<UserId>)
    ensures x !in r
    ensures forall y :: y != x ==> (y in r <==> y in xs)
    ensures x !in xs ==> r == xs
    ensures NoDuplicates(xs) ==> NoDuplicates(r)
    ensures NoDuplicates(xs) && x in xs ==> |r| == |xs| - 1
  {
    if xs == [] then []
    else
      var rest := Without(xs[1..], x);
      assert NoDuplicates(xs) ==> NoDuplicates(xs[1..]) && xs[0] !in xs[1..] by {
        if NoDuplicates(xs) {
          forall i, j | 0 <= i < j < |xs[1..]| ensures xs[1..][i] != xs[1..][j] {
            assert xs[1..][i] == xs[i + 1] && xs[1..][j] == xs[j + 1];
          }
        }
      }
      if xs[0] == x then rest
      else
        ConsNoDuplicates(xs[0], rest);
        assert xs == [xs[0]] + xs[1..];
        [xs[0]] + rest
  }

  lemma ConsNoDuplicates(x: UserId, xs: seq<UserId>)
    ensures NoDuplicates(xs) && x !in xs ==> NoDuplicates([x] + xs)
  {
    if NoDuplicates(xs) && x !in xs {
      var r := [x] + xs;
      forall i, j | 0 <= i < j < |r| ensures r[i] != r[j] {
        assert r[j] == xs[j - 1];
        if i > 0 {
          assert r[i] == xs[i - 1];
        }
      }
    }
  }

  lemma AppendNoDuplicates(xs: seq<UserId>, x: UserId)
    requires NoDuplicates(xs) && x !in xs
    ensures NoDuplicates(xs + [x])
  {
    var r := xs + [x];
    forall i, j | 0 <= i < j < |r| ensures r[i] != r[j] {
      assert r[i] == xs[i];
      if j < |xs| {
        assert r[j] == xs[j];
      }
    }
  }

  lemma AppendNoDuplicatesIf(xs: seq<UserId>, x: UserId)
    requires x !in xs
    ensures NoDuplicates(xs) ==> NoDuplicates(xs + [x])
  {
    if NoDuplicates(xs) {
      AppendNoDuplicates(xs, x);
    }
  }

  /**
   * The like toggle of `toggleLikeBlog`: a user who liked the blog is removed
   * from the likes and the counter goes down by one; any other user is added
   * and the counter goes up by one. Every other field stays.
   */
  function Toggled(b: Blog, user: UserId): (r: Blog)
    ensures user in r.likes <==> user !in b.likes
    ensures forall u :: u != user ==> (u in r.likes <==> u in b.likes)
    ensures r.likesCount == b.likesCount + (if user in b.likes then -1 else 1)
    ensures LikesInStep(b) ==> LikesInStep(r)
    ensures r.(likes := b.likes, likesCount := b.likesCount) == b
  {
    if user in b.likes then b.(likes := Without(b.likes, user), likesCount := b.likesCount - 1)
    else
      AppendNoDuplicatesIf(b.likes, user);
      b.(likes := b.likes + [user], likesCount := b.likesCount + 1)
  }

  /** Liking and then unliking restores the blog exactly. */
  lemma {:induction false} ToggleTwiceRestores(b: Blog, user: UserId)
    requires user !in b.likes
    ensures Toggled(Toggled(b, user), user) == b
  {
    WithoutAppended(b.likes, user);
  }

  lemma {:induction false} WithoutAppended(xs: seq<UserId>, x: UserId)
    requires x !in xs
    ensures Without(xs + [x], x) == xs
  {
    if xs != [] {
      assert (xs + [x])[1..] == xs[1..] + [x];
      WithoutAppended(xs[1..], x);
    }
  }

  /** Unliking and then liking again keeps the same set of users, with the same count. */
  lemma ToggleTwiceKeepsLikers(b: Blog, user: UserId)
    requires LikesInStep(b) && user in b.likes
    ensures var r := Toggled(Toggled(b, user), user);
      LikesInStep(r) && r.likesCount == b.likesCount && forall u :: u in r.likes <==> u in b.likes
  {
  }

  // ---------------------------------------------------------------- saving

  /** `blog.save()` of a blog record: the pre-save hook sets `updatedAt`, then the validators run. */
  function SaveBlog(b: Blog, now: nat): (r: Outcome<Blog>)
    ensures r.Success? <==> BlogSchema.Conforms(b)
    ensures r.Success? ==> r.value == b.(updatedAt := now) && BlogSchema.Conforms(r.value)
    ensures r.Failure? ==> r.status == ServerError
  {
    if BlogSchema.Conforms(b) then Success(b.(updatedAt := now)) else Failure(ServerError, ServerErrorText)
  }

  /** `comment.save()`: the validators run (comments have no hook). */
  function SaveComment(c: Comment): (r: Outcome<Comment>)
    ensures r.Success? <==> CommentSchema.Conforms(c)
    ensures r.Success? ==> r.value == c
    ensures r.Failure? ==> r.status == ServerError
  {
    if CommentSchema.Conforms(c) then Success(c) else Failure(ServerError, ServerErrorText)
  }

  /**
   * `toggleLikeBlog`: 404 when the blog does not exist; otherwise the toggled
   * blog, saved (which also moves `updatedAt`).
   */
  function ToggleLikeOutcome(current: Option<Blog>, actor: User, now: nat): (r: Outcome<Blog>)
    ensures current.None? ==> r == Failure(NotFound, "Blog not found")
    ensures current.Some? && BlogRecordOk(current.value) && current.value.createdAt <= now ==>
      && r.Success? && BlogRecordOk(r.value)
      && r.value == Toggled(current.value, actor.id).(updatedAt := now)
  {
    if current.None? then Failure(NotFound, "Blog not found")
    else
      var b := current.value;
      var t := Toggled(b, actor.id);
      SaveBlog(t, now)
  }

  /** `getBlogById`: 404 when the blog does not exist; otherwise the blog with one more view, saved. */
  function ViewOutcome(current: Option<Blog>, now: nat): (r: Outcome<Blog>)
    ensures current.None? ==> r == Failure(NotFound, "Blog not found")
    ensures current.Some? && BlogRecordOk(current.value) && current.value.createdAt <= now ==>
      && r.Success? && BlogRecordOk(r.value)
      && r.value == current.value.(views := current.value.views + 1, updatedAt := now)
  {
    if current.None? then Failure(NotFound, "Blog not found")
    else
      var b := current.value;
      SaveBlog(b.(views := b.views + 1), now)
  }

  // ---------------------------------------------------------------- creating a blog

  /** A list of custom tags as the `trim` setter and the `maxlength` validator see it. */
  lemma TrimAllShort(xs: seq<string>)
    ensures CustomTagsFit(TrimAll(xs)) <==> TrimmedTagsFit(xs)
  {
    if CustomTagsFit(TrimAll(xs)) {
      TrimAllShortBack(xs);
    }
    if TrimmedTagsFit(xs) {
      TrimAllShortForth(xs);
    }
  }

  lemma TrimAllShortBack(xs: seq<string>)
    requires CustomTagsFit(TrimAll(xs))
    ensures TrimmedTagsFit(xs)
  {
    var r := TrimAll(xs);
    forall i | 0 <= i < |xs| ensures |Text.Trim(xs[i])| <= 20 {
      assert r[i] == Text.Trim(xs[i]);
    }
  }

  lemma TrimAllShortForth(xs: seq<string>)
    requires TrimmedTagsFit(xs)
    ensures CustomTagsFit(TrimAll(xs))
  {
    var r := TrimAll(xs);
    forall i | 0 <= i < |r| ensures |r[i]| <= 20 {
      assert r[i] == Text.Trim(xs[i]);
    }
  }

  /** Every custom tag has at most 20 characters once trimmed. */
  predicate TrimmedTagsFit(customTags: seq<string>) {
    forall i :: 0 <= i < |customTags| ==> |Text.Trim(customTags[i])| <= 20
  }

  /** What the schema demands of the fields a blog form sets, apart from the excerpt. */
  predicate FieldsValid(title: string, content: string, tags: seq<string>, customTags: seq<string>, status: string) {
    && 0 < |Text.Trim(title)| <= 200 && content != ""
    && TagsAllowed(tags) && TrimmedTagsFit(customTags)
    && (status == Draft || status == Published)
  }

  /** The image a new blog gets: the uploaded URL, or none when there was no file or the upload failed. */
  function CreatedImage(upload: Upload): string {
    if upload.Uploaded? then upload.url else ""
  }

  /** `new Blog({...})` in `createBlog`: a missing title or content is stored as nothing, which `required` rejects. */
  function NewBlogRecord(form: BlogForm, author: UserId, upload: Upload, excerpt: string,
                         tags: seq<string>, customTags: seq<string>, id: BlogId, now: nat): (b: Blog)
    ensures SetterForm(b) && LikesInStep(b) && b.views == 0 && b.createdAt == now && b.updatedAt == now
    ensures b.id == id && b.comments == []
    ensures b.title == Text.Trim(form.title.GetOr("")) && b.content == form.content.GetOr("")
    ensures b.excerpt == excerpt && b.author == author
    ensures b.tags == tags && b.customTags == TrimAll(customTags) && b.status == StatusOr(form.status, Draft)
    ensures b.featuredImage == CreatedImage(upload) && b.likes == []
  {
    var raw := NewBlog(id, form.title.GetOr(""), form.content.GetOr(""), excerpt, tags, customTags,
                       author, StatusOr(form.status, Draft), CreatedImage(upload), now);
    NormalizeSetterForm(raw);
    Normalize(raw)
  }

  /** A blog whose excerpt fits passes the schema exactly when it has an author and the fields it was given are valid. */
  lemma ConformsByFields(b: Blog, title: string, content: string, tags: seq<string>, customTags: seq<string>, status: string)
    requires b.excerpt != "" && |b.excerpt| <= 300
    requires b.title == Text.Trim(title) && b.content == content && b.tags == tags
    requires b.customTags == TrimAll(customTags) && b.status == status
    ensures BlogSchema.Conforms(b) <==> b.author != "" && FieldsValid(title, content, tags, customTags, status)
  {
    TrimAllShort(customTags);
  }

  /** A new blog with an excerpt that fits passes the schema exactly when its fields are valid. */
  lemma NewBlogConforms(form: BlogForm, author: UserId, upload: Upload, excerpt: string,
                        tags: seq<string>, customTags: seq<string>, id: BlogId, now: nat)
    requires excerpt != "" && |excerpt| <= 300
    ensures BlogSchema.Conforms(NewBlogRecord(form, author, upload, excerpt, tags, customTags, id, now)) <==>
      && form.title.Some? && form.content.Some? && author != ""
      && FieldsValid(form.title.value, form.content.value, tags, customTags, StatusOr(form.status, Draft))
  {
    var b := NewBlogRecord(form, author, upload, excerpt, tags, customTags, id, now);
    if form.title.None? {
      TrimNothing();
      assert b.title == "";
    } else if form.content.None? {
      assert b.content == "";
    } else {
      ConformsByFields(b, form.title.value, form.content.value, tags, customTags, StatusOr(form.status, Draft));
    }
  }

  lemma TrimNothing()
    ensures Text.Trim("") == ""
  {
    Text.TrimEmptyIffBlank("");
  }

  /**
   * `createBlog` for the blog under the id `id`, created at `now`: 400 when the
   * tags or the custom tags do not parse, 500 when the content is missing and
   * the excerpt must be cut from it, 400 "Validation error" when the schema
   * rejects the new blog; otherwise the new blog, valid as a stored record.
   */
  function CreateBlogOutcome(form: BlogForm, author: UserId, upload: Upload,
                             parse: string -> Option<seq<string>>, id: BlogId, now: nat): (r: Outcome<Blog>)
    ensures r.Success? ==> BlogRecordOk(r.value) && r.value.id == id && r.value.comments == [] && r.value.updatedAt == now
  {
    var tags := ReadListField(form.tags, parse);
    var customTags := ReadListField(form.customTags, parse);
    if tags.None? then Failure(BadRequest, "Invalid tags format")
    else if customTags.None? then Failure(BadRequest, "Invalid custom tags format")
    else if form.content.None? && !ExplicitExcerpt(form.excerpt) then Failure(ServerError, ServerErrorText)
    else
      var excerpt := CreateExcerpt(form.excerpt, form.content.GetOr(""));
      var b := NewBlogRecord(form, author, upload, excerpt, tags.value, customTags.value, id, now);
      if BlogSchema.Conforms(b) then Success(b) else Failure(BadRequest, "Validation error")
  }

  /** The answers of `createBlog`, in the order its checks run, and exactly when it succeeds. */
  lemma CreateBlogStatuses(form: BlogForm, author: UserId, upload: Upload,
                           parse: string -> Option<seq<string>>, id: BlogId, now: nat)
    ensures var r := CreateBlogOutcome(form, author, upload, parse, id, now);
      var (tags, customTags) := (ReadListField(form.tags, parse), ReadListField(form.customTags, parse));
      && (tags.None? ==> r == Failure(BadRequest, "Invalid tags format"))
      && (tags.Some? && customTags.None? ==> r == Failure(BadRequest, "Invalid custom tags format"))
      && (r.Failure? && r.status == ServerError <==>
            tags.Some? && customTags.Some? && form.content.None? && !ExplicitExcerpt(form.excerpt))
      && (r.Failure? ==> r.status == BadRequest || r.status == ServerError)
      && (r.Success? <==>
            && tags.Some? && customTags.Some? && form.title.Some? && form.content.Some? && author != ""
            && FieldsValid(form.title.value, form.content.value, tags.value, customTags.value, StatusOr(form.status, Draft)))
  {
    var (tags, customTags) := (ReadListField(form.tags, parse), ReadListField(form.customTags, parse));
    if tags.Some? && customTags.Some? {
      var excerpt := CreateExcerpt(form.excerpt, form.content.GetOr(""));
      NewBlogConforms(form, author, upload, excerpt, tags.value, customTags.value, id, now);
    }
  }

  /** What a created blog holds: the form's fields as the setters store them, no likes, no views, no comments. */
  lemma CreateBlogFields(form: BlogForm, author: UserId, upload: Upload,
                         parse: string -> Option<seq<string>>, id: BlogId, now: nat)
    requires CreateBlogOutcome(form, author, upload, parse, id, now).Success?
    ensures var b := CreateBlogOutcome(form, author, upload, parse, id, now).value;
      && form.title.Some? && form.content.Some?
      && b.author == author && b.title == Text.Trim(form.title.value) && b.content == form.content.value
      && b.excerpt == CreateExcerpt(form.excerpt, form.content.value)
      && b.tags == ReadListField(form.tags, parse).value
      && b.customTags == TrimAll(ReadListField(form.customTags, parse).value)
      && b.status == StatusOr(form.status, Draft) && b.featuredImage == CreatedImage(upload)
      && b.likes == [] && b.likesCount == 0 && b.views == 0 && b.createdAt == now
  {
    CreateBlogValue(form, author, upload, parse, id, now);
    var b := CreateBlogOutcome(form, author, upload, parse, id, now).value;
    assert b.title != "" && b.content != "";
    TrimNothing();
  }

  lemma CreateBlogValue(form: BlogForm, author: UserId, upload: Upload,
                        parse: string -> Option<seq<string>>, id: BlogId, now: nat)
    requires CreateBlogOutcome(form, author, upload, parse, id, now).Success?
    ensures ReadListField(form.tags, parse).Some? && ReadListField(form.customTags, parse).Some?
    ensures CreateBlogOutcome(form, author, upload, parse, id, now).value ==
      NewBlogRecord(form, author, upload, CreateExcerpt(form.excerpt, form.content.GetOr("")),
                    ReadListField(form.tags, parse).value, ReadListField(form.customTags, parse).value, id, now)
  {
  }

  // ---------------------------------------------------------------- updating a blog

  /**
   * The image after an update: with no file the old one; with a file the new
   * URL, once the old asset (if any) is destroyed. None when the upload or the
   * destroy throws.
   */
  function UpdatedImage(image: string, upload: Upload, destroy: string -> bool): (r: Option<string>)
    ensures upload.NoFile? ==> r == Some(image)
    ensures upload.UploadFailed? ==> r.None?
    ensures upload.Uploaded? ==> r == (if image != "" && !destroy(AssetId(image)) then None else Some(upload.url))
  {
    match upload
    case NoFile => Some(image)
    case UploadFailed => None
    case Uploaded(url) => if image != "" && !destroy(AssetId(image)) then None else Some(url)
  }

  /** The blog after the assignments of `updateBlog` and their setters, before it is saved. */
  function UpdatedRecord(b: Blog, title: Option<string>, content: string, tags: seq<string>, customTags: seq<string>,
                         status: Option<string>, image: string): (n: Blog)
    ensures SetterForm(n)
    ensures n.title == Text.Trim(title.GetOr("")) && n.content == content && n.excerpt == UpdateExcerpt(content)
    ensures n.tags == tags && n.customTags == TrimAll(customTags) && n.status == StatusOr(status, b.status)
    ensures n.featuredImage == image
    ensures n.id == b.id && n.author == b.author && n.likes == b.likes && n.likesCount == b.likesCount
    ensures n.comments == b.comments && n.views == b.views && n.createdAt == b.createdAt && n.updatedAt == b.updatedAt
  {
    var raw := b.(title := title.GetOr(""), content := content, excerpt := UpdateExcerpt(content),
                  tags := tags, customTags := customTags, status := StatusOr(status, b.status), featuredImage := image);
    NormalizeSetterForm(raw);
    Normalize(raw)
  }

  /** An updated blog passes the schema exactly when its fields are valid and the content has at most 300 characters. */
  lemma UpdatedConforms(b: Blog, title: Option<string>, content: string, tags: seq<string>, customTags: seq<string>,
                        status: Option<string>, image: string)
    ensures BlogSchema.Conforms(UpdatedRecord(b, title, content, tags, customTags, status, image)) <==>
      && title.Some? && b.author != "" && |content| <= 300
      && FieldsValid(title.value, content, tags, customTags, StatusOr(status, b.status))
  {
    var n := UpdatedRecord(b, title, content, tags, customTags, status, image);
    if title.None? {
      TrimNothing();
      assert n.title == "";
    } else if |content| > 300 {
      assert |n.excerpt| > 300;
    } else if content == "" {
      assert n.content == "";
    } else {
      assert n.excerpt == content;
      ConformsByFields(n, title.value, content, tags, customTags, StatusOr(status, b.status));
    }
  }

  /**
   * `updateBlog`: 404 when the blog does not exist, 401 "Not authorized" unless
   * the actor wrote it, 500 when the image upload or destroy throws, when the
   * content is missing, when the tags do not parse and when the schema rejects
   * the result; otherwise the blog with the form's fields, saved.
   */
  function UpdateBlogOutcome(current: Option<Blog>, actor: User, form: BlogForm, upload: Upload,
                             destroy: string -> bool, parse: string -> Option<seq<string>>, now: nat)
    : (r: Outcome<Blog>)
    ensures r.Success? ==>
      && current.Some? && MayEdit(actor, current.value.author)
      && r.value.id == current.value.id && r.value.comments == current.value.comments && r.value.updatedAt == now
    ensures r.Success? && BlogRecordOk(current.value) && current.value.createdAt <= now ==> BlogRecordOk(r.value)
  {
    if current.None? then Failure(NotFound, "Blog not found")
    else
      var b := current.value;
      if !MayEdit(actor, b.author) then Failure(Unauthorized, "Not authorized")
      else
        var image := UpdatedImage(b.featuredImage, upload, destroy);
        var tags := ParseTagsForUpdate(form.tags, parse);
        var customTags := ParseCustomTagsForUpdate(form.customTags, parse);
        if image.None? || form.content.None? || tags.None? || customTags.None? then Failure(ServerError, ServerErrorText)
        else
          var n := UpdatedRecord(b, form.title, form.content.value, tags.value, customTags.value, form.status, image.value);
          assert LikesInStep(b) ==> LikesInStep(n);
          SaveBlog(n, now)
  }

  /** The answers of `updateBlog`, in the order its checks run: not found, then not the author, then only 500s. */
  lemma UpdateBlogStatuses(current: Option<Blog>, actor: User, form: BlogForm, upload: Upload,
                           destroy: string -> bool, parse: string -> Option<seq<string>>, now: nat)
    ensures var r := UpdateBlogOutcome(current, actor, form, upload, destroy, parse, now);
      && (current.None? ==> r == Failure(NotFound, "Blog not found"))
      && (current.Some? && !MayEdit(actor, current.value.author) ==> r == Failure(Unauthorized, "Not authorized"))
      && (current.Some? && MayEdit(actor, current.value.author) ==> r.Success? || r.status == ServerError)
  {
  }

  /** Exactly when `updateBlog` succeeds: the author asks, the image step works, and the new fields pass the schema. */
  lemma UpdateBlogSucceeds(current: Option<Blog>, actor: User, form: BlogForm, upload: Upload,
                           destroy: string -> bool, parse: string -> Option<seq<string>>, now: nat)
    ensures UpdateBlogOutcome(current, actor, form, upload, destroy, parse, now).Success? <==>
      && current.Some? && MayEdit(actor, current.value.author)
      && UpdatedImage(current.value.featuredImage, upload, destroy).Some?
      && form.content.Some? && |form.content.value| <= 300
      && ParseTagsForUpdate(form.tags, parse).Some? && ParseCustomTagsForUpdate(form.customTags, parse).Some?
      && form.title.Some? && current.value.author != ""
      && FieldsValid(form.title.value, form.content.value, ParseTagsForUpdate(form.tags, parse).value,
                     ParseCustomTagsForUpdate(form.customTags, parse).value,
                     StatusOr(form.status, current.value.status))
  {
    if current.Some? && MayEdit(actor, current.value.author) {
      var b := current.value;
      var image := UpdatedImage(b.featuredImage, upload, destroy);
      var tags := ParseTagsForUpdate(form.tags, parse);
      var customTags := ParseCustomTagsForUpdate(form.customTags, parse);
      if image.Some? && form.content.Some? && tags.Some? && customTags.Some? {
        var n := UpdatedRecord(b, form.title, form.content.value, tags.value, customTags.value, form.status, image.value);
        assert UpdateBlogOutcome(current, actor, form, upload, destroy, parse, now) == SaveBlog(n, now);
        UpdatedConforms(b, form.title, form.content.value, tags.value, customTags.value, form.status, image.value);
      } else {
        assert UpdateBlogOutcome(current, actor, form, upload, destroy, parse, now).Failure?;
      }
    }
  }

  /** What an updated blog holds: the form's fields as the setters store them; likes, views, comments and creation time as before. */
  lemma UpdateBlogFields(current: Option<Blog>, actor: User, form: BlogForm, upload: Upload,
                         destroy: string -> bool, parse: string -> Option<seq<string>>, now: nat)
    requires UpdateBlogOutcome(current, actor, form, upload, destroy, parse, now).Success?
    ensures var (b, n) := (current.value, UpdateBlogOutcome(current, actor, form, upload, destroy, parse, now).value);
      && form.title.Some? && form.content.Some?
      && n.title == Text.Trim(form.title.value) && n.content == form.content.value && n.excerpt == form.content.value
      && n.tags == ParseTagsForUpdate(form.tags, parse).value
      && n.customTags == TrimAll(ParseCustomTagsForUpdate(form.customTags, parse).value)
      && n.status == StatusOr(form.status, b.status)
      && n.featuredImage == UpdatedImage(b.featuredImage, upload, destroy).value
      && n.likes == b.likes && n.likesCount == b.likesCount && n.views == b.views
      && n.author == b.author && n.createdAt == b.createdAt
  {
    UpdateBlogSucceeds(current, actor, form, upload, destroy, parse, now);
  }

  /** Any content longer than 300 characters makes the update fail: its excerpt gets "..." beyond the schema's 300. */
  lemma LongContentUpdateFails(current: Option<Blog>, actor: User, form: BlogForm, upload: Upload,
                               destroy: string -> bool, parse: string -> Option<seq<string>>, now: nat)
    requires form.content.Some? && |form.content.value| > 300
    ensures UpdateBlogOutcome(current, actor, form, upload, destroy, parse, now).Failure?
  {
    UpdateBlogSucceeds(current, actor, form, upload, destroy, parse, now);
  }

  // ---------------------------------------------------------------- deleting a blog

  /**
   * `deleteBlog`: 404 when the blog does not exist, 401 "Not authorized" unless
   * the actor wrote it or is an admin, 500 when destroying its image throws;
   * otherwise "Blog removed".
   */
  function DeleteBlogOutcome(current: Option<Blog>, actor: User, destroy: string -> bool): (r: Outcome<string>)
    ensures current.None? ==> r == Failure(NotFound, "Blog not found")
    ensures current.Some? && !MayDelete(actor, current.value.author) ==> r == Failure(Unauthorized, "Not authorized")
    ensures r.Success? <==>
      current.Some? && MayDelete(actor, current.value.author)
      && (current.value.featuredImage != "" ==> destroy(AssetId(current.value.featuredImage)))
    ensures r.Success? ==> r.value == "Blog removed"
    ensures r.Failure? ==> r.status in {NotFound, Unauthorized, ServerError}
  {
    if current.None? then Failure(NotFound, "Blog not found")
    else
      var b := current.value;
      if !MayDelete(actor, b.author) then Failure(Unauthorized, "Not authorized")
      else if b.featuredImage != "" && !destroy(AssetId(b.featuredImage)) then Failure(ServerError, ServerErrorText)
      else Success("Blog removed")
  }

  // ---------------------------------------------------------------- comments

  /**
   * `createComment` for the comment under the id `id`, created at `now`: 400
   * when the content or the blog id is missing, 404 when the blog or the named
   * parent does not exist, 500 when the schema rejects the comment; otherwise
   * the new comment.
   */
  function CreateCommentOutcome(bs: Blogs, cs: Comments, actor: User, form: CommentForm, id: CommentId, now: nat)
    : (r: Outcome<Comment>)
    ensures r.Success? ==>
      && form.content.Some? && form.blog.Some? && form.blog.value in bs && (form.parent.Some? ==> form.parent.value in cs)
      && r.value == NewComment(id, form.content.value, actor.id, form.blog.value, form.parent, now)
      && CommentRecordOk(r.value)
  {
    if !Text.Truthy(form.content) then Failure(BadRequest, "Content is required")
    else if form.blog.None? then Failure(BadRequest, "Blog ID is required")
    else if form.blog.value !in bs then Failure(NotFound, "Blog not found")
    else if form.parent.Some? && form.parent.value !in cs then Failure(NotFound, "Parent comment not found")
    else SaveComment(NewComment(id, form.content.value, actor.id, form.blog.value, form.parent, now))
  }

  /** The answers of `createComment`, in the order its checks run, and exactly when it succeeds. */
  lemma CreateCommentStatuses(bs: Blogs, cs: Comments, actor: User, form: CommentForm, id: CommentId, now: nat)
    ensures var r := CreateCommentOutcome(bs, cs, actor, form, id, now);
      && (!Text.Truthy(form.content) ==> r == Failure(BadRequest, "Content is required"))
      && (Text.Truthy(form.content) && form.blog.None? ==> r == Failure(BadRequest, "Blog ID is required"))
      && (r.Failure? && r.status == NotFound <==>
            Text.Truthy(form.content) && form.blog.Some?
            && (form.blog.value !in bs || (form.parent.Some? && form.parent.value !in cs)))
      && (r.Failure? && r.status == NotFound ==>
            r.message == if form.blog.value !in bs then "Blog not found" else "Parent comment not found")
      && (r.Success? <==>
            && Text.Truthy(form.content) && |form.content.value| <= 1000 && actor.id != ""
            && form.blog.Some? && form.blog.value in bs && (form.parent.Some? ==> form.parent.value in cs))
      && (r.Failure? ==> r.status in {BadRequest, NotFound, ServerError})
  {
  }

  /** A created comment: written by the actor, under the given parent or none, with no replies and not deleted. */
  lemma CreatedCommentFields(bs: Blogs, cs: Comments, actor: User, form: CommentForm, id: CommentId, now: nat)
    requires CreateCommentOutcome(bs, cs, actor, form, id, now).Success?
    ensures var c := CreateCommentOutcome(bs, cs, actor, form, id, now).value;
      && c.id == id && c.author == actor.id && c.content == form.content.value && c.blog == form.blog.value
      && c.parentComment == form.parent && (c.parentComment.Some? ==> c.parentComment.value in cs)
      && c.replies == [] && !c.isDeleted && c.deletedBy.None? && c.createdAt == now
  {
  }

  /** A comment `createComment` accepts can be stored under the next id without breaking the invariant. */
  lemma CreateCommentKeeps(d: Db, actor: User, form: CommentForm, now: nat)
    requires Invariant(d) && d.clock == now + 1
    ensures var r := CreateCommentOutcome(d.blogs, d.comments, actor, form, d.nextCommentId, now);
      r.Success? ==> r.value.blog in d.blogs && Invariant(AddComment(d, r.value))
  {
    var r := CreateCommentOutcome(d.blogs, d.comments, actor, form, d.nextCommentId, now);
    if r.Success? {
      AddCommentKeeps(d, r.value);
    }
  }

  /**
   * `updateComment`: 404 when the comment does not exist, 401 "User not
   * authorized" unless the actor wrote it, 400 when it is deleted, 500 when the
   * new content fails the schema; otherwise the comment with the new content.
   */
  function UpdateCommentOutcome(current: Option<Comment>, actor: User, content: Option<string>): (r: Outcome<Comment>)
    ensures current.None? ==> r == Failure(NotFound, "Comment not found")
    ensures current.Some? && !MayEdit(actor, current.value.author) ==> r == Failure(Unauthorized, "User not authorized")
    ensures current.Some? && MayEdit(actor, current.value.author) && current.value.isDeleted ==>
      r == Failure(BadRequest, "Cannot update a deleted comment")
    ensures r.Success? <==>
      && current.Some? && MayEdit(actor, current.value.author) && !current.value.isDeleted
      && Text.Truthy(content) && |content.value| <= 1000 && current.value.author != ""
    ensures r.Success? ==> r.value == current.value.(content := content.value)
    ensures r.Success? && CommentRecordOk(current.value) ==> CommentRecordOk(r.value)
  {
    if current.None? then Failure(NotFound, "Comment not found")
    else
      var c := current.value;
      if !MayEdit(actor, c.author) then Failure(Unauthorized, "User not authorized")
      else if c.isDeleted then Failure(BadRequest, "Cannot update a deleted comment")
      else SaveComment(c.(content := content.GetOr("")))
  }

  /** The soft delete: the comment stays, marked deleted by the actor. */
  function SoftDeleted(c: Comment, actor: User): (r: Comment)
    ensures r.isDeleted && r.deletedBy == Some(actor.id)
    ensures r.(isDeleted := c.isDeleted, deletedBy := c.deletedBy) == c
    ensures CommentRecordOk(c) ==> CommentRecordOk(r)
  {
    c.(isDeleted := true, deletedBy := Some(actor.id))
  }

  /**
   * `deleteComment`: 404 when the comment does not exist, 401 "User not
   * authorized" unless the actor wrote it or is an admin; otherwise the
   * soft-deleted comment (deleting again is allowed and records the new actor).
   */
  function DeleteCommentOutcome(current: Option<Comment>, actor: User): (r: Outcome<Comment>)
    ensures current.None? ==> r == Failure(NotFound, "Comment not found")
    ensures current.Some? && !MayDelete(actor, current.value.author) ==> r == Failure(Unauthorized, "User not authorized")
    ensures current.Some? && MayDelete(actor, current.value.author) && CommentRecordOk(current.value) ==>
      r == Success(SoftDeleted(current.value, actor))
  {
    if current.None? then Failure(NotFound, "Comment not found")
    else
      var c := current.value;
      if !MayDelete(actor, c.author) then Failure(Unauthorized, "User not authorized")
      else SaveComment(SoftDeleted(c, actor))
  }

  /** Deleting an already deleted comment succeeds again and changes nothing but `deletedBy`. */
  lemma DeleteCommentAgain(c: Comment, first: User, second: User)
    requires CommentRecordOk(c) && MayDelete(first, c.author) && MayDelete(second, c.author)
    ensures var once := DeleteCommentOutcome(Some(c), first);
      && once.Success?
      && DeleteCommentOutcome(Some(once.value), second) == Success(once.value.(deletedBy := Some(second.id)))
  {
    var once := SoftDeleted(c, first);
    assert DeleteCommentOutcome(Some(c), first) == Success(once);
    assert MayDelete(second, once.author);
  }

  /** Once soft-deleted, a comment can no longer be edited, whoever asks and whatever the new content. */
  lemma DeletedCommentFrozen(c: Comment, deleter: User, editor: User, content: Option<string>)
    requires CommentRecordOk(c) && MayDelete(deleter, c.author)
    ensures var d := DeleteCommentOutcome(Some(c), deleter);
      && d.Success?
      && UpdateCommentOutcome(Some(d.value), editor, content).Failure?
      && (MayEdit(editor, c.author) ==>
            UpdateCommentOutcome(Some(d.value), editor, content) == Failure(BadRequest, "Cannot update a deleted comment"))
  {
    assert DeleteCommentOutcome(Some(c), deleter) == Success(SoftDeleted(c, deleter));
  }

  // ---------------------------------------------------------------- keeping the invariant

  /** A blog `createBlog` accepts can be stored under the next id without breaking the invariant. */
  lemma CreateBlogKeeps(d: Db, author: UserId, form: BlogForm, upload: Upload,
                        parse: string -> Option<seq<string>>, now: nat)
    requires Invariant(d) && d.clock == now + 1
    ensures var r := CreateBlogOutcome(form, author, upload, parse, d.nextBlogId, now);
      r.Success? ==> Invariant(AddBlog(d, r.value))
  {
    var r := CreateBlogOutcome(form, author, upload, parse, d.nextBlogId, now);
    if r.Success? {
      AddBlogKeeps(d, r.value);
    }
  }

  /** `getBlogById` finds exactly the stored blogs, and saving the viewed blog keeps the invariant. */
  lemma ViewKeeps(d: Db, id: BlogId, now: nat)
    requires Invariant(d) && d.clock == now + 1
    ensures var r := ViewOutcome(Lookup(d.blogs, id), now);
      && (r.Success? <==> id in d.blogs)
      && (r.Success? ==> r.value.id == id && Invariant(PutBlog(d, r.value)))
  {
    var r := ViewOutcome(Lookup(d.blogs, id), now);
    if id in d.blogs {
      var b := d.blogs[id];
      assert Lookup(d.blogs, id) == Some(b);
      assert b.id == id && BlogRecordOk(b) && b.createdAt <= now;
      PutBlogKeeps(d, r.value);
    }
  }

  /** `toggleLikeBlog` finds exactly the stored blogs, and saving the toggled blog keeps the invariant. */
  lemma ToggleLikeKeeps(d: Db, actor: User, id: BlogId, now: nat)
    requires Invariant(d) && d.clock == now + 1
    ensures var r := ToggleLikeOutcome(Lookup(d.blogs, id), actor, now);
      && (r.Success? <==> id in d.blogs)
      && (r.Success? ==> r.value.id == id && Invariant(PutBlog(d, r.value)))
  {
    var r := ToggleLikeOutcome(Lookup(d.blogs, id), actor, now);
    if id in d.blogs {
      var b := d.blogs[id];
      assert Lookup(d.blogs, id) == Some(b);
      assert b.id == id && BlogRecordOk(b) && b.createdAt <= now;
      PutBlogKeeps(d, r.value);
    }
  }

  /** Saving the blog `updateBlog` produces keeps the invariant. */
  lemma UpdateBlogKeeps(d: Db, actor: User, id: BlogId, form: BlogForm, upload: Upload,
                        destroy: string -> bool, parse: string -> Option<seq<string>>, now: nat)
    requires Invariant(d) && d.clock == now + 1
    ensures var r := UpdateBlogOutcome(Lookup(d.blogs, id), actor, form, upload, destroy, parse, now);
      r.Success? ==> r.value.id == id && Invariant(PutBlog(d, r.value))
  {
    var r := UpdateBlogOutcome(Lookup(d.blogs, id), actor, form, upload, destroy, parse, now);
    if r.Success? {
      var b := d.blogs[id];
      assert Lookup(d.blogs, id) == Some(b);
      assert b.id == id && BlogRecordOk(b) && b.createdAt <= now;
      PutBlogKeeps(d, r.value);
    }
  }

  // ---------------------------------------------------------------- the store

  /** The two collections, the id counters and the clock, updated in place by the handlers. */
  class Store {
    var blogs: Blogs
    var comments: Comments
    var nextBlogId: nat
    var nextCommentId: nat
    var clock: nat

    function State(): Db
      reads this
    {
      Db(blogs, comments, nextBlogId, nextCommentId, clock)
    }

    ghost predicate Valid()
      reads this
    {
      Invariant(State())
    }

    constructor ()
      ensures State() == Empty() && Valid()
    {
      blogs := map[];
      comments := map[];
      nextBlogId := 0;
      nextCommentId := 0;
      clock := 0;
      EmptyOk();
    }

    /** Writes a whole new state: the collections, the counters and the clock. */
    method Commit(e: Db)
      modifies this
      ensures State() == e
    {
      blogs, comments, nextBlogId, nextCommentId, clock := e.blogs, e.comments, e.nextBlogId, e.nextCommentId, e.clock;
    }

    /** `Date.now()`: the current time, after which the clock has moved on. */
    method Now() returns (now: nat)
      requires Valid()
      modifies this`clock
      ensures now == old(clock) && State() == Tick(old(State())) && Valid()
    {
      TickKeeps(State());
      now := clock;
      clock := clock + 1;
    }

    method CreateBlog(actor: User, form: BlogForm, upload: Upload, parse: string -> Option<seq<string>>)
      returns (r: Outcome<Blog>)
      requires Valid()
      modifies this
      ensures r == CreateBlogOutcome(form, actor.id, upload, parse, old(nextBlogId), old(clock))
      ensures State() == if r.Success? then AddBlog(Tick(old(State())), r.value) else Tick(old(State()))
      ensures Valid()
    {
      var id := nextBlogId;
      var now := Now();
      r := CreateBlogOutcome(form, actor.id, upload, parse, id, now);
      var d := State();
      assert d == Tick(old(State()));
      CreateBlogKeeps(d, actor.id, form, upload, parse, now);
      if r.Success? {
        Commit(AddBlog(d, r.value));
      }
    }

    method GetBlogById(id: BlogId) returns (r: Outcome<Blog>)
      requires Valid()
      modifies this
      ensures r == ViewOutcome(Lookup(old(blogs), id), old(clock))
      ensures (id in old(blogs)) == r.Success?
      ensures State() == if r.Success? then PutBlog(Tick(old(State())), r.value) else Tick(old(State()))
      ensures Valid()
    {
      var now := Now();
      var d := State();
      var current := Lookup(d.blogs, id);
      r := ViewOutcome(current, now);
      assert d == Tick(old(State()));
      assert r == ViewOutcome(Lookup(old(blogs), id), old(clock));
      ViewKeeps(d, id, now);
      if r.Success? {
        Commit(PutBlog(d, r.value));
      }
    }

    method ToggleLikeBlog(actor: User, id: BlogId) returns (r: Outcome<Blog>)
      requires Valid()
      modifies this
      ensures r == ToggleLikeOutcome(Lookup(old(blogs), id), actor, old(clock))
      ensures (id in old(blogs)) == r.Success?
      ensures State() == if r.Success? then PutBlog(Tick(old(State())), r.value) else Tick(old(State()))
      ensures Valid()
    {
      var now := Now();
      var d := State();
      var current := Lookup(d.blogs, id);
      r := ToggleLikeOutcome(current, actor, now);
      assert d == Tick(old(State()));
      assert r == ToggleLikeOutcome(Lookup(old(blogs), id), actor, old(clock));
      ToggleLikeKeeps(d, actor, id, now);
      if r.Success? {
        Commit(PutBlog(d, r.value));
      }
    }

    method UpdateBlog(actor: User, id: BlogId, form: BlogForm, upload: Upload,
                      destroy: string -> bool, parse: string -> Option<seq<string>>)
      returns (r: Outcome<Blog>)
      requires Valid()
      modifies this
      ensures r == UpdateBlogOutcome(Lookup(old(blogs), id), actor, form, upload, destroy, parse, old(clock))
      ensures State() == if r.Success? then PutBlog(Tick(old(State())), r.value) else Tick(old(State()))
      ensures Valid()
    {
      var now := Now();
      var d := State();
      var current := Lookup(d.blogs, id);
      r := UpdateBlogOutcome(current, actor, form, upload, destroy, parse, now);
      assert d == Tick(old(State()));
      assert r == UpdateBlogOutcome(Lookup(old(blogs), id), actor, form, upload, destroy, parse, old(clock));
      UpdateBlogKeeps(d, actor, id, form, upload, destroy, parse, now);
      if r.Success? {
        Commit(PutBlog(d, r.value));
      }
    }

    /** Removes the blog; its comments stay in the comment collection. */
    method DeleteBlog(actor: User, id: BlogId, destroy: string -> bool) returns (r: Outcome<string>)
      requires Valid()
      modifies this`blogs
      ensures r == DeleteBlogOutcome(Lookup(old(blogs), id), actor, destroy)
      ensures blogs == if r.Success? then old(blogs) - {id} else old(blogs)
      ensures Valid()
    {
      var d := State();
      var current := Lookup(d.blogs, id);
      r := DeleteBlogOutcome(current, actor, destroy);
      assert r == DeleteBlogOutcome(Lookup(old(blogs), id), actor, destroy);
      if r.Success? {
        RemoveBlogKeeps(d, id);
        blogs := RemoveBlog(d, id).blogs;
      }
    }

    method CreateComment(actor: User, form: CommentForm) returns (r: Outcome<Comment>)
      requires Valid()
      modifies this
      ensures r == CreateCommentOutcome(old(blogs), old(comments), actor, form, old(nextCommentId), old(clock))
      ensures State() == if r.Success? then AddComment(Tick(old(State())), r.value) else Tick(old(State()))
      ensures Valid()
    {
      var now := Now();
      var d := State();
      r := CreateCommentOutcome(d.blogs, d.comments, actor, form, d.nextCommentId, now);
      assert d == Tick(old(State()));
      assert r == CreateCommentOutcome(old(blogs), old(comments), actor, form, old(nextCommentId), old(clock));
      CreateCommentKeeps(d, actor, form, now);
      if r.Success? {
        Commit(AddComment(d, r.value));
      }
    }

    method UpdateComment(actor: User, id: CommentId, content: Option<string>) returns (r: Outcome<Comment>)
      requires Valid()
      modifies this`comments
      ensures r == UpdateCommentOutcome(Lookup(old(comments), id), actor, content)
      ensures comments == if r.Success? then old(comments)[id := r.value] else old(comments)
      ensures Valid()
    {
      var d := State();
      var current := Lookup(d.comments, id);
      r := UpdateCommentOutcome(current, actor, content);
      assert r == UpdateCommentOutcome(Lookup(old(comments), id), actor, content);
      if r.Success? {
        PutCommentKeeps(d, r.value);
        comments := PutComment(d, r.value).comments;
      }
    }

    method DeleteComment(actor: User, id: CommentId) returns (r: Outcome<Comment>)
      requires Valid()
      modifies this`comments
      ensures r == DeleteCommentOutcome(Lookup(old(comments), id), actor)
      ensures comments == if r.Success? then old(comments)[id := r.value] else old(comments)
      ensures Valid()
    {
      var d := State();
      var current := Lookup(d.comments, id);
      r := DeleteCommentOutcome(current, actor);
      assert r == DeleteCommentOutcome(Lookup(old(comments), id), actor);
      if r.Success? {
        PutCommentKeeps(d, r.value);
        comments := PutComment(d, r.value).comments;
      }
    }
  }
}
