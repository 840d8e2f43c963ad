# Tech-Sphere engagement core in Dafny

This project models the engagement core of the Tech-Sphere blogging backend, an
Express application over MongoDB. The core is:

- the blog handlers: `createBlog`, `updateBlog`, `deleteBlog`, `toggleLikeBlog`,
  `getBlogById` (which counts a view), `getBlogs` and `getBlogsByUser`;
- the comment handlers: `createComment`, `getBlogComments`, `updateComment`,
  `deleteComment` and `getUserComments`;
- the Mongoose schemas of blogs and comments, including the `trim` setters,
  the validators and the `pre('save')` hook that stamps `updatedAt`;
- the `protect` and `admin` middleware;
- the construction of the update document in `updateUserProfile`.

The two collections are finite maps, `BlogId -> Blog` and `CommentId -> Comment`.
They are held in the class `Engagement.Store` together with two id counters
(ObjectId generation) and a clock (`Date.now`). Each mutating handler is a
method of `Store`. The method's result is an `Outcome`, which is either a value
or an error status (400, 401, 403, 404 or 500) with the handler's message. The
decision each handler makes is a function of the records it reads; the method
applies that decision to the maps. `Store.Valid()` is the invariant every
handler keeps:

- every blog and comment is schema-valid;
- `likesCount == |likes|` and `likes` has no duplicates;
- a reply's id is in its parent's `replies`, and every id in `replies` names a
  comment whose `parentComment` is that parent;
- the `comments` list of a blog and the `blog` field of its comments agree;
- a parent is always older than its replies, so no comment is its own
  ancestor.

Which routes need an authenticated user (`routes/blogs.js`, `routes/comments.js`)
is encoded by the handler taking an `actor: Auth.User` parameter.

Modules and files:

- `wrappers.dfy`: `Option`.
- `common.dfy`: ids, statuses and `Outcome`.
- `text.dfy`: the JavaScript string operations used. These are `trim`,
  `split`, `substring`, `startsWith`, `parseInt` and a case-insensitive
  substring test.
- `auth.dfy`: `protect`, `admin`, and the edit and delete ownership rules.
- `blog_schema.dfy` and `comment_schema.dfy`: the documents, their defaults
  and their validators.
- `blog_text.dfy`: excerpts, the image public id, and reading the tag fields.
- `listing.dfy`: `page`/`limit` parsing, skip/limit windows,
  `Math.ceil(total / limit)`, and selecting and sorting records.
- `db.dfy`: the store invariant and one preservation lemma per kind of write.
- `engagement.dfy`: the mutating handlers and the `Store` class.
- `queries.dfy`: the four listings.
- `profile.dfy`: `updateUserProfile`.

External services are parameters:

- `jwt.verify` is `verify: string -> Option<Payload>`.
- The user collection read by `protect` is a map.
- `JSON.parse` is `parse`, which returns None where it would throw.
- A Cloudinary upload is an `Upload` value: no file, the URL, or a failure.
- `cloudinary.uploader.destroy` is `destroy: string -> bool`.
- The profile-picture branch is a `PictureUpload` value.

The model follows the code, including these behaviours:

- An old featured image whose deletion throws aborts `updateBlog` and
  `deleteBlog` with 500 before anything is saved or removed. It is not
  best-effort.
- `updateBlog` sets the excerpt to the first 300 characters of the content,
  plus `"..."` when the content is longer than 300. So any content over 300
  characters gives a 303-character excerpt, the schema rejects the save, and
  the handler answers 500 (`LongContentUpdateFails`).
- `likesCount` is kept as its own counter, next to the `likes` array. It stays
  equal to `|likes|` only because every write keeps it so
  (`Toggled`, `Database.LikesInStep`).
- A reply may name any existing parent comment. The parent may be deleted and
  may belong to another blog.
- Deleting a comment twice succeeds both times. The second delete overwrites
  `deletedBy`.
- Deleting a blog leaves its comments in place.

## Model

| member | source | states |
|---|---|---|
| `Auth.SelectToken` | middleware/auth.js:5-15 | a truthy cookie is the token; otherwise a header starting with `Bearer` yields its second space-separated word; otherwise no token |
| `Auth.BearerHeaderToken` | middleware/auth.js:13-14 | with no cookie, `Bearer <token>` yields exactly `<token>` |
| `Auth.PayloadUserId` | middleware/auth.js:29 | the user id is `decoded.user.id` when truthy, else `decoded.id` when truthy, else none |
| `Auth.Authenticate` | middleware/auth.js:17-56 | every failure is 401; success iff a token exists, verifies, yields a user id and that user exists, and then the result is that user |
| `Auth.CookieWins` | middleware/auth.js:8-15 | with a cookie token, the Authorization header has no effect on the outcome |
| `Auth.Request.Protect` | middleware/auth.js:4-58 | answers as `Authenticate`; sets `req.user` exactly on success and leaves it unchanged otherwise |
| `Auth.AdminGate` | middleware/auth.js:60-69 | passes iff a user is present and has role admin; otherwise 403 |
| `Auth.MayEdit` | controllers/blogController.js:173 | editing a blog (and, at commentController.js:103, a comment) is for its author only; being an admin does not help |
| `Auth.MayDelete` | controllers/blogController.js:214 | deleting a blog (and, at commentController.js:135, a comment) is for its author or any admin |
| `BlogSchema.NewBlog` | models/Blog.js:34-65 | a new document has no likes, a `likesCount` of 0, no comments, 0 views, and both timestamps at the construction time |
| `BlogSchema.Normalize` | models/Blog.js:4-33 | the `trim` setters: the title and every custom tag are stored trimmed, everything else as given |
| `BlogSchema.Conforms` | models/Blog.js:3-57 | the validators: a title of 1 to 200 characters, a content, an excerpt of 1 to 300 characters, an author, tags from the enum, custom tags of at most 20 characters, a status of draft or published |
| `BlogSchema.NormalizeIdempotent` | models/Blog.js:4-33 | the `trim` setters on `title` and `customTags` are idempotent |
| `BlogSchema.NormalizeSetterForm` | models/Blog.js:4-33 | after the setters, the title and every custom tag have no white space at either end |
| `BlogSchema.SetterFormFixed` | models/Blog.js:4-33 | a document already in setter form is stored unchanged |
| `CommentSchema.NewComment` | models/Comment.js:23-38 | a new comment has no replies, is not deleted, has no `deletedBy`, and is created at the construction time |
| `CommentSchema.Conforms` | models/Comment.js:3-18 | the validators: a content of 1 to 1000 characters and an author |
| `BlogText.StripTagsNoTag` | controllers/blogController.js:130 | after replacing `<...>` by spaces, no markup tag is left |
| `BlogText.CollapseKeepsNoTag` | controllers/blogController.js:131 | collapsing white space creates no markup tag |
| `BlogText.CollapseNoDoubleSpace` | controllers/blogController.js:131 | after collapsing, no two white-space characters are adjacent |
| `BlogText.PlainTextIsPlain` | controllers/blogController.js:129-132 | the plain text of any content has no tag, no doubled white space, and no white space at either end |
| `BlogText.CreateExcerpt` | controllers/blogController.js:123-134 | the creation excerpt has 3 to 300 characters and always ends with `...` |
| `BlogText.CreateExcerptPrefix` | controllers/blogController.js:123-134 | the excerpt before `...` is a prefix of its source (trimmed explicit excerpt, else plain text); it is exactly 300 long iff the source has at least 297 characters |
| `BlogText.LongWordExcerpt` | controllers/blogController.js:129-133 | plain content of 297 or more characters gives an excerpt of exactly 300 |
| `BlogText.AutoExcerptIsPlain` | controllers/blogController.js:128-133 | without an explicit excerpt, the excerpt text has no tag and no doubled white space |
| `BlogText.UpdateExcerpt` | controllers/blogController.js:190 | the update excerpt is the content when it has at most 300 characters; otherwise its first 300 characters plus `...`, 303 in all |
| `BlogText.PublicId` | controllers/blogController.js:185 | the public id of an image URL contains neither `/` nor `.` |
| `BlogText.PublicIdOfAssetUrl` | controllers/blogController.js:219-220 | the public id of `<prefix>/<name>.<ext>` is `<name>` |
| `BlogText.StripTags` | controllers/blogController.js:130 | the tag replace never lengthens the text and adds no character but the space |
| `BlogText.CollapseSpaces` | controllers/blogController.js:131 | the white-space collapse never lengthens the text and adds no character but the space |
| `BlogText.PlainText` | controllers/blogController.js:128-132 | tags replaced, white space collapsed, then trimmed: no longer than the content and with no white space at either end |
| `BlogText.ParseJson` | controllers/blogController.js:89 | `JSON.parse` always throws on the empty string; any other string goes to the parser |
| `BlogText.ReadListField` | controllers/blogController.js:87-104 | an array is used as is, an absent field becomes `[]`, and a string is JSON-parsed, failing exactly when the parse throws |
| `BlogText.ParseTagsForUpdate` | controllers/blogController.js:195 | an absent `tags` throws; a string is JSON-parsed; an array is parsed as its comma-joined string, so an empty array throws |
| `BlogText.ParseCustomTagsForUpdate` | controllers/blogController.js:196 | an absent or empty `customTags` becomes `[]` without parsing; a non-empty string is parsed; an array, even an empty one, is truthy and parsed as its comma-joined string |
| `Database.AddBlogKeeps` | controllers/blogController.js:136-148 | storing a valid new blog with no comments keeps the invariant |
| `Database.PutBlogKeeps` | models/Blog.js:69-72 | saving a valid blog that keeps its id and comment list keeps the invariant |
| `Database.RemoveBlogKeeps` | controllers/blogController.js:223 | removing a blog, without touching its comments, keeps the invariant |
| `Database.PutCommentKeeps` | controllers/commentController.js:112-113 | saving a comment that keeps its blog, parent, replies and creation time keeps the invariant |
| `Database.PushReplyFrame` | controllers/commentController.js:36-43 | creating a comment adds exactly that comment, appends its id to the parent's `replies`, and changes no other comment |
| `Database.AddCommentKeeps` | controllers/commentController.js:29-48 | a valid new comment whose blog and parent exist, linked into the parent's `replies` and the blog's `comments`, keeps the invariant |
| `Database.AncestorOlder` | controllers/commentController.js:22-34 | every proper ancestor of a comment has a smaller id |
| `Database.NoSelfAncestor` | controllers/commentController.js:22-34 | no comment is its own ancestor: the reply relation is acyclic |
| `Engagement.Without` | controllers/blogController.js:241 | the filter removes every occurrence of the user, keeps everyone else, and shrinks a duplicate-free list by exactly one |
| `Engagement.Toggled` | controllers/blogController.js:238-246 | a liker is removed with `likesCount - 1`; anyone else is added with `likesCount + 1`; `likesCount` stays equal to the length of `likes`; no other field changes |
| `Engagement.ToggleTwiceRestores` | controllers/blogController.js:238-246 | from a not-liked state, two toggles restore the blog exactly |
| `Engagement.ToggleTwiceKeepsLikers` | controllers/blogController.js:238-246 | from a liked state, two toggles keep the same likers and the same count |
| `Engagement.SaveBlog` | models/Blog.js:69-72 | a save succeeds iff the schema accepts the blog, and sets `updatedAt` to now |
| `Engagement.SaveComment` | models/Comment.js:3-34 | a comment save succeeds iff the schema accepts it, and stores it unchanged |
| `Engagement.ToggleLikeOutcome` | controllers/blogController.js:233-255 | 404 for a missing blog; otherwise the toggled blog saved, still a valid record |
| `Engagement.ViewOutcome` | controllers/blogController.js:53-76 | 404 for a missing blog; otherwise views rise by exactly one and nothing else but `updatedAt` changes |
| `Engagement.TrimAllShort` | models/Blog.js:29-33 | the stored custom tags fit in 20 characters iff each tag fits once trimmed |
| `Engagement.NewBlogRecord` | controllers/blogController.js:136-145 | a new blog holds the trimmed title, content, excerpt, tags, trimmed custom tags, status or `draft`, the uploaded image or `''`, and no likes, views or comments |
| `Engagement.ConformsByFields` | models/Blog.js:3-58 | a blog with a fitting excerpt passes the schema iff it has an author, a trimmed title of 1 to 200 characters, content, allowed tags, custom tags of at most 20 characters and status draft or published |
| `Engagement.NewBlogConforms` | controllers/blogController.js:136-148 | a new blog passes the schema iff title and content were given and its fields are valid |
| `Engagement.CreateBlogOutcome` | controllers/blogController.js:79-164 | a created blog is a valid record with the allocated id, no comments, and `updatedAt` now |
| `Engagement.CreateBlogStatuses` | controllers/blogController.js:86-159 | bad tags give 400, then bad custom tags give 400; 500 iff the content is missing and no excerpt is given; success iff both lists parse and the fields are valid |
| `Engagement.CreateBlogFields` | controllers/blogController.js:106-145 | a created blog holds the form's fields, status `draft` when none is given, `''` as image when the upload failed, and zero likes and views |
| `Engagement.UpdatedImage` | controllers/blogController.js:175-188 | no file keeps the old image; a failed upload, or a failed destroy of an existing image, aborts; otherwise the new URL |
| `Engagement.UpdatedRecord` | controllers/blogController.js:190-198 | the assignments set title, content, excerpt, tags, custom tags, status (kept when none is sent) and image, and leave every other field unchanged |
| `Engagement.UpdatedConforms` | controllers/blogController.js:190-200 | the updated blog passes the schema iff its fields are valid and the content has at most 300 characters |
| `Engagement.UpdateBlogOutcome` | controllers/blogController.js:167-207 | success only for the author, keeping the id and comments, and with `updatedAt` now; the result is a valid record |
| `Engagement.UpdateBlogStatuses` | controllers/blogController.js:171-173 | a missing blog gives 404, then a non-author gives 401 (admins too); every later failure is 500 |
| `Engagement.UpdateBlogSucceeds` | controllers/blogController.js:171-200 | exactly when the update succeeds: author, image step succeeded, content of at most 300, tags parse, fields valid |
| `Engagement.UpdateBlogFields` | controllers/blogController.js:190-198 | an updated blog holds the new fields, its status or the old one, and its old likes, views, author and creation time |
| `Engagement.LongContentUpdateFails` | controllers/blogController.js:190 | content longer than 300 characters always makes the update fail |
| `Engagement.DeleteBlogOutcome` | controllers/blogController.js:210-230 | 404 for a missing blog, 401 unless author or admin; success iff allowed and the image (if any) was destroyed |
| `Engagement.CreateCommentOutcome` | controllers/commentController.js:6-58 | a created comment requires an existing blog and, if given, an existing parent; it is a new comment by the actor, valid as a record |
| `Engagement.CreateCommentStatuses` | controllers/commentController.js:7-36 | missing content, then a missing blog id, give 400; 404 iff the blog, or a given parent, is missing; success iff content of at most 1000 and both exist |
| `Engagement.CreatedCommentFields` | controllers/commentController.js:29-34 | a created comment has the actor as author, the given parent or none, no replies, and is not deleted |
| `Engagement.UpdateCommentOutcome` | controllers/commentController.js:92-123 | 404, then 401 for a non-author (admins too), then 400 for a deleted comment; on success only `content` changes |
| `Engagement.SoftDeleted` | controllers/commentController.js:139-142 | a soft delete sets `isDeleted` and `deletedBy = actor`, and changes no other field |
| `Engagement.DeleteCommentOutcome` | controllers/commentController.js:126-152 | 404, then 401 unless author or admin; otherwise the comment soft-deleted |
| `Engagement.DeleteCommentAgain` | controllers/commentController.js:128-144 | deleting an already deleted comment succeeds and only overwrites `deletedBy` |
| `Engagement.DeletedCommentFrozen` | controllers/commentController.js:107-110 | a soft-deleted comment can no longer be edited; its author gets 400 |
| `Engagement.CreateBlogKeeps` | controllers/blogController.js:136-148 | storing the blog `createBlog` accepts under the next id keeps the store invariant |
| `Engagement.ViewKeeps` | controllers/blogController.js:53-76 | the view succeeds iff the blog is stored, and saving the counted view keeps the store invariant |
| `Engagement.ToggleLikeKeeps` | controllers/blogController.js:233-255 | the toggle succeeds iff the blog is stored, and saving the toggled blog keeps the store invariant |
| `Engagement.UpdateBlogKeeps` | controllers/blogController.js:167-207 | saving the updated blog under its own id keeps the store invariant |
| `Engagement.CreateCommentKeeps` | controllers/commentController.js:6-58 | storing the comment `createComment` accepts, with its reply and blog links, keeps the store invariant |
| `Engagement.Store.CreateBlog` | controllers/blogController.js:79-164 | stores the created blog under a new id, or changes nothing but the clock; the invariant is kept |
| `Engagement.Store.GetBlogById` | controllers/blogController.js:53-76 | succeeds iff the blog exists, and then saves it with one more view |
| `Engagement.Store.ToggleLikeBlog` | controllers/blogController.js:233-255 | succeeds iff the blog exists, and then saves the toggled blog |
| `Engagement.Store.UpdateBlog` | controllers/blogController.js:167-207 | saves the updated blog on success and nothing otherwise |
| `Engagement.Store.DeleteBlog` | controllers/blogController.js:210-230 | removes exactly that blog on success; comments are untouched |
| `Engagement.Store.CreateComment` | controllers/commentController.js:6-58 | on success, stores the comment and appends its id to the parent's `replies` and the blog's `comments`; on failure writes nothing |
| `Engagement.Store.UpdateComment` | controllers/commentController.js:92-123 | writes back only that comment, and only on success |
| `Engagement.Store.DeleteComment` | controllers/commentController.js:126-152 | writes back only that comment, soft-deleted, and only on success |
| `Listing.QueryNumber` | controllers/blogController.js:9-10 | a missing value, one `parseInt` cannot read, or one it reads as 0 gives the default; any other value is what `parseInt` reads; a non-zero default never gives 0 |
| `Listing.QueryNumberDecimal` | controllers/blogController.js:9-10 | a decimal number is read back as written, except that 0 gives the default |
| `Listing.SkipNonNegative` | controllers/blogController.js:11 | with page and limit at least 1, skip is non-negative and grows by `limit` per page |
| `Listing.Pages` | controllers/blogController.js:44 | `pages` is `ceil(total/limit)`: the least page count covering `total` |
| `Listing.PagesExact` | controllers/blogController.js:44 | a total of exactly `p` pages' worth gives `p` pages |
| `Listing.Window` | controllers/blogController.js:33-34 | skip/limit returns the records from position `skip`, at most the absolute value of `limit` of them |
| `Listing.WindowsTile` | controllers/blogController.js:31-34 | consecutive pages neither overlap nor leave a gap |
| `Listing.SortBy` | controllers/blogController.js:32 | the sort returns a permutation of its input, ordered by the key |
| `Listing.Select` | controllers/blogController.js:31-38 | the query returns every matching record and nothing else, ordered, as many as `countDocuments` counts |
| `Listing.Paginate` | controllers/blogController.js:9-45 | page and limit default to 1 and 10; a negative skip gives 500; otherwise the window, the total and `ceil(total/limit)` |
| `Listing.PaginateDefaults` | controllers/blogController.js:9-11 | with no paging parameters, the first ten records, page 1 |
| `Listing.PaginateAt` | controllers/blogController.js:9-45 | page `p` of `l` records, asked for in decimal, is the window after `(p-1)*l` records, with page `p` and `ceil(total/l)` pages |
| `Listing.EveryRecordOnItsPage` | controllers/blogController.js:9-45 | no record is unreachable: the one at position `j` is item `j % l` of page `j / l + 1` |
| `Queries.MatchesQuery` | controllers/blogController.js:15-29 | the filter of `getBlogs`: the status when given, any of the comma-separated tags when given, and the search text in title or content ignoring case when given |
| `Queries.GetBlogs` | controllers/blogController.js:7-50 | the page is the requested window of all stored blogs matching status, tags and search, newest first; the total counts all matches; `page` is the requested page and `pages` is `ceil(total/limit)` |
| `Queries.GetBlogsByUser` | controllers/blogController.js:258-286 | the page is the requested window of all that author's published blogs, newest first; the total counts them; `page` is the requested page and `pages` is `ceil(total/limit)` |
| `Queries.UserListingHasNoDrafts` | controllers/blogController.js:264 | a user's listing never holds a draft |
| `Queries.Populate` | controllers/commentController.js:75-81 | populating replies keeps every existing reply, in order, deleted or not |
| `Queries.GetBlogComments` | controllers/commentController.js:61-68 | 404 "Blog not found" iff the blog is missing |
| `Queries.BlogCommentsListed` | controllers/commentController.js:70-83 | for an existing blog: exactly its top-level undeleted comments, oldest first, as many as match, each with all its replies populated |
| `Queries.ThreadRepliesAreChildren` | controllers/commentController.js:69-81 | in a consistent store, each listed reply names its thread's comment as parent |
| `Queries.GetUserComments` | controllers/commentController.js:155-189 | the page is the requested window of all that author's undeleted comments, newest first; the total counts them; `page` is the requested page and `pages` is `ceil(total/limit)` |
| `Profile.ParseValue` | controllers/userProfileController.js:41-42 | `JSON.parse` always throws on the empty string; any other string goes to the parser |
| `Profile.LinksData` | controllers/userProfileController.js:39-47 | a string is JSON-parsed, with a parse failure becoming `{}` (so the empty string gives `{}`); any other value is used as is when truthy, and `{}` when falsy |
| `Profile.LinkOr` | controllers/userProfileController.js:53-56 | each link is the truthy property of the data, or `''` |
| `Profile.NormalizeLinks` | controllers/userProfileController.js:52-57 | the stored links have exactly the four keys, each taken from the data or `''` |
| `Profile.NormalizeLinksIdempotent` | controllers/userProfileController.js:52-57 | normalising stored links again gives them back |
| `Profile.UnparsableLinksAreEmpty` | controllers/userProfileController.js:44-47 | an unparsable `socialLinks` string, the empty one included, silently gives four empty links |
| `Profile.EmptyLinksStringGivesEmptyLinks` | controllers/userProfileController.js:39-57 | an empty `socialLinks` field gives four empty links and never the 500 of `null` links data |
| `Profile.StringLinksKept` | controllers/userProfileController.js:49-57 | an object of four string links is stored as given |
| `Profile.UpdateUserProfile` | controllers/userProfileController.js:35-88 | username and bio are copied unchanged; `profilePicture` is set iff a picture was stored; a failed picture branch gives 500; the update targets the actor |

## Left out

- `getUserProfile`, `getUserBlogs` and `getCurrentUserProfile` in `controllers/userProfileController.js` are not part of this model. The same holds for the `authController.js` and `aiController.js` controllers, the route tables, server wiring and multer configuration.
- `updateUserProfile`: the `findByIdAndUpdate` write and its validators are not modelled. The model stops at the update document and the user it targets.
- `updateUserProfile`: the picture branch is one abstract outcome. The user lookup inside it, the old-picture deletion, and the upload are not modelled separately. The helpers it imports are not exported by `utils/cloudinary.js`, and it destructures `secure_url` from a string. These defects are not reproduced.
- The express-validator checks in `createBlog` and `updateUserProfile` are not modelled: no rules are declared on those routes, so they always pass. The two rules on the comment route are modelled as the first two 400 answers of `createComment`.
- MongoDB ObjectId cast errors are not modelled. A malformed id is simply an id with no record. For the single-record handlers that gives the same not-found answer as the source. The 500 that a cast error gives in `createComment` is not modelled.
- Queries.GetBlogsByUser: a malformed `userId` matches no blog, so the model answers with an empty page. The source answers 404 "User not found" for it (the `CastError` branch of `getBlogsByUser`).
- Queries.GetUserComments: a malformed `userId` matches no comment, so the model answers with an empty page. The source answers 404 "User not found" for it (the `CastError` branch of `getUserComments`).
- Listing.QueryNumberDecimal: query numbers, `skip`, `pages` and the counters are unbounded integers here. In the source `page` and `limit` are JavaScript doubles, so `parseInt` is exact only up to 2^53 (9007199254740993 reads as 9007199254740992, and a long enough digit string reads as `Infinity`), and `(page - 1) * limit` and `Math.ceil` are double arithmetic. The read-back this lemma states, and `Listing.QueryNumber`, `Listing.Skip` and `Listing.Pages`, agree with the source only for magnitudes up to 2^53.
- Concurrency is not modelled. Every handler is a sequential, atomic step. The source's read-modify-write of `views` and `likes` would lose updates under concurrent requests, and the model claims nothing about that.
- `populate` and `select('-content')` are not modelled. Listings return whole records, and the author fields are not joined.
- `search` is modelled as a case-insensitive substring test on title or content. The source hands it to MongoDB as a regular expression. Case folding covers A–Z only.
- `JSON.parse` is an abstract parser. For tags it yields a list of strings; a value that parses to something other than an array of strings is not modelled. Only one fact about JSON is built in, both for the tag fields (`BlogText.ParseJson`) and for `socialLinks` (`Profile.ParseValue`): the empty string never parses. Every other string, including one of white space alone, is left to the parser.
- Mongoose casting of non-string values into string fields is not modelled.
- Cloudinary calls are parameters: the upload result and whether a destroy succeeded. An asset uploaded before a later failure stays in the asset store in the source; the model does not track the asset store.
- `Date.now` is a counter that each handler ticks once. A new blog's `createdAt` and `updatedAt` therefore share one tick. In the source they come from two calls that may differ by a millisecond.
- Engagement.ToggleLikeOutcome: the success half of its contract is stated only for a blog that is already a valid stored record. A stored blog always is one, by `Store.Valid()`.
- Engagement.ViewOutcome: the success half of its contract is stated only for a blog that is already a valid stored record. A stored blog always is one, by `Store.Valid()`.
- Engagement.DeleteCommentOutcome: the success case is stated only for a comment that is already a valid stored record. A stored comment always is one, by `Store.Valid()`.
- Strings are sequences of Unicode scalar values. Lengths agree with JavaScript's only for text inside the Basic Multilingual Plane: the source counts two UTF-16 code units for every other character, so the maxlength limits, `substring(0, 297)` and `content.length > 300` differ for such text. White space is the set that JavaScript's `\s` and `trim()` use.
