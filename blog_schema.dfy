/**
 * The blog document: its fields, the defaults a new document gets, the `trim`
 * setters, and the constraints `save` validates.
 */
module BlogSchema {
  import opened Common
  import Text

  /** The values a tag may take. */
  const TagValues: seq<string> := [
    "JavaScript", "Python", "Web Development", "Cyber Security", "AI", "Machine Learning",
    "Data Science", "Cloud Computing", "DevOps", "Mobile Development", "Blockchain", "Other"]

  const Draft: string := "draft"
  const Published: string := "published"

  /** A blog document. `featuredImage` is "" when the blog has no image. */
  datatype Blog = Blog(
    id: BlogId,
    title: string,
    content: string,
    excerpt: string,
    author: UserId,
    tags: seq<string>,
    customTags: seq<string>,
    likes: seq<UserId>,
    likesCount: int,
    comments: seq<CommentId>,
    views: int,
    featuredImage: string,
    status: string,
    createdAt: nat,
    updatedAt: nat)

  /** A new document: no likes, no comments, no views; both timestamps are the construction time. */
  function NewBlog(id: BlogId, title: string, content: string, excerpt: string, tags: seq<string>,
                   customTags: seq<string>, author: UserId, status: string, featuredImage: string,
                   now: nat): Blog
  {
    Blog(id, title, content, excerpt, author, tags, customTags, [], 0, [], 0, featuredImage, status, now, now)
  }

  /** Each string trimmed, as the `trim` setter of `customTags` stores them. */
  function TrimAll(xs: seq<string>): (r: seq<string>)
    ensures |r| == |xs| && forall i :: 0 <= i < |xs| ==> r[i] == Text.Trim(xs[i])
  {
    seq(|xs|, i requires 0 <= i < |xs| => Text.Trim(xs[i]))
  }

  /** The document as its setters store it: the title and every custom tag trimmed. */
  function Normalize(b: Blog): Blog {
    b.(title := Text.Trim(b.title), customTags := TrimAll(b.customTags))
  }

  /** Storing an already stored document changes nothing: the setters are idempotent. */
  lemma NormalizeIdempotent(b: Blog)
    ensures Normalize(Normalize(b)) == Normalize(b)
  {
    Text.TrimIdempotent(b.title);
    TrimAllIdempotent(b.customTags);
    var n := Normalize(b);
    assert Normalize(n) == n.(title := Text.Trim(n.title), customTags := TrimAll(n.customTags));
  }

  lemma TrimAllIdempotent(xs: seq<string>)
    ensures TrimAll(TrimAll(xs)) == TrimAll(xs)
  {
    var once := TrimAll(xs);
    forall i | 0 <= i < |once| ensures TrimAll(once)[i] == once[i] {
      Text.TrimIdempotent(xs[i]);
    }
  }

  /** What the setters leave: a title and custom tags with no white space at either end. */
  predicate SetterForm(b: Blog) {
    Text.Trimmed(b.title) && forall i :: 0 <= i < |b.customTags| ==> Text.Trimmed(b.customTags[i])
  }

  /** Whatever a document held, its stored form is in setter form. */
  lemma NormalizeSetterForm(b: Blog)
    ensures SetterForm(Normalize(b))
  {
    Text.TrimShape(b.title);
    var n := Normalize(b);
    forall i | 0 <= i < |n.customTags| ensures Text.Trimmed(n.customTags[i]) {
      Text.TrimShape(b.customTags[i]);
    }
  }

  /** A document in setter form is stored unchanged. */
  lemma SetterFormFixed(b: Blog)
    requires SetterForm(b)
    ensures Normalize(b) == b
  {
    Text.TrimOfTrimmed(b.title);
    var n := Normalize(b);
    forall i | 0 <= i < |b.customTags| ensures n.customTags[i] == b.customTags[i] {
      Text.TrimOfTrimmed(b.customTags[i]);
    }
    assert n.customTags == b.customTags;
    assert n.title == b.title;
  }

  /** `t` is one of `values`, looked up one entry at a time. */
  predicate Listed(t: string, values: seq<string>)
    decreases |values|
  {
    values != [] && (values[0] == t || Listed(t, values[1..]))
  }

  lemma {:induction false} ListedIsIn(t: string, values: seq<string>)
    ensures Listed(t, values) <==> t in values
    decreases |values|
  {
    if values != [] {
      ListedIsIn(t, values[1..]);
      assert values == [values[0]] + values[1..];
    }
  }

  /** Every tag is one of `TagValues`. */
  predicate TagsAllowed(tags: seq<string>) {
    forall i :: 0 <= i < |tags| ==> Listed(tags[i], TagValues)
  }

  /** Every custom tag has at most 20 characters. */
  predicate CustomTagsFit(customTags: seq<string>) {
    forall i :: 0 <= i < |customTags| ==> |customTags[i]| <= 20
  }

  /**
   * The schema's validators: a non-empty title of at most 200 characters, a
   * non-empty content, a non-empty excerpt of at most 300 characters, an
   * author, tags from `TagValues`, custom tags of at most 20 characters, and a
   * status of draft or published.
   */
  predicate Conforms(b: Blog) {
    && b.title != "" && |b.title| <= 200
    && b.content != ""
    && b.excerpt != "" && |b.excerpt| <= 300
    && b.author != ""
    && TagsAllowed(b.tags) && CustomTagsFit(b.customTags)
    && (b.status == Draft || b.status == Published)
  }
}
