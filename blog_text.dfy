/**
 * The string work of the blog handlers: excerpts (at creation and at update),
 * the image public id, and how the `tags` and `customTags` fields are read.
 * `JSON.parse` of a list is the parameter `parse`.
 */
module BlogText {
  import opened Wrappers
  import opened Text

  // ---------------------------------------------------------------- markup and white space

  /**
   * `s.replace(/<[^>]+>/g, ' ')`: from left to right, each `<` followed by one
   * or more characters other than `>` and then a `>` becomes one space.
   */
  function StripTags(s: string): (r: string)
    ensures |r| <= |s|
    ensures forall c :: c in r && c != ' ' ==> c in s
    decreases |s|
  {
    if s == [] then []
    else
      var close := FirstIndex(s, '>');
      if s[0] == '<' && close.Some? && close.value >= 2 then
        " " + StripTags(s[close.value + 1..])
      else
        [s[0]] + StripTags(s[1..])
  }

  /** `s.replace(/\s+/g, ' ')`: each run of white space becomes one space. */
  function CollapseSpaces(s: string): (r: string)
    ensures |r| <= |s|
    ensures forall c :: c in r && c != ' ' ==> c in s
    decreases |s|
  {
    if s == [] then []
    else if IsSpace(s[0]) then " " + CollapseSpaces(TrimStart(s))
    else [s[0]] + CollapseSpaces(s[1..])
  }

  /** The text an excerpt is cut from when none is given: markup removed, white space collapsed, trimmed. */
  function PlainText(content: string): (r: string)
    ensures |r| <= |content|
    ensures Trimmed(r)
  {
    var collapsed := CollapseSpaces(StripTags(content));
    TrimShape(collapsed);
    Trim(collapsed)
  }

  /** No markup tag is left: the first `>` after any `<` comes right after it. */
  ghost predicate NoTag(s: string) {
    forall i, k, j :: 0 <= i < k <= j < |s| && k == i + 1 && s[i] == '<' && s[j] == '>' ==> s[k] == '>'
  }

  /** No two white-space characters stand next to each other. */
  ghost predicate NoDoubleSpace(s: string) {
    forall i, j :: 0 <= i < j < |s| && j == i + 1 ==> !(IsSpace(s[i]) && IsSpace(s[j]))
  }

  lemma ConsNoTag(c: char, t: string)
    requires NoTag(t)
    requires c != '<' || (t != [] && t[0] == '>') || '>' !in t
    ensures NoTag([c] + t)
  {
    var s := [c] + t;
    forall i, k, j | 0 <= i < k <= j < |s| && k == i + 1 && s[i] == '<' && s[j] == '>'
      ensures s[k] == '>'
    {
      assert s[j] == t[j - 1];
      if i > 0 {
        assert s[i] == t[i - 1] && s[k] == t[k - 1];
      }
    }
  }

  lemma NoTagSuffix(s: string, k: nat)
    requires NoTag(s) && k <= |s|
    ensures NoTag(s[k..])
  {
    var t := s[k..];
    forall i, m, j | 0 <= i < m <= j < |t| && m == i + 1 && t[i] == '<' && t[j] == '>'
      ensures t[m] == '>'
    {
      assert s[k + i] == '<' && s[k + j] == '>' && s[k + m] == t[m];
    }
  }

  lemma NoTagPrefix(s: string, k: nat)
    requires NoTag(s) && k <= |s|
    ensures NoTag(s[..k])
  {
  }

  /** A `<` at the front with no `>` right after it has no `>` anywhere after it. */
  lemma NoTagOpenFront(s: string)
    requires NoTag(s) && s != [] && s[0] == '<' && !(1 < |s| && s[1] == '>')
    ensures '>' !in s[1..]
  {
  }

  /** What markup removal leaves has no tag in it. */
  lemma {:induction false} StripTagsNoTag(s: string)
    ensures NoTag(StripTags(s))
    decreases |s|
  {
    if s != [] {
      var close := FirstIndex(s, '>');
      if s[0] == '<' && close.Some? && close.value >= 2 {
        StripTagsNoTag(s[close.value + 1..]);
        ConsNoTag(' ', StripTags(s[close.value + 1..]));
      } else {
        var rest := StripTags(s[1..]);
        StripTagsNoTag(s[1..]);
        if s[0] == '<' {
          if close.None? {
            assert '>' !in rest;
          } else {
            assert close.value == 1 && s[1..][0] == '>';
            assert rest == [s[1]] + StripTags(s[1..][1..]);
          }
        }
        ConsNoTag(s[0], rest);
      }
    }
  }

  /** Collapsing white space creates no tag. */
  lemma {:induction false} CollapseKeepsNoTag(s: string)
    requires NoTag(s)
    ensures NoTag(CollapseSpaces(s))
    decreases |s|
  {
    if s != [] {
      if IsSpace(s[0]) {
        var t := TrimStart(s);
        NoTagSuffix(s, |s| - |t|);
        CollapseKeepsNoTag(t);
        ConsNoTag(' ', CollapseSpaces(t));
      } else {
        NoTagSuffix(s, 1);
        CollapseKeepsNoTag(s[1..]);
        var rest := CollapseSpaces(s[1..]);
        if s[0] == '<' {
          if 1 < |s| && s[1] == '>' {
            assert !IsSpace(s[1..][0]);
            assert rest == [s[1]] + CollapseSpaces(s[1..][1..]);
          } else {
            NoTagOpenFront(s);
            assert '>' !in rest;
          }
        }
        ConsNoTag(s[0], rest);
      }
    }
  }

  /** Collapsing leaves no two white-space characters side by side. */
  lemma {:induction false} CollapseNoDoubleSpace(s: string)
    ensures NoDoubleSpace(CollapseSpaces(s))
    decreases |s|
  {
    if s != [] {
      var t := if IsSpace(s[0]) then TrimStart(s) else s[1..];
      CollapseNoDoubleSpace(t);
      var rest := CollapseSpaces(t);
      var r := CollapseSpaces(s);
      assert r == [r[0]] + rest;
      assert |r| > 1 ==> !(IsSpace(r[0]) && IsSpace(r[1])) by {
        if IsSpace(s[0]) && t != [] {
          assert !IsSpace(t[0]);
          assert rest == [t[0]] + CollapseSpaces(t[1..]);
        }
      }
      forall i, j | 0 <= i < j < |r| && j == i + 1 ensures !(IsSpace(r[i]) && IsSpace(r[j])) {
        if i > 0 {
          assert r[i] == rest[i - 1] && r[j] == rest[j - 1];
        }
      }
    }
  }

  lemma NoDoubleSpaceSlice(s: string, i: nat, j: nat)
    requires NoDoubleSpace(s) && i <= j <= |s|
    ensures NoDoubleSpace(s[i..j])
  {
    var t := s[i..j];
    forall k, m | 0 <= k < m < |t| && m == k + 1 ensures !(IsSpace(t[k]) && IsSpace(t[m])) {
      assert t[k] == s[i + k] && t[m] == s[i + m];
    }
  }

  /** The plain text of any content has no tag, no doubled white space and no white space at either end. */
  lemma PlainTextIsPlain(content: string)
    ensures var p := PlainText(content);
      && NoTag(p) && NoDoubleSpace(p)
      && (p == [] || (!IsSpace(p[0]) && !IsSpace(p[|p| - 1])))
  {
    var c := CollapseSpaces(StripTags(content));
    StripTagsNoTag(content);
    CollapseKeepsNoTag(StripTags(content));
    CollapseNoDoubleSpace(StripTags(content));
    TrimKeepsNoTag(c);
    TrimKeepsNoDoubleSpace(c);
    TrimShape(c);
  }

  lemma TrimKeepsNoTag(c: string)
    requires NoTag(c)
    ensures NoTag(Trim(c))
  {
    TrimShape(c);
    var k := TrimOffset(c);
    var p := Trim(c);
    NoTagSuffix(c, k);
    NoTagPrefix(c[k..], |p|);
    assert c[k..][..|p|] == p;
  }

  lemma TrimKeepsNoDoubleSpace(c: string)
    requires NoDoubleSpace(c)
    ensures NoDoubleSpace(Trim(c))
  {
    TrimShape(c);
    var k := TrimOffset(c);
    NoDoubleSpaceSlice(c, k, k + |Trim(c)|);
  }

  lemma {:induction false} StripTagsOfPlain(s: string)
    requires '<' !in s
    ensures StripTags(s) == s
  {
    if s != [] {
      StripTagsOfPlain(s[1..]);
      assert [s[0]] + s[1..] == s;
    }
  }

  lemma {:induction false} CollapseOfUnspaced(s: string)
    requires forall i :: 0 <= i < |s| ==> !IsSpace(s[i])
    ensures CollapseSpaces(s) == s
  {
    if s != [] {
      CollapseOfUnspaced(s[1..]);
      assert [s[0]] + s[1..] == s;
    }
  }

  /** Content with no `<` and no white space is its own plain text. */
  lemma PlainTextOfWord(s: string)
    requires '<' !in s
    requires forall i :: 0 <= i < |s| ==> !IsSpace(s[i])
    ensures PlainText(s) == s
  {
    StripTagsOfPlain(s);
    CollapseOfUnspaced(s);
    TrimOfTrimmed(s);
  }

  // ---------------------------------------------------------------- excerpts

  /** An excerpt was given: it is defined and not blank (`req.body.excerpt && req.body.excerpt.trim()`). */
  predicate ExplicitExcerpt(excerpt: Option<string>) {
    excerpt.Some? && Trim(excerpt.value) != ""
  }

  /** The text the creation excerpt is cut from: the trimmed explicit excerpt, else the plain text of the content. */
  function ExcerptSource(excerpt: Option<string>, content: string): string {
    if ExplicitExcerpt(excerpt) then Trim(excerpt.value) else PlainText(content)
  }

  /**
   * The excerpt stored at creation: the first 297 characters of its source
   * and then "...", whatever the length of the source.
   */
  function CreateExcerpt(excerpt: Option<string>, content: string): (r: string)
    ensures 3 <= |r| <= 300 && r[|r| - 3..] == "..."
  {
    Take(ExcerptSource(excerpt, content), 297) + "..."
  }

  /** The creation excerpt is its source cut to 297 characters: exactly 300 characters long when the source has 297 or more. */
  lemma CreateExcerptPrefix(excerpt: Option<string>, content: string)
    ensures var (r, src) := (CreateExcerpt(excerpt, content), ExcerptSource(excerpt, content));
      |r| - 3 <= |src| && r[..|r| - 3] == src[..|r| - 3] && (|r| == 300 <==> |src| >= 297)
  {
    var src := ExcerptSource(excerpt, content);
    var r := CreateExcerpt(excerpt, content);
    assert r[..|r| - 3] == Take(src, 297);
  }

  /** A content of at least 297 characters of plain words gives an excerpt of exactly 300. */
  lemma LongWordExcerpt(content: string)
    requires '<' !in content && |content| >= 297
    requires forall i :: 0 <= i < |content| ==> !IsSpace(content[i])
    ensures |CreateExcerpt(None, content)| == 300
  {
    PlainTextOfWord(content);
    CreateExcerptPrefix(None, content);
  }

  /** Any prefix of the plain text of a content has no tag and no doubled white space. */
  lemma PlainTextPrefix(content: string, n: nat)
    ensures NoTag(Take(PlainText(content), n)) && NoDoubleSpace(Take(PlainText(content), n))
  {
    var p := PlainText(content);
    PlainTextIsPlain(content);
    NoTagPrefix(p, |Take(p, n)|);
    NoDoubleSpaceSlice(p, 0, |Take(p, n)|);
  }

  /** Without an explicit excerpt, the text before "..." has no tag and no doubled white space. */
  lemma AutoExcerptIsPlain(content: string)
    ensures var r := CreateExcerpt(None, content);
      NoTag(r[..|r| - 3]) && NoDoubleSpace(r[..|r| - 3])
  {
    PlainTextPrefix(content, 297);
    var t := Take(PlainText(content), 297);
    var r := CreateExcerpt(None, content);
    assert ExcerptSource(None, content) == PlainText(content);
    assert r == t + "...";
    assert r[..|r| - 3] == t;
  }

  /**
   * The excerpt stored at update: the first 300 characters of the content,
   * then "..." only when the content is longer than 300 characters.
   */
  function UpdateExcerpt(content: string): (r: string)
    ensures |content| <= 300 ==> r == content
    ensures |content| > 300 ==> |r| == 303 && r[..300] == content[..300] && r[300..] == "..."
  {
    Take(content, 300) + (if |content| > 300 then "..." else "")
  }

  // ---------------------------------------------------------------- image public id

  /** `url.split('/').pop().split('.')[0]`: the last path segment up to its first dot. */
  function PublicId(url: string): (id: string)
    ensures '/' !in id && '.' !in id
  {
    var segments := Split(url, '/');
    var last := segments[|segments| - 1];
    assert '/' !in last;
    var id := Split(last, '.')[0];
    SplitFirstIsPrefix(last, '.');
    assert forall c :: c in id ==> c in last;
    id
  }

  lemma {:induction false} SplitFirstIsPrefix(s: string, sep: char)
    ensures |Split(s, sep)[0]| <= |s| && Split(s, sep)[0] == s[..|Split(s, sep)[0]|]
  {
    if s != [] {
      SplitFirstIsPrefix(s[1..], sep);
    }
  }

  /** The asset that `cloudinary.uploader.destroy` is asked to remove for a featured image. */
  function AssetId(url: string): string {
    "techsphere/featured-images/" + PublicId(url)
  }

  /** The public id of an asset URL `<anything>/<name>.<extension>` is `<name>`. */
  lemma PublicIdOfAssetUrl(prefix: string, name: string, extension: string)
    requires '/' !in name && '.' !in name && '/' !in extension
    ensures PublicId(prefix + "/" + name + "." + extension) == name
  {
    var file := name + "." + extension;
    assert prefix + "/" + name + "." + extension == prefix + ['/'] + file;
    SplitAppend(prefix, file, '/');
    assert '/' !in file;
    SplitNoSeparator(file, '/');
    SplitAppend(name, extension, '.');
    SplitNoSeparator(name, '.');
  }

  // ---------------------------------------------------------------- tag fields

  /** A list field of a request body: an array, a string (serialized JSON), or absent. */
  datatype ListInput = Items(items: seq<string>) | Serialized(raw: string) | Absent

  /**
   * `JSON.parse(raw)`, None where it throws. The empty string is not JSON, so
   * it always throws; any other string is left to the parser `parse`.
   */
  function ParseJson(raw: string, parse: string -> Option<seq<string>>): (r: Option<seq<string>>)
    ensures raw == "" ==> r.None?
    ensures raw != "" ==> r == parse(raw)
  {
    if raw == "" then None else parse(raw)
  }

  /**
   * How `createBlog` reads `tags` and `customTags`: an array as it is, a string
   * through `JSON.parse` (None when it throws), anything else as the empty list.
   */
  function ReadListField(v: ListInput, parse: string -> Option<seq<string>>): (r: Option<seq<string>>)
    ensures v.Items? ==> r == Some(v.items)
    ensures v.Absent? ==> r == Some([])
    ensures v.Serialized? ==> r == ParseJson(v.raw, parse)
  {
    match v
    case Items(xs) => Some(xs)
    case Serialized(raw) => ParseJson(raw, parse)
    case Absent => Some([])
  }

  /** `String(array)`: the elements joined by commas. */
  function ArrayString(xs: seq<string>): string {
    if xs == [] then "" else Join(xs, ',')
  }

  /** `JSON.parse(tags)` in `updateBlog`: an array is first turned into a string; an absent field throws. */
  function ParseTagsForUpdate(v: ListInput, parse: string -> Option<seq<string>>): (r: Option<seq<string>>)
    ensures v.Absent? ==> r.None?
    ensures v.Items? ==> r == ParseJson(ArrayString(v.items), parse)
    ensures v.Serialized? ==> r == ParseJson(v.raw, parse)
    ensures v == Items([]) || v == Serialized("") ==> r.None?
  {
    match v
    case Items(xs) => ParseJson(ArrayString(xs), parse)
    case Serialized(raw) => ParseJson(raw, parse)
    case Absent => None
  }

  /**
   * `customTags ? JSON.parse(customTags) : []` in `updateBlog`: an absent or
   * empty string gives `[]` unparsed; an array, even an empty one, is truthy
   * and is parsed as its string form.
   */
  function ParseCustomTagsForUpdate(v: ListInput, parse: string -> Option<seq<string>>): (r: Option<seq<string>>)
    ensures v.Absent? || v == Serialized("") ==> r == Some([])
    ensures v.Serialized? && v.raw != "" ==> r == parse(v.raw)
    ensures v.Items? ==> r == ParseJson(ArrayString(v.items), parse)
    ensures v == Items([]) ==> r.None?
  {
    match v
    case Items(xs) => ParseJson(ArrayString(xs), parse)
    case Serialized(raw) => if raw == "" then Some([]) else parse(raw)
    case Absent => Some([])
  }

  /** `status || fallback`. */
  function StatusOr(status: Option<string>, fallback: string): string {
    if status.Some? && status.value != "" then status.value else fallback
  }
}
