/**
 * `updateUserProfile`: the update document built from the request body. The
 * `socialLinks` field is read leniently and normalised to exactly four links;
 * the profile-picture branch (finding the user, deleting the old picture,
 * uploading the new one) is the parameter `picture`, its outcome as a whole.
 * `JSON.parse` is the parameter `parse`.
 */
module Profile {
  import opened Wrappers
  import opened Common
  import Auth

  /** A JSON value, as `JSON.parse` returns it or a JSON request body holds it. */
  datatype Json =
    | JNull
    | JBool(b: bool)
    | JNumber(n: int)
    | JString(s: string)
    | JArray(items: seq<Json>)
    | JObject(fields: map<string, Json>)

  /** JavaScript truthiness: null, false, 0 and "" are falsy; arrays and objects are truthy. */
  predicate Truthy(v: Json) {
    match v
    case JNull => false
    case JBool(b) => b
    case JNumber(n) => n != 0
    case JString(s) => s != ""
    case JArray(_) => true
    case JObject(_) => true
  }

  /** `{}`. */
  const EmptyObject: Json := JObject(map[])

  /** The empty string as a JSON value: what a missing link is stored as. */
  const NoLink: Json := JString("")

  /**
   * `JSON.parse(raw)`, None where it throws. The empty string is not JSON, so
   * it always throws; any other string is left to the parser `parse`.
   */
  function ParseValue(raw: string, parse: string -> Option<Json>): (r: Option<Json>)
    ensures raw == "" ==> r.None?
    ensures raw != "" ==> r == parse(raw)
  {
    if raw == "" then None else parse(raw)
  }

  /**
   * `socialLinksData`: a string is handed to `JSON.parse` (which yields `{}`
   * when it throws); any other value is kept when truthy and is `{}` when
   * falsy or absent.
   */
  function LinksData(socialLinks: Option<Json>, parse: string -> Option<Json>): (d: Json)
    ensures socialLinks.Some? && socialLinks.value.JString? ==>
      d == (if ParseValue(socialLinks.value.s, parse).Some? then ParseValue(socialLinks.value.s, parse).value else EmptyObject)
    ensures socialLinks == Some(JString("")) ==> d == EmptyObject
    ensures socialLinks.Some? && !socialLinks.value.JString? && Truthy(socialLinks.value) ==> d == socialLinks.value
    ensures (socialLinks.None? || !Truthy(socialLinks.value)) && !(socialLinks.Some? && socialLinks.value.JString?) ==>
      d == EmptyObject
    ensures d.JNull? ==>
      socialLinks.Some? && socialLinks.value.JString? && socialLinks.value.s != "" && parse(socialLinks.value.s) == Some(JNull)
  {
    match socialLinks
    case None => EmptyObject
    case Some(v) =>
      if v.JString? then ParseValue(v.s, parse).GetOr(EmptyObject)
      else if Truthy(v) then v
      else EmptyObject
  }

  /** `data.key`: an own property of an object, or undefined (None) for any other value. */
  function Property(data: Json, key: string): (p: Option<Json>)
    ensures p.Some? <==> data.JObject? && key in data.fields
    ensures p.Some? ==> p.value == data.fields[key]
  {
    if data.JObject? && key in data.fields then Some(data.fields[key]) else None
  }

  /** `data.key || ''`: the property when it is truthy, otherwise the empty string. */
  function LinkOr(data: Json, key: string): (l: Json)
    ensures Truthy(l) || l == NoLink
    ensures l != NoLink ==> Property(data, key) == Some(l)
    ensures Property(data, key).Some? && Truthy(Property(data, key).value) ==> l == Property(data, key).value
  {
    var p := Property(data, key);
    if p.Some? && Truthy(p.value) then p.value else NoLink
  }

  /** The stored `socialLinks`: always these four keys and no other. */
  datatype SocialLinks = SocialLinks(twitter: Json, github: Json, linkedin: Json, website: Json)

  /** Each link is a truthy value taken from the data, or the empty string. */
  predicate LinkFrom(data: Json, key: string, l: Json) {
    (Truthy(l) && Property(data, key) == Some(l)) || (l == NoLink && !(Property(data, key).Some? && Truthy(Property(data, key).value)))
  }

  /** The four links of `updateData.socialLinks`, each the truthy property of the data or "". */
  function NormalizeLinks(data: Json): (l: SocialLinks)
    ensures LinkFrom(data, "twitter", l.twitter) && LinkFrom(data, "github", l.github)
    ensures LinkFrom(data, "linkedin", l.linkedin) && LinkFrom(data, "website", l.website)
  {
    SocialLinks(LinkOr(data, "twitter"), LinkOr(data, "github"), LinkOr(data, "linkedin"), LinkOr(data, "website"))
  }

  /** The links as the JSON object they are sent back as. */
  function LinksObject(l: SocialLinks): Json {
    JObject(map["twitter" := l.twitter, "github" := l.github, "linkedin" := l.linkedin, "website" := l.website])
  }

  /** Normalising the stored links again gives them back: the normal form is a fixed point. */
  lemma NormalizeLinksIdempotent(data: Json)
    ensures NormalizeLinks(LinksObject(NormalizeLinks(data))) == NormalizeLinks(data)
  {
    var l := NormalizeLinks(data);
    var o := LinksObject(l);
    assert Property(o, "twitter") == Some(l.twitter);
    assert Property(o, "github") == Some(l.github);
    assert Property(o, "linkedin") == Some(l.linkedin);
    assert Property(o, "website") == Some(l.website);
  }

  /** A `socialLinks` string that does not parse (the empty one included) is silently treated as `{}`: four empty links. */
  lemma UnparsableLinksAreEmpty(raw: string, parse: string -> Option<Json>)
    requires ParseValue(raw, parse).None?
    ensures NormalizeLinks(LinksData(Some(JString(raw)), parse)) == SocialLinks(NoLink, NoLink, NoLink, NoLink)
  {
  }

  /**
   * An empty `socialLinks` field (an empty form value) never reaches the
   * parser: it gives four empty links and does not make the update fail.
   */
  lemma EmptyLinksStringGivesEmptyLinks(parse: string -> Option<Json>)
    ensures !LinksData(Some(JString("")), parse).JNull?
    ensures NormalizeLinks(LinksData(Some(JString("")), parse)) == SocialLinks(NoLink, NoLink, NoLink, NoLink)
  {
    assert LinksData(Some(JString("")), parse) == EmptyObject;
    assert Property(EmptyObject, "twitter").None?;
  }

  /** An object whose four links are strings keeps each of them, an empty one as "". */
  lemma StringLinksKept(tw: string, gh: string, li: string, web: string, parse: string -> Option<Json>)
    ensures var given := JObject(map["twitter" := JString(tw), "github" := JString(gh),
                                     "linkedin" := JString(li), "website" := JString(web)]);
      NormalizeLinks(LinksData(Some(given), parse)) == SocialLinks(JString(tw), JString(gh), JString(li), JString(web))
  {
    var given := JObject(map["twitter" := JString(tw), "github" := JString(gh),
                             "linkedin" := JString(li), "website" := JString(web)]);
    assert Truthy(given);
    assert Property(given, "twitter") == Some(JString(tw));
    assert Property(given, "github") == Some(JString(gh));
    assert Property(given, "linkedin") == Some(JString(li));
    assert Property(given, "website") == Some(JString(web));
  }

  // ---------------------------------------------------------------- the handler

  /** The fields `updateUserProfile` reads from the body; an absent field is None. */
  datatype ProfileBody = ProfileBody(username: Option<string>, bio: Option<string>, socialLinks: Option<Json>)

  /**
   * The profile-picture branch as a whole: no file was sent, or the old
   * picture was released and the new one stored at `url`, or some step of it threw.
   */
  datatype PictureUpload = NoPicture | PictureStored(url: string) | PictureFailed

  /** `updateData`: username and bio as sent, the four links, and a picture only when one was stored. */
  datatype UpdateData = UpdateData(username: Option<string>, bio: Option<string>, socialLinks: SocialLinks,
                                   profilePicture: Option<string>)

  /** What `findByIdAndUpdate` is asked to do: apply `data` to the user `user`. */
  datatype ProfileUpdate = ProfileUpdate(user: UserId, data: UpdateData)

  /**
   * `updateUserProfile` up to the store update: 500 "Server error" when the
   * links parse to `null` (reading `null.twitter` throws), 500 "Error uploading
   * profile picture" when the picture branch fails; otherwise the update for
   * the authenticated user.
   */
  method UpdateUserProfile(actor: Auth.User, body: ProfileBody, picture: PictureUpload,
                           parse: string -> Option<Json>) returns (r: Outcome<ProfileUpdate>)
    ensures LinksData(body.socialLinks, parse).JNull? ==> r == Failure(ServerError, "Server error")
    ensures !LinksData(body.socialLinks, parse).JNull? && picture.PictureFailed? ==>
      r == Failure(ServerError, "Error uploading profile picture")
    ensures r.Success? <==> !LinksData(body.socialLinks, parse).JNull? && !picture.PictureFailed?
    ensures r.Success? ==>
      && r.value.user == actor.id
      && r.value.data.username == body.username && r.value.data.bio == body.bio
      && r.value.data.socialLinks == NormalizeLinks(LinksData(body.socialLinks, parse))
      && (r.value.data.profilePicture.Some? <==> picture.PictureStored?)
      && (picture.PictureStored? ==> r.value.data.profilePicture == Some(picture.url))
  {
    var socialLinksData := LinksData(body.socialLinks, parse);
    if socialLinksData.JNull? {
      return Failure(ServerError, "Server error");
    }
    var updateData := UpdateData(body.username, body.bio, NormalizeLinks(socialLinksData), None);
    match picture {
      case NoPicture =>
      case PictureFailed =>
        return Failure(ServerError, "Error uploading profile picture");
      case PictureStored(url) =>
        updateData := updateData.(profilePicture := Some(url));
    }
    r := Success(ProfileUpdate(actor.id, updateData));
  }
}
