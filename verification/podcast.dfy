/**
  The podcast page (pages/podcast/podcast.component.ts): who the current
  user is, the YouTube id taken from what the author pastes, the embed URL
  built from a stored id, and who may delete an episode. URL parsing and
  the profile endpoint are parameters.
 */
module Podcast {
  import opened Wrappers
  import opened Text
  import opened Jwt
  import opened Names
  import PostManage
  import PostEditor

  // ---------------------------------------------------------------------------
  // Identity
  // ---------------------------------------------------------------------------

  /** What the profile endpoint answers: its `_id` and `role`, when it answers at all. */
  datatype Me = Me(oid: Option<string>, role: Option<string>)

  datatype Identity = Identity(meId: Option<string>, isPsych: bool)

  /** The id claims the page tries, in order: `id`, `_id`, `user._id`, `user.id`. */
  function PodcastIdClaims(p: Claims): (r: seq<Option<string>>)
    ensures |r| == 4
  {
    [Truthy(p.id), Truthy(p.oid), Truthy(PostManage.UserOid(p)), Truthy(PostManage.UserId(p))]
  }

  /** Step 1 of `resolveIdentityAndRole`: what the token alone tells. */
  function FromToken(token: Option<string>, decode: Decoder): (r: Identity)
    ensures Truthy(token).None? ==> r == Identity(None, false)
    ensures r.meId.Some? ==> r.meId.value != ""
  {
    if Truthy(token).None? then Identity(None, false)
    else match DecodeJwt(token, decode)
      case None => Identity(None, false)
      case Some(p) =>
        var ids := PodcastIdClaims(p);
        var me := PostManage.FirstPresent(ids);
        assert me.Some? ==> exists k | 0 <= k < |ids| :: ids[k] == me;
        Identity(me, TruthyRole(p) == Some("psychologist"))
  }

  /**
    `resolveIdentityAndRole`: outside a browser nothing is known. Otherwise
    the token is read first; when it leaves the id or the psychologist role
    unknown, the profile endpoint is asked, and a truthy `_id` there replaces
    the id and a `psychologist` role there sets the flag.
   */
  function ResolveIdentityAndRole(browser: bool, token: Option<string>, decode: Decoder, me: Option<Me>): (r: Identity)
    ensures !browser ==> r == Identity(None, false)
    ensures browser && FromToken(token, decode).meId.Some? && FromToken(token, decode).isPsych ==>
      r == FromToken(token, decode)
    ensures browser && me.Some? && Truthy(me.value.oid).Some? && (FromToken(token, decode).meId.None? || !FromToken(token, decode).isPsych) ==>
      r.meId == me.value.oid
    ensures r.isPsych <==> browser && (FromToken(token, decode).isPsych || (me.Some? && me.value.role == Some("psychologist")))
    ensures r.meId.Some? ==> r.meId.value != ""
  {
    if !browser then Identity(None, false)
    else
      var first := FromToken(token, decode);
      if first.meId.Some? && first.isPsych then first
      else if me.None? then first
      else
        var id := if Truthy(me.value.oid).Some? then me.value.oid else first.meId;
        Identity(id, first.isPsych || me.value.role == Some("psychologist"))
  }

  /** A psychologist's token that carries an id never waits on the profile endpoint: its answer changes nothing. */
  lemma TokenSufficesForPsychologist(token: Option<string>, decode: Decoder, a: Option<Me>, b: Option<Me>)
    requires FromToken(token, decode).meId.Some? && FromToken(token, decode).isPsych
    ensures ResolveIdentityAndRole(true, token, decode, a) == ResolveIdentityAndRole(true, token, decode, b)
  {
  }

  /**
    A patient's token is not enough: the profile's `_id` replaces the token's
    id, so the token id is dropped whenever the two differ.
   */
  lemma ProfileOverridesPatientId(token: Option<string>, decode: Decoder, oid: string)
    requires oid != "" && !FromToken(token, decode).isPsych
    ensures ResolveIdentityAndRole(true, token, decode, Some(Me(Some(oid), Some("patient")))) == Identity(Some(oid), false)
  {
  }

  // ---------------------------------------------------------------------------
  // YouTube ids and embed URLs
  // ---------------------------------------------------------------------------

  /** `[a-zA-Z0-9_-]`. */
  predicate IsVideoIdChar(c: char) {
    IsAlnum(c) || c == '_' || c == '-'
  }

  predicate IsVideoId(s: string) {
    forall i | 0 <= i < |s| :: IsVideoIdChar(s[i])
  }

  /** `replace(/[^a-zA-Z0-9_-]/g, '')`: the id characters of `s`, in order. */
  function Sanitize(s: string): (r: string)
    ensures IsVideoId(r)
    ensures |r| <= |s|
    ensures forall c :: c in r <==> c in s && IsVideoIdChar(c)
  {
    var r := Filter(IsVideoIdChar, s);
    assert forall i | 0 <= i < |r| :: r[i] in r;
    r
  }

  /** A string is left alone exactly when it is already a clean id; so sanitising twice is sanitising once. */
  lemma SanitizeFixpoints(s: string)
    ensures Sanitize(s) == s <==> IsVideoId(s)
    ensures Sanitize(Sanitize(s)) == Sanitize(s)
  {
    FilterKeepsAll(IsVideoIdChar, s);
    FilterKeepsAll(IsVideoIdChar, Sanitize(s));
  }

  const EMBED_PREFIX := "https://www.youtube.com/embed/"

  /** `buildEmbedUrl`: the embed prefix and the sanitised id; a missing id counts as empty. */
  function BuildEmbedUrl(id: Option<string>): (r: string)
    ensures |r| >= |EMBED_PREFIX| && r[..|EMBED_PREFIX|] == EMBED_PREFIX
    ensures r[|EMBED_PREFIX|..] == Sanitize(id.GetOr(""))
  {
    var r := EMBED_PREFIX + Sanitize(id.GetOr(""));
    assert r[|EMBED_PREFIX|..] == Sanitize(id.GetOr(""));
    r
  }

  /** The id can be read back from the embed URL of a clean id. */
  lemma EmbedUrlRoundTrip(id: string)
    requires IsVideoId(id)
    ensures BuildEmbedUrl(Some(id))[|EMBED_PREFIX|..] == id
  {
    SanitizeFixpoints(id);
  }

  /** The parts of a parsed URL the page looks at. */
  datatype Url = Url(v: Option<string>, hostname: string, pathname: string)

  /** `new URL(raw)`: `None` when it throws. */
  type UrlParser = string -> Option<Url>

  /** The bare-id test: six or more id characters and no `http` inside. */
  predicate LooksBare(raw: string) {
    |raw| >= 6 && IsVideoId(raw) && !Contains(raw, "http")
  }

  /** Six or more id characters without an `h` cannot hold `http`, so they pass the bare-id test. */
  lemma {:induction false} BareWithoutH(s: string)
    requires |s| >= 6 && IsVideoId(s) && 'h' !in s
    ensures LooksBare(s)
  {
    forall i | 0 <= i <= |s|
      ensures !("http" <= s[i..])
    {
      if i < |s| {
        assert s[i] in s;
      }
    }
  }

  /**
    The bare-id test at its edges: eleven id characters pass, five do not,
    a dot or a slash makes the text a URL candidate, and so does `http`
    even when every character is an id character.
   */
  lemma LooksBareEdges()
    ensures LooksBare("dQw4w9WgXcQ") && !LooksBare("dQw4w")
    ensures !LooksBare("youtu.be/dQw4w9WgXcQ")
    ensures IsVideoId("httpsdQw4w9") && !LooksBare("httpsdQw4w9")
  {
    BareWithoutH("dQw4w9WgXcQ");
    assert !IsVideoIdChar("youtu.be/dQw4w9WgXcQ"[5]);
    assert "http" <= "httpsdQw4w9"[0..];
  }

  /**
    `extractYouTubeId`: the trimmed input when it is a bare id; otherwise
    the `v` query parameter, else the path after `/` on a `youtu…` host,
    else the trimmed input itself, which is also the answer when parsing
    fails.
   */
  function ExtractYouTubeId(input: Option<string>, parse: UrlParser): (r: string)
    ensures LooksBare(Trim(input.GetOr(""))) ==> r == Trim(input.GetOr(""))
    ensures !LooksBare(Trim(input.GetOr(""))) && parse(Trim(input.GetOr(""))).None? ==> r == Trim(input.GetOr(""))
    ensures !LooksBare(Trim(input.GetOr(""))) && parse(Trim(input.GetOr(""))).Some? ==>
      var u := parse(Trim(input.GetOr(""))).value;
      && (Truthy(u.v).Some? ==> r == u.v.value)
      && (Truthy(u.v).None? && Contains(u.hostname, "youtu") && |u.pathname| > 1 ==> r == u.pathname[1..])
      && (Truthy(u.v).None? && !(Contains(u.hostname, "youtu") && |u.pathname| > 1) ==> r == Trim(input.GetOr("")))
  {
    var raw := Trim(input.GetOr(""));
    if LooksBare(raw) then raw
    else match parse(raw)
      case None => raw
      case Some(u) =>
        if Truthy(u.v).Some? then u.v.value
        else if Contains(u.hostname, "youtu") && |u.pathname| > 1 then u.pathname[1..]
        else raw
  }

  /** A bare id, with or without surrounding whitespace, is kept as it is whatever the URL parser would say. */
  lemma BareIdKept(id: string, pad: string, parse: UrlParser)
    requires LooksBare(id) && AllSpace(pad)
    ensures ExtractYouTubeId(Some(pad + id + pad), parse) == id
    ensures BuildEmbedUrl(Some(ExtractYouTubeId(Some(pad + id + pad), parse)))[|EMBED_PREFIX|..] == id
  {
    assert !IsSpace(id[0]) && !IsSpace(id[|id| - 1]);
    TrimOfPadded(pad, id, pad);
    EmbedUrlRoundTrip(id);
  }

  // ---------------------------------------------------------------------------
  // Ownership
  // ---------------------------------------------------------------------------

  /** `isOwner`: `creator_id` and the current id both truthy and equal. */
  function IsOwner(creatorId: Option<string>, meId: Option<string>): (b: bool)
    ensures b <==> creatorId.Some? && creatorId.value != "" && creatorId == meId
  {
    Truthy(meId).Some? && Truthy(creatorId).Some? && creatorId.value == meId.value
  }

  /** `remove`: the delete is sent only for the owner, and only after confirmation. */
  function RemoveSends(creatorId: Option<string>, meId: Option<string>, confirmed: bool): (b: bool)
    ensures b ==> IsOwner(creatorId, meId)
    ensures !IsOwner(creatorId, meId) ==> !b
    ensures IsOwner(creatorId, meId) ==> (b <==> confirmed)
  {
    IsOwner(creatorId, meId) && confirmed
  }

  /**
    The podcast page and the post editor apply the same ownership test: an
    episode whose creator is a post's author key is owned exactly when the
    post is mine.
   */
  lemma OwnerAgreesWithEditor(pid: Option<PostManage.Author>, meId: Option<string>)
    ensures IsOwner(PostEditor.AuthorKey(pid), meId) == PostEditor.IsMine(pid, meId)
  {
  }

  /** Nobody owns an episode without a creator, and an anonymous visitor owns nothing. */
  lemma NoOwnerWithoutIds(creatorId: Option<string>, meId: Option<string>)
    ensures !IsOwner(None, meId) && !IsOwner(creatorId, None)
    ensures !IsOwner(Some(""), meId) && !IsOwner(creatorId, Some(""))
  {
  }
}
