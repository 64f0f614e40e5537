/**
  The post management page (pages/post/post-manage.component.ts): who the
  current author is, who owns a post, and the list updates after a toggle
  or a delete.
 */
module PostManage {
  import opened Wrappers
  import opened Text
  import opened Jwt

  /** `normId`: trimmed, with a missing or blank value as `None`. */
  function NormId(v: Option<string>): (r: Option<string>)
    ensures r.None? <==> v.None? || Trim(v.value) == ""
    ensures r.Some? ==> r.value == Trim(v.value) && r.value != "" && Trimmed(r.value)
  {
    if v.None? then None
    else
      var s := Trim(v.value);
      TrimIsTrimmed(v.value);
      if s == "" then None else Some(s)
  }

  /** Normalising twice is normalising once. */
  lemma NormIdIdempotent(v: Option<string>)
    ensures NormId(NormId(v)) == NormId(v)
  {
    if v.Some? {
      TrimIdempotent(v.value);
    }
  }

  /** `a || b || … || null` over values that are either an id or `None`: the first present one. */
  function FirstPresent(ids: seq<Option<string>>): (r: Option<string>)
    ensures r.None? <==> forall k | 0 <= k < |ids| :: ids[k].None?
    ensures r.Some? ==> exists k | 0 <= k < |ids| :: ids[k] == r && forall j | 0 <= j < k :: ids[j].None?
    decreases |ids|
  {
    if ids == [] then None
    else if ids[0].Some? then ids[0]
    else
      var r := FirstPresent(ids[1..]);
      if r.Some? then
        var k :| 0 <= k < |ids[1..]| && ids[1..][k] == r && forall j | 0 <= j < k :: ids[1..][j].None?;
        assert ids[k + 1] == r;
        r
      else r
  }

  /** Each candidate through `normId`. */
  function NormAll(cands: seq<Option<string>>): (r: seq<Option<string>>)
    ensures |r| == |cands| && forall k | 0 <= k < |cands| :: r[k] == NormId(cands[k])
  {
    seq(|cands|, k requires 0 <= k < |cands| => NormId(cands[k]))
  }

  /** `normId(a) || normId(b) || … || null`. */
  function FirstNormId(cands: seq<Option<string>>): (r: Option<string>)
    ensures r.None? <==> forall k | 0 <= k < |cands| :: NormId(cands[k]).None?
    ensures r.Some? ==> exists k | 0 <= k < |cands| ::
      NormId(cands[k]) == r && forall j | 0 <= j < k :: NormId(cands[j]).None?
    ensures r.Some? ==> Trimmed(r.value) && r.value != ""
  {
    var ids := NormAll(cands);
    var r := FirstPresent(ids);
    assert r.Some? ==> exists k | 0 <= k < |ids| :: ids[k] == r;
    r
  }

  /** `p?.user?._id` and `p?.user?.id`. */
  function UserOid(p: Claims): Option<string> {
    if p.user.Some? then p.user.value.oid else None
  }

  function UserId(p: Claims): Option<string> {
    if p.user.Some? then p.user.value.id else None
  }

  /** The claims `extractIdFromJwt` tries, in order. */
  function IdClaims(p: Claims): (r: seq<Option<string>>)
    ensures |r| == 7 && r[0] == p.sub && r[1] == p.oid
  {
    [p.sub, p.oid, p.id, p.user_id, UserOid(p), UserId(p), p.userId]
  }

  /** `extractIdFromJwt`: the first non-blank id claim of the decoded payload. */
  function ExtractIdFromJwt(token: Option<string>, decode: Decoder): (r: Option<string>)
    ensures token.None? || token.value == "" ==> r.None?
    ensures DecodeJwt(token, decode).None? ==> r.None?
    ensures DecodeJwt(token, decode).Some? ==> r == FirstNormId(IdClaims(DecodeJwt(token, decode).value))
    ensures r.Some? ==> Trimmed(r.value) && r.value != ""
  {
    if token.None? || token.value == "" then None
    else match DecodeJwt(token, decode)
      case None => None
      case Some(p) => FirstNormId(IdClaims(p))
  }

  /** `sub` wins whenever it holds a non-blank id, whatever the other claims say. */
  lemma SubWins(p: Claims)
    requires NormId(p.sub).Some?
    ensures FirstNormId(IdClaims(p)) == NormId(p.sub)
  {
  }

  /** A missing or blank `sub` is skipped: the `_id` claim decides next. */
  lemma BlankSubSkipped(p: Claims)
    requires NormId(p.sub).None? && NormId(p.oid).Some?
    ensures FirstNormId(IdClaims(p)) == NormId(p.oid)
  {
    SecondNormId(IdClaims(p));
  }

  /** With the first candidate blank and the second not, the second one's id is chosen. */
  lemma SecondNormId(c: seq<Option<string>>)
    requires |c| >= 2 && NormId(c[0]).None? && NormId(c[1]).Some?
    ensures FirstNormId(c) == NormId(c[1])
  {
    var ids := NormAll(c);
    SecondPresent(ids);
  }

  /** With the first value missing and the second present, the second is chosen. */
  lemma SecondPresent(ids: seq<Option<string>>)
    requires |ids| >= 2 && ids[0].None? && ids[1].Some?
    ensures FirstPresent(ids) == ids[1]
  {
    var r := FirstPresent(ids);
    assert !ids[1].None?;
    var k :| 0 <= k < |ids| && ids[k] == r && forall j | 0 <= j < k :: ids[j].None?;
    assert k == 1;
  }

  // ---------------------------------------------------------------------------
  // Posts and ownership
  // ---------------------------------------------------------------------------

  /** `psychologist_id`: a plain id or a populated author document with an `_id`. */
  datatype Author = AuthorId(id: string) | AuthorDoc(oid: Option<string>)

  datatype Post = Post(id: string, author: Author, title: string, content: string, active: bool)

  /** `ownerId`. */
  function OwnerId(p: Post): (r: Option<string>)
    ensures p.author.AuthorId? ==> r == NormId(Some(p.author.id))
    ensures p.author.AuthorDoc? ==> r == NormId(p.author.oid)
  {
    match p.author
    case AuthorId(s) => NormId(Some(s))
    case AuthorDoc(o) => NormId(o)
  }

  /** `isOwner`: both ids present and equal; the owner's id is then the current one. */
  function IsOwner(p: Post, meId: Option<string>): (b: bool)
    ensures b <==> meId.Some? && meId.value != "" && OwnerId(p) == meId
  {
    OwnerId(p).Some? && meId.Some? && meId.value != "" && OwnerId(p).value == meId.value
  }

  /** Both sides are trimmed ids, so a padded author id still matches the token id. */
  lemma OwnerIgnoresPadding(p: Post, meId: string)
    requires p.author.AuthorId? && Trimmed(meId) && meId != ""
    requires p.author.id == " " + meId + " "
    ensures IsOwner(p, Some(meId))
  {
    assert AllSpace(" ");
    TrimOfPadded(" ", meId, " ");
  }

  /** `toggleActive`: for the owner, after the server accepts, the post's `active` flips in place. */
  function ToggleActive(posts: seq<Post>, k: nat, meId: Option<string>, accepted: bool): (r: seq<Post>)
    requires k < |posts|
    ensures |r| == |posts|
    ensures !IsOwner(posts[k], meId) || !accepted ==> r == posts
    ensures IsOwner(posts[k], meId) && accepted ==> r[k].active == !posts[k].active
    ensures forall j | 0 <= j < |posts| && j != k :: r[j] == posts[j]
    ensures r[k].id == posts[k].id && r[k].author == posts[k].author
  {
    if !IsOwner(posts[k], meId) || !accepted then posts
    else posts[k := posts[k].(active := !posts[k].active)]
  }

  /** Toggling twice restores the list. */
  lemma ToggleTwice(posts: seq<Post>, k: nat, meId: Option<string>)
    requires k < |posts|
    ensures ToggleActive(ToggleActive(posts, k, meId, true), k, meId, true) == posts
  {
    var once := ToggleActive(posts, k, meId, true);
    if IsOwner(posts[k], meId) {
      assert IsOwner(once[k], meId);
      assert once[k := once[k].(active := !once[k].active)] == posts;
    }
  }

  predicate NotId(id: string, x: Post) { x.id != id }

  /** `this.posts.filter(x => x._id !== id)`. */
  function WithoutPost(posts: seq<Post>, id: string): (r: seq<Post>)
    ensures forall x :: x in r <==> x in posts && x.id != id
  {
    Filter(x => NotId(id, x), posts)
  }

  /**
    `remove`: for the owner, after confirmation and the server's success,
    every post with that id leaves the list; otherwise the list stays.
   */
  function Remove(posts: seq<Post>, k: nat, meId: Option<string>, confirmed: bool, accepted: bool): (r: seq<Post>)
    requires k < |posts|
    ensures !IsOwner(posts[k], meId) || !confirmed || !accepted ==> r == posts
    ensures IsOwner(posts[k], meId) && confirmed && accepted ==> r == WithoutPost(posts, posts[k].id)
  {
    if !IsOwner(posts[k], meId) || !confirmed || !accepted then posts
    else WithoutPost(posts, posts[k].id)
  }

  /**
    Deleting keeps the survivors in their order: removing from a
    concatenation removes from each part, and a list without the id is
    left as it is.
   */
  lemma WithoutPostKeepsOrder(a: seq<Post>, b: seq<Post>, id: string)
    ensures WithoutPost(a + b, id) == WithoutPost(a, id) + WithoutPost(b, id)
    ensures (forall j | 0 <= j < |a| :: a[j].id != id) ==> WithoutPost(a, id) == a
  {
    FilterConcat(x => NotId(id, x), a, b);
    FilterKeepsAll(x => NotId(id, x), a);
  }

  /** A successful delete leaves no post with the removed id and shortens the list. */
  lemma RemoveDropsPost(posts: seq<Post>, k: nat, meId: Option<string>)
    requires k < |posts| && IsOwner(posts[k], meId)
    ensures var r := Remove(posts, k, meId, true, true);
      (forall j | 0 <= j < |r| :: r[j].id != posts[k].id) && |r| < |posts|
  {
    var id := posts[k].id;
    var r := Remove(posts, k, meId, true, true);
    assert r == WithoutPost(posts, id);
    forall j | 0 <= j < |r|
      ensures r[j].id != id
    {
      assert r[j] in r;
    }
    FilterShorter(x => NotId(id, x), posts, k);
  }
}
