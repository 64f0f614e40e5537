/**
  The post editor (pages/post/post-editor.component.ts): the identity read
  from the token, which posts count as mine, the quick templates, and the
  counters under the form.
 */
module PostEditor {
  import opened Wrappers
  import opened Text
  import opened Jwt
  import opened Names
  import PostManage

  // ---------------------------------------------------------------------------
  // Identity
  // ---------------------------------------------------------------------------

  /** The id claims `resolveIdentity` tries, in order: `user_id`, `id`, `_id`, `user._id`, `user.id`. */
  function EditorIdClaims(p: Claims): (r: seq<Option<string>>)
    ensures |r| == 5
  {
    [Truthy(p.user_id), Truthy(p.id), Truthy(p.oid), Truthy(PostManage.UserOid(p)), Truthy(PostManage.UserId(p))]
  }

  datatype Identity = Identity(meId: Option<string>, err: Option<string>)

  const NOT_PSYCHOLOGIST := "Debes ser psicólogo para crear publicaciones."

  /**
    `resolveIdentity`: without a token nothing is set; otherwise a role other
    than `psychologist` sets the error, and the first truthy id claim,
    untrimmed, becomes `meId`.
   */
  function ResolveIdentity(token: Option<string>, decode: Decoder): (r: Identity)
    ensures token.None? || token.value == "" ==> r == Identity(None, None)
    ensures token.Some? && token.value != "" ==>
      var p := DecodeJwt(token, decode);
      && (r.err.Some? <==> p.None? || TruthyRole(p.value) != Some("psychologist"))
      && (p.None? ==> r.meId.None?)
      && (p.Some? ==> r.meId == PostManage.FirstPresent(EditorIdClaims(p.value)))
    ensures r.meId.Some? ==> r.meId.value != ""
  {
    if token.None? || token.value == "" then Identity(None, None)
    else match DecodeJwt(token, decode)
      case None => Identity(None, Some(NOT_PSYCHOLOGIST))
      case Some(p) =>
        var ids := EditorIdClaims(p);
        var me := PostManage.FirstPresent(ids);
        assert me.Some? ==> exists k | 0 <= k < |ids| :: ids[k] == me;
        Identity(me, if TruthyRole(p) != Some("psychologist") then Some(NOT_PSYCHOLOGIST) else None)
  }

  /**
    The two post pages read the author id in different orders: with both
    `sub` and `user_id` present, the manager takes `sub` and the editor
    takes `user_id`.
   */
  lemma IdPrioritiesDiffer(p: Claims, a: string, b: string)
    requires p.sub == Some(a) && Trimmed(a) && a != ""
    requires p.user_id == Some(b) && b != "" && a != b
    ensures PostManage.FirstNormId(PostManage.IdClaims(p)) == Some(a)
    ensures PostManage.FirstPresent(EditorIdClaims(p)) == Some(b)
  {
    TrimOfTrimmed(a);
    PostManage.SubWins(p);
    assert EditorIdClaims(p)[0] == Some(b);
  }

  // ---------------------------------------------------------------------------
  // Ownership
  // ---------------------------------------------------------------------------

  /** `typeof pid === 'string' ? pid : pid && pid._id`. */
  function AuthorKey(pid: Option<PostManage.Author>): Option<string> {
    if pid.None? then None
    else if pid.value.AuthorId? then Some(pid.value.id)
    else pid.value.oid
  }

  /** `isMine`: both ids truthy and equal as they are, without trimming. */
  function IsMine(pid: Option<PostManage.Author>, meId: Option<string>): (b: bool)
    ensures b <==> meId.Some? && meId.value != "" && AuthorKey(pid) == meId
  {
    Truthy(meId).Some? && Truthy(AuthorKey(pid)).Some? && AuthorKey(pid).value == meId.value
  }

  /** The editor does not trim: a padded author id that the manager accepts is not mine here. */
  lemma PaddingSeparatesPages(me: string)
    requires Trimmed(me) && me != ""
    ensures var post := PostManage.Post("p", PostManage.AuthorId(" " + me), "", "", true);
      PostManage.IsOwner(post, Some(me)) && !IsMine(Some(post.author), Some(me))
  {
    assert AllSpace(" ");
    assert " " + me == " " + me + [];
    TrimOfPadded(" ", me, []);
    assert (" " + me)[0] == ' ';
  }

  /** `remove` sends the delete only for my posts, and only after confirmation. */
  function RemoveSends(pid: Option<PostManage.Author>, meId: Option<string>, confirmed: bool): (b: bool)
    ensures b <==> IsMine(pid, meId) && confirmed
    ensures pid.None? ==> !b
  {
    IsMine(pid, meId) && confirmed
  }

  // ---------------------------------------------------------------------------
  // Templates
  // ---------------------------------------------------------------------------

  datatype Template = Respiro | Mind | Tips

  /** The emoji each template opens with. */
  function Emoji(key: Template): (c: char)
    ensures !IsSpace(c)
  {
    match key
    case Respiro => '\U{1FAC1}'
    case Mind => '\U{1F9D8}'
    case Tips => '\U{2728}'
  }

  const RESPIRO_BODY := " Respiración consciente\n\n1) Inhala por la nariz 4s\n2) Retén 2s\n3) Exhala 6s\nRepite 3–5 minutos. Observa sensaciones sin juzgarlas."
  const MIND_BODY := "\U{200D}\U{2640}\U{FE0F} Minuto de mindfulness\n\n• Lleva atención a la respiración.\n• Observa sonidos/olores.\n• Vuelve amablemente a tu ancla."
  const TIPS_BODY := " Tips rápidos\n\n• Dormir 7–8h\n• Hidratación constante\n• Pausas breves cada 50min\n• Movimiento diario suave"

  /** What follows the emoji: a title, a blank line and the lines of the template. */
  function Body(key: Template): (b: string)
    ensures b != [] && !IsSpace(b[|b| - 1])
  {
    match key
    case Respiro => assert RESPIRO_BODY[|RESPIRO_BODY| - 1] == '.'; RESPIRO_BODY
    case Mind => assert MIND_BODY[|MIND_BODY| - 1] == '.'; MIND_BODY
    case Tips => assert TIPS_BODY[|TIPS_BODY| - 1] == 'e'; TIPS_BODY
  }

  /** The text each quick template inserts: none begins or ends with whitespace. */
  function TemplateText(key: Template): (t: string)
    ensures Trimmed(t) && t != ""
  {
    [Emoji(key)] + Body(key)
  }

  /** The separator: a blank line after text that does not already end a line. */
  function Joiner(prev: string): (j: string)
    ensures j == "\n\n" <==> prev != "" && prev[|prev| - 1] != '\n'
    ensures j == "" <==> !(prev != "" && prev[|prev| - 1] != '\n')
  {
    if prev != "" && prev[|prev| - 1] != '\n' then "\n\n" else ""
  }

  /** `insertTemplate`: previous content, separator, template, all trimmed. */
  function InsertTemplate(prev: string, key: Template): (r: string)
    ensures Trimmed(r)
    ensures r == Trim(prev + Joiner(prev) + TemplateText(key))
  {
    TrimIsTrimmed(prev + Joiner(prev) + TemplateText(key));
    Trim(prev + Joiner(prev) + TemplateText(key))
  }

  /** Into an empty editor the template goes in alone. */
  lemma InsertIntoEmpty(key: Template)
    ensures InsertTemplate("", key) == TemplateText(key)
  {
    assert "" + Joiner("") + TemplateText(key) == TemplateText(key);
    TrimOfTrimmed(TemplateText(key));
  }

  /** After trimmed text that does not end a line, the template follows a blank line and nothing is lost. */
  lemma InsertAfterText(prev: string, key: Template)
    requires prev != "" && Trimmed(prev)
    ensures InsertTemplate(prev, key) == prev + "\n\n" + TemplateText(key)
  {
    JoinTrimmed(prev, TemplateText(key));
  }

  lemma JoinTrimmed(prev: string, t: string)
    requires prev != "" && Trimmed(prev) && t != "" && Trimmed(t)
    ensures Joiner(prev) == "\n\n"
    ensures Trim(prev + Joiner(prev) + t) == prev + "\n\n" + t
  {
    assert !IsSpace(prev[|prev| - 1]);
    var s := prev + "\n\n" + t;
    assert s[0] == prev[0];
    assert s[|s| - 1] == t[|t| - 1];
    TrimOfTrimmed(s);
  }

  // ---------------------------------------------------------------------------
  // Counters
  // ---------------------------------------------------------------------------

  lemma MulMono(a: int, b: int, d: nat)
    ensures a <= b ==> a * d <= b * d
  {
    assert b * d - a * d == (b - a) * d;
  }

  lemma DivAtLeast(x: int, d: int, m: int)
    requires d > 0 && m * d <= x
    ensures m <= x / d
  {
    var q := x / d;
    assert x == d * q + x % d;
    assert (q + 1) * d == d * q + d;
    MulMono(q + 1, m, d);
  }

  lemma DivMono(x: int, y: int, d: int)
    requires d > 0 && x <= y
    ensures x / d <= y / d
  {
    var q := x / d;
    assert x == d * q + x % d;
    assert q * d == d * q;
    DivAtLeast(y, d, q);
  }

  lemma FullAtTarget(len: nat, target: nat)
    requires target > 0
    ensures len >= target ==> (200 * len + target) / (2 * target) >= 100
  {
    if len >= target {
      MulMono(target, len, 200);
      DivAtLeast(200 * len + target, 2 * target, 100);
    }
  }

  /** `len / target * 100` rounded half up, computed exactly. */
  function Rounded(len: nat, target: nat): (r: nat)
    requires target > 0
    ensures len >= target ==> r >= 100
  {
    FullAtTarget(len, target);
    (200 * len + target) / (2 * target)
  }

  /** `Math.min(100, Math.round(len / target * 100))`, with the ratio rounded exactly. */
  function Pct(len: nat, target: nat): (r: nat)
    requires target > 0
    ensures r <= 100
    ensures len >= target ==> r == 100
  {
    var rounded := Rounded(len, target);
    if rounded < 100 then rounded else 100
  }

  /** The bars never move backwards as text grows. */
  lemma PctMonotone(a: nat, b: nat, target: nat)
    requires target > 0 && a <= b
    ensures Pct(a, target) <= Pct(b, target)
  {
    DivMono(200 * a + target, 200 * b + target, 2 * target);
  }

  /** `content.trim().length ? content.trim().split(/\s+/).length : 0`. */
  function Words(content: string): (n: nat)
    ensures n == 0 <==> Trim(content) == ""
  {
    var t := Trim(content);
    if |t| > 0 then |SplitWs(t)| else 0
  }

  /** A word count of `n > 0` means `n` non-empty, whitespace-free words in the trimmed text. */
  lemma WordsAreWords(content: string)
    requires Words(content) > 0
    ensures var w := SplitWs(Trim(content));
      |w| == Words(content)
      && forall k | 0 <= k < |w| :: w[k] != "" && NoSpace(w[k])
  {
    var t := Trim(content);
    TrimIsTrimmed(content);
    SplitWsWords(t);
  }

  datatype Counters = Counters(titleLen: nat, contentLen: nat, titlePct: nat, contentPct: nat, words: nat)

  const TITLE_MAX := 160
  const CONTENT_TARGET := 800

  /** `updateCounters`. */
  function UpdateCounters(title: string, content: string): (c: Counters)
    ensures c.titleLen == |title| && c.contentLen == |content|
    ensures c.titlePct <= 100 && c.contentPct <= 100
    ensures |title| >= TITLE_MAX ==> c.titlePct == 100
    ensures c.words == Words(content)
  {
    Counters(|title|, |content|, Pct(|title|, TITLE_MAX), Pct(|content|, CONTENT_TARGET), Words(content))
  }
}
