/**
  The public article list (pages/post/post-list.component.ts): which posts
  are shown and the author line under each.
 */
module PostList {
  import opened Wrappers
  import opened Text
  import opened Names

  /** `psychologist_id`: a bare id, a populated author, or nothing. */
  datatype AuthorRef =
    | AuthorText(id: string)
    | AuthorObject(name: Option<string>, lastName1: Option<string>, lastName2: Option<string>)
    | NoAuthor

  /** `active` may be missing from the server's document. */
  datatype Post = Post(id: string, author: AuthorRef, title: string, content: string, active: Option<bool>)

  /** `p.active !== false`: a missing flag counts as active. */
  predicate Shown(p: Post) {
    p.active != Some(false)
  }

  /** The list `fetch` keeps: `(res || []).filter(p => p.active !== false)`. */
  function ShownPosts(res: Option<seq<Post>>): (r: seq<Post>)
    ensures res.None? ==> r == []
    ensures forall p :: p in r <==> res.Some? && p in res.value && p.active != Some(false)
    ensures |r| <= |res.GetOr([])|
  {
    Filter(Shown, res.GetOr([]))
  }

  /** Hiding inactive posts keeps the others in the server's order, and leaves a list without inactive posts as it is. */
  lemma ShownPostsKeepsOrder(a: seq<Post>, b: seq<Post>)
    ensures ShownPosts(Some(a + b)) == ShownPosts(Some(a)) + ShownPosts(Some(b))
    ensures ShownPosts(Some(a)) == a <==> forall i | 0 <= i < |a| :: a[i].active != Some(false)
  {
    FilterConcat(Shown, a, b);
    FilterKeepsAll(Shown, a);
  }

  /** `authorName`: the author's truthy name parts joined by spaces; nothing for a bare or missing id. */
  function AuthorName(p: Post): (r: string)
    ensures !p.author.AuthorObject? ==> r == ""
    ensures p.author.AuthorObject? ==> r == JoinNames([p.author.name, p.author.lastName1, p.author.lastName2])
    ensures r == "" <==>
      || !p.author.AuthorObject?
      || (Truthy(p.author.name).None? && Truthy(p.author.lastName1).None? && Truthy(p.author.lastName2).None?)
  {
    match p.author
    case AuthorObject(n, l1, l2) =>
      var parts := [n, l1, l2];
      assert parts[0] == n && parts[1] == l1 && parts[2] == l2;
      JoinNames(parts)
    case _ => ""
  }

  /** An author line splits back on spaces into the author's truthy name parts, in order. */
  lemma AuthorNameSplits(p: Post)
    requires p.author.AuthorObject?
    requires AuthorName(p) != ""
    requires forall v | v in [p.author.name, p.author.lastName1, p.author.lastName2] && v.Some? :: ' ' !in v.value
    ensures Split(AuthorName(p), ' ') == PresentParts([p.author.name, p.author.lastName1, p.author.lastName2])
  {
    var parts := [p.author.name, p.author.lastName1, p.author.lastName2];
    assert forall k | 0 <= k < |parts| :: parts[k] in parts;
    JoinNamesSplits(parts);
  }
}
