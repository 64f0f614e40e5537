/**
  The minute-interval core of `mergeSlots`
  (pages/availability/availability-manage.component.ts): drop empty or
  inverted intervals, sort by start, then sweep left to right, extending the
  last output interval whenever the next one starts at or before its end.

  Intervals are half-open `[a, b)` minute ranges, so `[a, b)` and `[b, c)`
  touch and are merged into `[a, c)` without changing the minutes covered.
 */
module Intervals {

  /** A half-open range of minutes from midnight. */
  datatype Seg = Seg(a: nat, b: nat)

  /** The filter `x.b > x.a` of the merge. */
  predicate Valid(g: Seg) {
    g.a < g.b
  }

  /** Minute `x` lies in some interval of `segs`. */
  predicate Covers(segs: seq<Seg>, x: int) {
    exists g | g in segs :: g.a <= x < g.b
  }

  /** Sorted by start and strictly separated: each interval starts after every earlier one ends. */
  predicate Canonical(segs: seq<Seg>) {
    && (forall i | 0 <= i < |segs| :: Valid(segs[i]))
    && (forall i, j | 0 <= i < j < |segs| :: segs[i].b < segs[j].a)
  }

  predicate SortedByStart(segs: seq<Seg>) {
    forall i, j | 0 <= i < j < |segs| :: segs[i].a <= segs[j].a
  }

  function Max(x: nat, y: nat): (m: nat)
    ensures m >= x && m >= y && (m == x || m == y)
  {
    if x >= y then x else y
  }

  // ---------------------------------------------------------------------------
  // Stable sort by start (`sort((x, y) => x.a - y.a)`)
  // ---------------------------------------------------------------------------

  /** Inserts `g` after every element whose start is not greater, which keeps equal starts in input order. */
  function Insert(s: seq<Seg>, g: Seg): (r: seq<Seg>)
    requires SortedByStart(s)
    ensures SortedByStart(r)
    ensures multiset(r) == multiset(s) + multiset{g}
  {
    if s == [] then [g]
    else if g.a < s[0].a then
      assert forall i | 0 <= i < |s| :: g.a <= s[i].a;
      [g] + s
    else
      var t := Insert(s[1..], g);
      InsertBehind(s, g, t);
      [s[0]] + t
  }

  /** Putting the head back in front of the insertion into the tail keeps the order and the contents. */
  lemma InsertBehind(s: seq<Seg>, g: Seg, t: seq<Seg>)
    requires s != [] && SortedByStart(s) && s[0].a <= g.a
    requires SortedByStart(t) && multiset(t) == multiset(s[1..]) + multiset{g}
    ensures SortedByStart([s[0]] + t)
    ensures multiset([s[0]] + t) == multiset(s) + multiset{g}
  {
    assert s == [s[0]] + s[1..];
    forall i | 0 <= i < |t|
      ensures s[0].a <= t[i].a
    {
      assert t[i] in multiset(t);
      if t[i] != g {
        assert t[i] in multiset(s[1..]);
        var j :| 0 <= j < |s[1..]| && s[1..][j] == t[i];
        assert t[i] == s[j + 1];
      }
    }
  }

  function SortByStart(s: seq<Seg>): (r: seq<Seg>)
    ensures SortedByStart(r)
    ensures multiset(r) == multiset(s)
  {
    if s == [] then []
    else
      assert s == s[..|s| - 1] + [s[|s| - 1]];
      Insert(SortByStart(s[..|s| - 1]), s[|s| - 1])
  }

  // ---------------------------------------------------------------------------
  // The sweep
  // ---------------------------------------------------------------------------

  /** One iteration of the merge loop. */
  function Absorb(out: seq<Seg>, g: Seg): seq<Seg> {
    if out == [] || g.a > out[|out| - 1].b then out + [g]
    else out[..|out| - 1] + [Seg(out[|out| - 1].a, Max(out[|out| - 1].b, g.b))]
  }

  /** The whole loop: `Absorb` folded over `s` from the left; it pushes at most one interval per input and at least one in all. */
  function Sweep(s: seq<Seg>): (r: seq<Seg>)
    ensures |r| <= |s|
    ensures s != [] ==> r != []
  {
    if s == [] then [] else Absorb(Sweep(s[..|s| - 1]), s[|s| - 1])
  }

  /** The merge: filter, sort, sweep. It never yields more intervals than it is given, and nothing from nothing. */
  function Merge(segs: seq<Seg>): (r: seq<Seg>)
    ensures |r| <= |segs|
    ensures (exists g | g in segs :: Valid(g)) ==> r != []
  {
    var kept := DropEmpty(segs);
    assert |multiset(SortByStart(kept))| == |multiset(kept)|;
    Sweep(SortByStart(kept))
  }

  /** `filter(x => x.b > x.a)`. */
  function DropEmpty(segs: seq<Seg>): (r: seq<Seg>)
    ensures forall g :: g in r <==> g in segs && Valid(g)
    ensures |r| <= |segs|
  {
    if segs == [] then []
    else (if Valid(segs[0]) then [segs[0]] else []) + DropEmpty(segs[1..])
  }

  // ---------------------------------------------------------------------------
  // Coverage facts
  // ---------------------------------------------------------------------------

  lemma CoversConcat(s: seq<Seg>, t: seq<Seg>, x: int)
    ensures Covers(s + t, x) <==> Covers(s, x) || Covers(t, x)
  {
    if Covers(s + t, x) {
      var g :| g in s + t && g.a <= x < g.b;
      assert g in s || g in t;
    }
  }

  /** Dropping empty intervals changes no covered minute. */
  lemma DropEmptyCovers(segs: seq<Seg>, x: int)
    ensures Covers(DropEmpty(segs), x) <==> Covers(segs, x)
  {
    if Covers(segs, x) {
      var g :| g in segs && g.a <= x < g.b;
      assert g in DropEmpty(segs);
    }
  }

  /** Coverage depends only on which intervals are present, not on their order or count. */
  lemma PermutationCovers(s: seq<Seg>, t: seq<Seg>, x: int)
    requires multiset(s) == multiset(t)
    ensures Covers(s, x) <==> Covers(t, x)
  {
    forall g
      ensures g in s <==> g in t
    {
      assert g in s <==> g in multiset(s);
      assert g in t <==> g in multiset(t);
    }
  }

  /** One step of the sweep keeps the output canonical and never moves the last start past `g`'s. */
  lemma AbsorbKeepsCanonical(out: seq<Seg>, g: Seg, r: seq<Seg>)
    requires Canonical(out) && Valid(g)
    requires out != [] ==> out[|out| - 1].a <= g.a
    requires r == Absorb(out, g)
    ensures Canonical(r)
    ensures r != [] && r[|r| - 1].a <= g.a
  {
    if out != [] && g.a > out[|out| - 1].b {
      var n := |out| - 1;
      assert forall i | 0 <= i < n :: out[i].b < out[n].a < out[n].b;
    }
  }

  /** One step of the sweep adds exactly `g`'s minutes to what the output covers. */
  lemma AbsorbCovers(out: seq<Seg>, g: Seg, x: int)
    requires Valid(g)
    requires out != [] ==> Valid(out[|out| - 1]) && out[|out| - 1].a <= g.a
    ensures Covers(Absorb(out, g), x) <==> Covers(out, x) || g.a <= x < g.b
  {
    if out == [] || g.a > out[|out| - 1].b {
      CoversConcat(out, [g], x);
      assert Covers([g], x) <==> g.a <= x < g.b by {
        assert g in [g];
      }
    } else {
      var n := |out| - 1;
      var last := Seg(out[n].a, Max(out[n].b, g.b));
      assert out == out[..n] + [out[n]];
      CoversConcat(out[..n], [last], x);
      CoversConcat(out[..n], [out[n]], x);
      assert last in [last] && out[n] in [out[n]];
    }
  }

  /** The sweep of a sorted list of non-empty intervals is canonical and covers the same minutes. */
  lemma {:induction false} SweepCanonical(s: seq<Seg>)
    requires SortedByStart(s)
    requires forall i | 0 <= i < |s| :: Valid(s[i])
    ensures Canonical(Sweep(s))
    ensures s != [] ==> Sweep(s) != [] && Sweep(s)[|Sweep(s)| - 1].a <= s[|s| - 1].a
    ensures forall x :: Covers(Sweep(s), x) <==> Covers(s, x)
    decreases |s|
  {
    if s != [] {
      var init := s[..|s| - 1];
      assert forall i | 0 <= i < |init| :: init[i] == s[i];
      SweepCanonical(init);
      assert |s| > 1 ==> s[|s| - 2].a <= s[|s| - 1].a;
      SweepLast(s);
      SweepLastCovers(s);
    }
  }

  /** The induction step of `SweepCanonical` for the shape of the output. */
  lemma SweepLast(s: seq<Seg>)
    requires s != [] && Valid(s[|s| - 1])
    requires |s| > 1 ==> s[|s| - 2].a <= s[|s| - 1].a
    requires var init := s[..|s| - 1];
      && Canonical(Sweep(init))
      && (init != [] ==> Sweep(init) != [] && Sweep(init)[|Sweep(init)| - 1].a <= init[|init| - 1].a)
    ensures Canonical(Sweep(s))
    ensures Sweep(s) != [] && Sweep(s)[|Sweep(s)| - 1].a <= s[|s| - 1].a
  {
    var n := |s| - 1;
    var init := s[..n];
    var out := Sweep(init);
    assert n > 0 ==> init[|init| - 1] == s[n - 1];
    AbsorbKeepsCanonical(out, s[n], Sweep(s));
  }

  /** The induction step of `SweepCanonical` for the minutes covered. */
  lemma SweepLastCovers(s: seq<Seg>)
    requires s != [] && Valid(s[|s| - 1])
    requires |s| > 1 ==> s[|s| - 2].a <= s[|s| - 1].a
    requires var init := s[..|s| - 1];
      && Canonical(Sweep(init))
      && (init != [] ==> Sweep(init) != [] && Sweep(init)[|Sweep(init)| - 1].a <= init[|init| - 1].a)
      && forall x :: Covers(Sweep(init), x) <==> Covers(init, x)
    ensures forall x :: Covers(Sweep(s), x) <==> Covers(s, x)
  {
    var n := |s| - 1;
    var init := s[..n];
    var out := Sweep(init);
    var g := s[n];
    assert Sweep(s) == Absorb(out, g);
    assert n > 0 ==> init[|init| - 1] == s[n - 1];
    assert out != [] ==> Valid(out[|out| - 1]) && out[|out| - 1].a <= g.a;
    forall x
      ensures Covers(Sweep(s), x) <==> Covers(s, x)
    {
      AbsorbCovers(out, g, x);
      CoversLast(s, x);
    }
  }

  /** The last interval of a list adds its own minutes to those of the ones before it. */
  lemma CoversLast(s: seq<Seg>, x: int)
    requires s != []
    ensures Covers(s, x) <==> Covers(s[..|s| - 1], x) || s[|s| - 1].a <= x < s[|s| - 1].b
  {
    var g := s[|s| - 1];
    assert s == s[..|s| - 1] + [g];
    CoversConcat(s[..|s| - 1], [g], x);
    assert Covers([g], x) <==> g.a <= x < g.b by {
      assert g in [g];
    }
  }

  /** The merge result is sorted, strictly separated and covers exactly the minutes its input covers. */
  lemma MergeCanonical(segs: seq<Seg>)
    ensures Canonical(Merge(segs))
    ensures forall x :: Covers(Merge(segs), x) <==> Covers(segs, x)
  {
    var f := DropEmpty(segs);
    var sorted := SortByStart(f);
    assert forall i | 0 <= i < |sorted| :: sorted[i] in multiset(f);
    SweepCanonical(sorted);
    forall x
      ensures Covers(Merge(segs), x) <==> Covers(segs, x)
    {
      PermutationCovers(sorted, f, x);
      DropEmptyCovers(segs, x);
    }
  }

  // ---------------------------------------------------------------------------
  // Uniqueness of the canonical form
  // ---------------------------------------------------------------------------

  /** A canonical list covers its first start and nothing before it. */
  lemma FirstStart(c: seq<Seg>)
    requires Canonical(c) && c != []
    ensures Covers(c, c[0].a)
    ensures forall x | Covers(c, x) :: c[0].a <= x
  {
    assert c[0] in c;
    forall x | Covers(c, x)
      ensures c[0].a <= x
    {
      var g :| g in c && g.a <= x < g.b;
      var i :| 0 <= i < |c| && c[i] == g;
      assert i == 0 || c[0].a < c[0].b < c[i].a;
    }
  }

  /** Between its first start and first end, a canonical list covers exactly the first interval. */
  lemma FirstBlock(c: seq<Seg>)
    requires Canonical(c) && c != []
    ensures forall x | c[0].a <= x <= c[0].b :: Covers(c, x) <==> x < c[0].b
  {
    assert c[0] in c;
    forall x | c[0].a <= x <= c[0].b && Covers(c, x)
      ensures x < c[0].b
    {
      var g :| g in c && g.a <= x < g.b;
      var i :| 0 <= i < |c| && c[i] == g;
      assert i == 0;
    }
  }

  /** The rest of a canonical list covers what the whole covers from the first end on. */
  lemma TailCovers(c: seq<Seg>)
    requires Canonical(c) && c != []
    ensures Canonical(c[1..])
    ensures forall x :: Covers(c[1..], x) <==> Covers(c, x) && c[0].b <= x
  {
    assert c == [c[0]] + c[1..];
    forall x
      ensures Covers(c[1..], x) <==> Covers(c, x) && c[0].b <= x
    {
      CoversConcat([c[0]], c[1..], x);
      if Covers(c[1..], x) {
        var g :| g in c[1..] && g.a <= x < g.b;
        var i :| 0 <= i < |c[1..]| && c[1..][i] == g;
        assert c[0].b < c[i + 1].a;
      }
    }
  }

  /** Two canonical lists that cover the same minutes are equal. */
  lemma {:induction false} CanonicalUnique(c: seq<Seg>, d: seq<Seg>)
    requires Canonical(c) && Canonical(d)
    requires forall x :: Covers(c, x) <==> Covers(d, x)
    ensures c == d
    decreases |c|
  {
    if c != [] && d != [] {
      CanonicalHeads(c, d);
      TailCovers(c);
      TailCovers(d);
      CanonicalUnique(c[1..], d[1..]);
      assert c == [c[0]] + c[1..] && d == [d[0]] + d[1..];
    } else if c != [] {
      FirstStart(c);
      assert false;
    } else if d != [] {
      FirstStart(d);
      assert false;
    }
  }

  /** Two non-empty canonical lists that cover the same minutes start with the same interval. */
  lemma CanonicalHeads(c: seq<Seg>, d: seq<Seg>)
    requires Canonical(c) && Canonical(d) && c != [] && d != []
    requires forall x :: Covers(c, x) <==> Covers(d, x)
    ensures c[0] == d[0]
  {
    FirstStart(c);
    FirstStart(d);
    assert c[0].a == d[0].a;
    FirstBlock(c);
    FirstBlock(d);
    assert Covers(c, c[0].b) == Covers(d, c[0].b);
    assert Covers(c, d[0].b) == Covers(d, d[0].b);
  }

  /** The merge is determined by the minutes its input covers. */
  lemma MergeByCoverage(s: seq<Seg>, t: seq<Seg>)
    requires forall x :: Covers(s, x) <==> Covers(t, x)
    ensures Merge(s) == Merge(t)
  {
    MergeCanonical(s);
    MergeCanonical(t);
    CanonicalUnique(Merge(s), Merge(t));
  }

  /** `mergeSlots` does not depend on the order of its input. */
  lemma MergeOrderIndependent(s: seq<Seg>, t: seq<Seg>)
    requires multiset(s) == multiset(t)
    ensures Merge(s) == Merge(t)
  {
    forall x
      ensures Covers(s, x) <==> Covers(t, x)
    {
      PermutationCovers(s, t, x);
    }
    MergeByCoverage(s, t);
  }

  /** A canonical list is its own merge. */
  lemma MergeOfCanonical(c: seq<Seg>)
    requires Canonical(c)
    ensures Merge(c) == c
  {
    MergeCanonical(c);
    CanonicalUnique(Merge(c), c);
  }

  /** Merging twice is merging once. */
  lemma MergeIdempotent(segs: seq<Seg>)
    ensures Merge(Merge(segs)) == Merge(segs)
  {
    MergeCanonical(segs);
    MergeOfCanonical(Merge(segs));
  }

  /** No minute lies in two intervals of a canonical list. */
  lemma CanonicalExclusive(c: seq<Seg>, i: nat, j: nat, x: int)
    requires Canonical(c) && i < |c| && j < |c| && i != j
    requires c[j].a <= x < c[j].b
    ensures !(c[i].a <= x < c[i].b)
  {
    if i < j {
      assert c[i].b < c[j].a;
    } else {
      assert c[j].b < c[i].a;
    }
  }

  /** Removing an interval from a canonical list keeps it canonical. */
  lemma CanonicalRemove(c: seq<Seg>, i: nat)
    requires Canonical(c) && i < |c|
    ensures Canonical(c[..i] + c[i + 1..])
  {
    var rest := c[..i] + c[i + 1..];
    forall p, q | 0 <= p < q < |rest|
      ensures rest[p].b < rest[q].a
    {
      var p', q' := if p < i then p else p + 1, if q < i then q else q + 1;
      assert rest[p] == c[p'] && rest[q] == c[q'];
    }
  }

  /** Removing an interval from a canonical list uncovers exactly its minutes. */
  lemma CoversRemove(c: seq<Seg>, i: nat, x: int)
    requires Canonical(c) && i < |c|
    ensures Covers(c[..i] + c[i + 1..], x) <==> Covers(c, x) && !(c[i].a <= x < c[i].b)
  {
    if Covers(c[..i] + c[i + 1..], x) {
      RemainingCovered(c, i, x);
    }
    if Covers(c, x) && !(c[i].a <= x < c[i].b) {
      var g :| g in c && g.a <= x < g.b;
      var j :| 0 <= j < |c| && c[j] == g;
      OtherKept(c, i, j);
    }
  }

  lemma RemainingCovered(c: seq<Seg>, i: nat, x: int)
    requires Canonical(c) && i < |c|
    requires Covers(c[..i] + c[i + 1..], x)
    ensures Covers(c, x) && !(c[i].a <= x < c[i].b)
  {
    var g: Seg :| g in c[..i] + c[i + 1..] && g.a <= x < g.b;
    var j := KeptIndex(c, i, g);
    assert c[j] in c;
    CanonicalExclusive(c, i, j, x);
  }

  /** An interval left after removing position `i` sits at some other position of the original. */
  lemma KeptIndex(c: seq<Seg>, i: nat, g: Seg) returns (j: nat)
    requires i < |c| && g in c[..i] + c[i + 1..]
    ensures j < |c| && j != i && c[j] == g
  {
    var left, right := c[..i], c[i + 1..];
    if g in left {
      var k :| 0 <= k < |left| && left[k] == g;
      j := k;
    } else {
      assert g in right;
      var k :| 0 <= k < |right| && right[k] == g;
      j := i + 1 + k;
    }
  }

  /** Removing position `i` keeps the interval at every other position. */
  lemma OtherKept(c: seq<Seg>, i: nat, j: nat)
    requires i < |c| && j < |c| && j != i
    ensures c[j] in c[..i] + c[i + 1..]
  {
    var rest := c[..i] + c[i + 1..];
    var k := if j < i then j else j - 1;
    assert rest[k] == c[j];
  }
}
