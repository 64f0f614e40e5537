/**
  Optional strings read the way JavaScript reads them: `x || y` skips the
  empty string as well as a missing value, and `[a, b, c].filter(Boolean).join(' ')`
  builds a display name from the parts that are truthy.
 */
module Names {
  import opened Wrappers
  import opened Text

  /** `x || undefined`: the value when it is a non-empty string. */
  function Truthy(v: Option<string>): (r: Option<string>)
    ensures r.Some? <==> v.Some? && v.value != ""
    ensures r.Some? ==> r == v
  {
    if v.Some? && v.value != "" then v else None
  }

  /** `parts.filter(Boolean)`: the truthy parts, in order. */
  function PresentParts(parts: seq<Option<string>>): (r: seq<string>)
    ensures |r| <= |parts|
    ensures forall k | 0 <= k < |r| :: r[k] != ""
    ensures forall x | x in r :: Some(x) in parts
    ensures forall k | 0 <= k < |parts| && Truthy(parts[k]).Some? :: parts[k].value in r
    ensures r == [] <==> forall k | 0 <= k < |parts| :: Truthy(parts[k]).None?
    decreases |parts|
  {
    if parts == [] then []
    else
      var rest := PresentParts(parts[1..]);
      assert forall k | 1 <= k < |parts| :: parts[k] == parts[1..][k - 1];
      (if Truthy(parts[0]).Some? then [parts[0].value] else []) + rest
  }

  /** Joining non-empty parts is empty exactly when there are none. */
  lemma {:induction false} JoinNonEmpty(ps: seq<string>, sep: string)
    requires forall k | 0 <= k < |ps| :: ps[k] != ""
    ensures Join(ps, sep) == "" <==> ps == []
    decreases |ps|
  {
    if |ps| >= 2 {
      assert |Join(ps, sep)| >= |ps[0]|;
    }
  }

  /** `[a, b, c].filter(Boolean).join(' ')`. */
  function JoinNames(parts: seq<Option<string>>): (r: string)
    ensures r == "" <==> forall k | 0 <= k < |parts| :: Truthy(parts[k]).None?
  {
    var ps := PresentParts(parts);
    JoinNonEmpty(ps, " ");
    Join(ps, " ")
  }

  /** Splitting a space-join of space-free parts on spaces gives the parts back. */
  lemma SplitJoinSpace(ps: seq<string>)
    requires |ps| >= 1
    requires forall k | 0 <= k < |ps| :: ' ' !in ps[k]
    ensures Split(Join(ps, " "), ' ') == ps
  {
    var tail: string := [];
    assert [' '] + tail == " ";
    SplitJoin(ps, ' ', tail);
    var later := seq(|ps| - 1, k requires 0 <= k < |ps| - 1 => tail + ps[k + 1]);
    forall k | 0 <= k < |ps| - 1
      ensures later[k] == ps[k + 1]
    {
      assert tail + ps[k + 1] == ps[k + 1];
    }
    assert [ps[0]] + later == ps;
  }

  /**
    When no part holds a space, splitting the joined name on spaces gives
    back exactly the truthy parts.
   */
  lemma JoinNamesSplits(parts: seq<Option<string>>)
    requires forall k | 0 <= k < |parts| && parts[k].Some? :: ' ' !in parts[k].value
    requires exists k | 0 <= k < |parts| :: Truthy(parts[k]).Some?
    ensures Split(JoinNames(parts), ' ') == PresentParts(parts)
  {
    var ps := PresentParts(parts);
    forall k | 0 <= k < |ps|
      ensures ' ' !in ps[k]
    {
      assert ps[k] in ps;
      assert Some(ps[k]) in parts;
    }
    SplitJoinSpace(ps);
  }
}
