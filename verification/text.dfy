/**
  String helpers shared by every page: the JavaScript whitespace class, `trim`,
  ASCII case mapping, substring search, `split`/`join` on one separator,
  `String(n)` for integers, `padStart(2, '0')`, and order-preserving filtering.
 */
module Text {

  // ---------------------------------------------------------------------------
  // Whitespace and trim
  // ---------------------------------------------------------------------------

  /** The characters `String.prototype.trim` removes and the regex class `\s` matches. */
  predicate IsSpace(c: char) {
    || c == ' ' || c == '\t' || c == '\n' || c == '\r'
    || c == '\U{000B}' || c == '\U{000C}' || c == '\U{00A0}' || c == '\U{1680}'
    || ('\U{2000}' <= c <= '\U{200A}')
    || c == '\U{2028}' || c == '\U{2029}' || c == '\U{202F}' || c == '\U{205F}'
    || c == '\U{3000}' || c == '\U{FEFF}'
  }

  predicate AllSpace(s: string) {
    forall i | 0 <= i < |s| :: IsSpace(s[i])
  }

  /** No whitespace at either end: what `trim` always returns. */
  predicate Trimmed(s: string) {
    s == [] || (!IsSpace(s[0]) && !IsSpace(s[|s| - 1]))
  }

  function TrimStart(s: string): (r: string)
    ensures |r| <= |s| && r == s[|s| - |r|..]
    ensures AllSpace(s[..|s| - |r|])
    ensures r == [] || !IsSpace(r[0])
  {
    if |s| > 0 && IsSpace(s[0]) then TrimStart(s[1..]) else s
  }

  function TrimEnd(s: string): (r: string)
    ensures |r| <= |s| && r == s[..|r|]
    ensures AllSpace(s[|r|..])
    ensures r == [] || !IsSpace(r[|r| - 1])
  {
    if |s| > 0 && IsSpace(s[|s| - 1]) then TrimEnd(s[..|s| - 1]) else s
  }

  /** `String.prototype.trim`. */
  function Trim(s: string): string {
    TrimEnd(TrimStart(s))
  }

  lemma TrimIsTrimmed(s: string)
    ensures Trimmed(Trim(s))
  {
    var t := TrimStart(s);
    var r := TrimEnd(t);
    if r != [] {
      assert r == t[..|r|];
      assert r[0] == t[0];
    }
  }

  lemma {:induction false} TrimStartSkipsSpace(a: string, b: string)
    requires AllSpace(a)
    ensures TrimStart(a + b) == TrimStart(b)
    decreases |a|
  {
    if a == [] {
      assert a + b == b;
    } else {
      var s := a + b;
      assert s[0] == a[0] && IsSpace(s[0]);
      assert s[1..] == a[1..] + b;
      assert TrimStart(s) == TrimStart(s[1..]);
      TrimStartSkipsSpace(a[1..], b);
    }
  }

  lemma {:induction false} TrimEndSkipsSpace(m: string, c: string)
    requires AllSpace(c)
    requires m == [] || !IsSpace(m[|m| - 1])
    ensures TrimEnd(m + c) == m
    decreases |c|
  {
    if c == [] {
      assert m + c == m;
    } else {
      var s := m + c;
      assert s[|s| - 1] == c[|c| - 1] && IsSpace(s[|s| - 1]);
      assert s[..|s| - 1] == m + c[..|c| - 1];
      assert TrimEnd(s) == TrimEnd(s[..|s| - 1]);
      TrimEndSkipsSpace(m, c[..|c| - 1]);
    }
  }

  /** `trim` strips exactly the whitespace padding around an already-trimmed core. */
  lemma {:induction false} TrimOfPadded(a: string, m: string, c: string)
    requires AllSpace(a) && AllSpace(c) && Trimmed(m)
    ensures Trim(a + m + c) == m
  {
    assert a + m + c == a + (m + c);
    TrimStartSkipsSpace(a, m + c);
    if m == [] {
      assert m + c == c;
      TrimStartSkipsSpace(c, []);
      assert c + [] == c;
    } else {
      assert (m + c)[0] == m[0];
    }
    TrimEndSkipsSpace(m, c);
  }

  /** `trim` leaves an already-trimmed string alone. */
  lemma TrimOfTrimmed(t: string)
    requires Trimmed(t)
    ensures Trim(t) == t
  {
    assert [] + t + [] == t;
    TrimOfPadded([], t, []);
  }

  /** `trim` returns a contiguous piece of its input. */
  lemma TrimSlice(s: string) returns (k: nat)
    ensures k + |Trim(s)| <= |s| && Trim(s) == s[k..k + |Trim(s)|]
  {
    var t := TrimStart(s);
    k := |s| - |t|;
    assert Trim(s) == t[..|Trim(s)|];
  }

  lemma TrimIdempotent(s: string)
    ensures Trim(Trim(s)) == Trim(s)
  {
    TrimIsTrimmed(s);
    TrimOfTrimmed(Trim(s));
  }

  // ---------------------------------------------------------------------------
  // ASCII case mapping
  // ---------------------------------------------------------------------------

  predicate IsUpper(c: char) { 'A' <= c <= 'Z' }
  predicate IsLower(c: char) { 'a' <= c <= 'z' }
  predicate IsDigit(c: char) { '0' <= c <= '9' }
  predicate IsAlnum(c: char) { IsUpper(c) || IsLower(c) || IsDigit(c) }

  function LowerChar(c: char): char {
    if IsUpper(c) then (c as int + 32) as char else c
  }

  function UpperChar(c: char): char {
    if IsLower(c) then (c as int - 32) as char else c
  }

  function Lower(s: string): (r: string)
    ensures |r| == |s|
  {
    seq(|s|, i requires 0 <= i < |s| => LowerChar(s[i]))
  }

  function Upper(s: string): (r: string)
    ensures |r| == |s|
  {
    seq(|s|, i requires 0 <= i < |s| => UpperChar(s[i]))
  }

  // ---------------------------------------------------------------------------
  // Substrings, split and join
  // ---------------------------------------------------------------------------

  /** `s.includes(sub)`. */
  predicate Contains(s: string, sub: string) {
    exists i | 0 <= i <= |s| :: sub <= s[i..]
  }

  /** `s.split(sep)` for a one-character separator: always at least one part. */
  function Split(s: string, sep: char): (r: seq<string>)
    ensures |r| >= 1
    ensures forall k | 0 <= k < |r| :: sep !in r[k]
    decreases |s|
  {
    if |s| == 0 then [""]
    else if s[0] == sep then [""] + Split(s[1..], sep)
    else
      var rest := Split(s[1..], sep);
      [[s[0]] + rest[0]] + rest[1..]
  }

  /** `parts.join(sep)`. */
  function Join(parts: seq<string>, sep: string): string
    decreases |parts|
  {
    if |parts| == 0 then ""
    else if |parts| == 1 then parts[0]
    else parts[0] + sep + Join(parts[1..], sep)
  }

  /** Splitting after a separator-free head peels that head off as the first part. */
  lemma {:induction false} SplitAfterHead(a: string, sep: char, b: string)
    requires sep !in a
    ensures Split(a + [sep] + b, sep) == [a] + Split(b, sep)
    decreases |a|
  {
    if a == [] {
      assert a + [sep] + b == [sep] + b;
      assert ([sep] + b)[1..] == b;
    } else {
      var s := a + [sep] + b;
      assert s[0] == a[0];
      assert s[1..] == a[1..] + [sep] + b;
      SplitAfterHead(a[1..], sep, b);
      assert [a[0]] + a[1..] == a;
    }
  }

  /** A separator-free string is a single part. */
  lemma {:induction false} SplitNoSep(a: string, sep: char)
    requires sep !in a
    ensures Split(a, sep) == [a]
    decreases |a|
  {
    if a != [] {
      assert sep !in a[1..];
      SplitNoSep(a[1..], sep);
      assert [a[0]] + a[1..] == a;
    }
  }

  /** `split` returns more than one part exactly when the separator occurs. */
  lemma {:induction false} SplitMany(s: string, sep: char)
    ensures |Split(s, sep)| >= 2 <==> sep in s
    decreases |s|
  {
    if s == [] {
    } else if s[0] == sep {
    } else {
      SplitMany(s[1..], sep);
      assert sep in s <==> sep in s[1..];
    }
  }

  /** A separator-free prefix becomes the front of the first part. */
  lemma {:induction false} SplitPrefix(t: string, sep: char, x: string)
    requires sep !in t
    ensures Split(t + x, sep) == [t + Split(x, sep)[0]] + Split(x, sep)[1..]
    decreases |t|
  {
    if t == [] {
      var r := Split(x, sep);
      assert t + x == x && t + r[0] == r[0];
      assert [r[0]] + r[1..] == r;
    } else {
      var s := t + x;
      assert s[0] == t[0] && t[0] in t;
      assert s[1..] == t[1..] + x;
      assert sep !in t[1..];
      SplitPrefix(t[1..], sep, x);
      var rest := Split(s[1..], sep);
      assert Split(s, sep) == [[t[0]] + rest[0]] + rest[1..];
      assert [t[0]] + (t[1..] + Split(x, sep)[0]) == t + Split(x, sep)[0];
    }
  }

  /**
    Splitting a join on the first character of its separator recovers the
    parts, every part after the first still carrying the separator's tail.
   */
  lemma {:induction false} SplitJoin(parts: seq<string>, sep: char, tail: string)
    requires |parts| >= 1
    requires sep !in tail
    requires forall k | 0 <= k < |parts| :: sep !in parts[k]
    ensures Split(Join(parts, [sep] + tail), sep)
      == [parts[0]] + seq(|parts| - 1, k requires 0 <= k < |parts| - 1 => tail + parts[k + 1])
    decreases |parts|
  {
    if |parts| == 1 {
      SplitNoSep(parts[0], sep);
    } else {
      var rest := Join(parts[1..], [sep] + tail);
      assert Join(parts, [sep] + tail) == parts[0] + [sep] + (tail + rest);
      SplitAfterHead(parts[0], sep, tail + rest);
      SplitJoin(parts[1..], sep, tail);
      SplitPrefix(tail, sep, rest);
      var later := seq(|parts| - 1, k requires 0 <= k < |parts| - 1 => tail + parts[k + 1]);
      assert Split(tail + rest, sep) == later;
    }
  }

  // ---------------------------------------------------------------------------
  // Splitting on whitespace runs (`split(/\s+/)`)
  // ---------------------------------------------------------------------------

  /** Every character of `w` is a non-space. */
  predicate NoSpace(w: string) {
    forall i | 0 <= i < |w| :: !IsSpace(w[i])
  }

  /**
    `s.split(/\s+/)`: the pieces between whitespace runs. A leading run
    gives an empty first piece and a trailing one an empty last piece.
   */
  function SplitWs(s: string): (r: seq<string>)
    ensures |r| >= 1
    decreases |s|
  {
    if s == [] then [""]
    else if IsSpace(s[0]) then [""] + SplitWs(TrimStart(s[1..]))
    else
      var rest := SplitWs(s[1..]);
      [[s[0]] + rest[0]] + rest[1..]
  }

  /** Text that ends in a non-space, as trimmed text does. */
  predicate EndsSolid(s: string) {
    s == [] || !IsSpace(s[|s| - 1])
  }

  /**
    The pieces of `s` are words: none holds whitespace, all but the first
    are non-empty, and the first is empty exactly when `s` is empty or
    starts with whitespace.
   */
  predicate WordPieces(s: string, r: seq<string>) {
    && |r| >= 1
    && (forall k | 0 <= k < |r| :: NoSpace(r[k]))
    && (forall k | 1 <= k < |r| :: r[k] != "")
    && (r[0] == "" <==> s == [] || IsSpace(s[0]))
  }

  /** On text that ends in a non-space, `split(/\s+/)` yields word pieces. */
  lemma {:induction false} SplitWsWords(s: string)
    requires EndsSolid(s)
    ensures WordPieces(s, SplitWs(s))
    decreases |s|
  {
    if s == [] {
    } else if IsSpace(s[0]) {
      SkipLeadingSpace(s);
      SplitWsWords(TrimStart(s[1..]));
      SpaceStep(s);
    } else {
      assert EndsSolid(s[1..]);
      SplitWsWords(s[1..]);
      SolidStep(s);
    }
  }

  lemma SpaceStep(s: string)
    requires s != [] && IsSpace(s[0])
    requires var t := TrimStart(s[1..]); t != [] && !IsSpace(t[0]) && WordPieces(t, SplitWs(t))
    ensures WordPieces(s, SplitWs(s))
  {
    var w := SplitWs(TrimStart(s[1..]));
    assert SplitWs(s) == [""] + w;
    EmptyThenWords(s, w);
  }

  /** A leading whitespace run contributes an empty piece before the words that follow it. */
  lemma EmptyThenWords(s: string, w: seq<string>)
    requires s != [] && IsSpace(s[0])
    requires |w| >= 1 && w[0] != ""
    requires forall k | 0 <= k < |w| :: NoSpace(w[k])
    requires forall k | 1 <= k < |w| :: w[k] != ""
    ensures WordPieces(s, [""] + w)
  {
    var r := [""] + w;
    forall k | 1 <= k < |r|
      ensures NoSpace(r[k]) && r[k] != ""
    {
      assert r[k] == w[k - 1];
    }
  }

  lemma SolidStep(s: string)
    requires s != [] && !IsSpace(s[0])
    requires WordPieces(s[1..], SplitWs(s[1..]))
    ensures WordPieces(s, SplitWs(s))
  {
    var rest := SplitWs(s[1..]);
    var head := [s[0]] + rest[0];
    assert SplitWs(s) == [head] + rest[1..];
    assert NoSpace(rest[0]);
    NoSpaceCons(s[0], rest[0]);
    assert head != "";
  }

  lemma NoSpaceCons(c: char, w: string)
    requires !IsSpace(c) && NoSpace(w)
    ensures NoSpace([c] + w)
  {
    var h := [c] + w;
    forall i | 0 <= i < |h|
      ensures !IsSpace(h[i])
    {
      if i > 0 {
        assert h[i] == w[i - 1];
      }
    }
  }

  /** After a leading whitespace character, the rest of solid-ended text trims to non-empty solid-ended text. */
  lemma SkipLeadingSpace(s: string)
    requires s != [] && IsSpace(s[0]) && EndsSolid(s)
    ensures var t := TrimStart(s[1..]);
      t != [] && !IsSpace(t[0]) && EndsSolid(t) && |t| < |s|
  {
    var u := s[1..];
    var t := TrimStart(u);
    assert |s| >= 2;
    assert u[|u| - 1] == s[|s| - 1];
    assert t[|t| - 1] == u[|u| - |t|..][|t| - 1];
  }

  // ---------------------------------------------------------------------------
  // Decimal digits: String(n), padStart(2, '0') and their inverse
  // ---------------------------------------------------------------------------

  predicate AllDigits(s: string) {
    forall i | 0 <= i < |s| :: IsDigit(s[i])
  }

  function DigitChar(d: nat): (c: char)
    requires d < 10
    ensures IsDigit(c)
  {
    ('0' as int + d) as char
  }

  function DigitValue(c: char): (d: nat)
    requires IsDigit(c)
    ensures d < 10 && DigitChar(d) == c
  {
    c as int - '0' as int
  }

  /** The value of a string of decimal digits (the empty string counts as 0). */
  function DecValue(s: string): nat
    requires AllDigits(s)
  {
    if |s| == 0 then 0 else 10 * DecValue(s[..|s| - 1]) + DigitValue(s[|s| - 1])
  }

  /** `String(n)` for a non-negative integer: shortest decimal form. */
  function NatToDec(n: nat): (r: string)
    ensures 1 <= |r| && AllDigits(r)
    ensures |r| == 1 <==> n < 10
    ensures |r| == 2 <==> 10 <= n < 100
    ensures DecValue(r) == n
    decreases n
  {
    if n < 10 then [DigitChar(n)]
    else
      var r := NatToDec(n / 10) + [DigitChar(n % 10)];
      assert r[..|r| - 1] == NatToDec(n / 10);
      r
  }

  /** `String(n)` for any integer. */
  function IntToDec(n: int): string {
    if n < 0 then "-" + NatToDec(-n) else NatToDec(n)
  }

  /** `s.padStart(2, '0')`. */
  function PadStart2(s: string): string {
    if |s| >= 2 then s else seq(2 - |s|, _ => '0') + s
  }

  /** `String(n).padStart(2, '0')`. */
  function Pad2(n: int): string {
    PadStart2(IntToDec(n))
  }

  lemma Pad2Digits(n: nat)
    ensures AllDigits(Pad2(n)) && DecValue(Pad2(n)) == n
    ensures n < 100 ==> |Pad2(n)| == 2
    ensures n >= 10 ==> Pad2(n) == NatToDec(n)
  {
    var d := NatToDec(n);
    if n < 10 {
      var p := Pad2(n);
      assert p == ['0', d[0]];
      assert p[..1] == ['0'];
    }
  }

  lemma DecValueTwo(s: string)
    requires |s| == 2 && AllDigits(s)
    ensures DecValue(s) == 10 * DigitValue(s[0]) + DigitValue(s[1])
  {
    var a := s[..1];
    assert a == [s[0]];
    assert a[..0] == [];
    assert DecValue(a) == 10 * DecValue(a[..0]) + DigitValue(a[0]);
    assert DecValue(a) == DigitValue(s[0]);
    assert DecValue(s) == 10 * DecValue(a) + DigitValue(s[1]);
  }

  /** Two decimal digits read and re-rendered with `padStart(2, '0')` come back unchanged. */
  lemma TwoDigitsRoundTrip(s: string)
    requires |s| == 2 && AllDigits(s)
    ensures Pad2(DecValue(s)) == s
  {
    var hi, lo := DigitValue(s[0]), DigitValue(s[1]);
    DecValueTwo(s);
    var v := DecValue(s);
    if hi == 0 {
      assert NatToDec(v) == [DigitChar(lo)];
      assert Pad2(v) == ['0'] + [DigitChar(lo)];
    } else {
      assert v / 10 == hi && v % 10 == lo;
      assert NatToDec(v) == NatToDec(hi) + [DigitChar(lo)];
      assert NatToDec(hi) == [DigitChar(hi)];
    }
  }

  // ---------------------------------------------------------------------------
  // Order-preserving filter (`Array.prototype.filter`)
  // ---------------------------------------------------------------------------

  function Filter<T>(f: T -> bool, s: seq<T>): (r: seq<T>)
    ensures |r| <= |s|
    ensures forall x | x in r :: x in s && f(x)
    ensures forall i | 0 <= i < |s| && f(s[i]) :: s[i] in r
    decreases |s|
  {
    if |s| == 0 then [] else (if f(s[0]) then [s[0]] else []) + Filter(f, s[1..])
  }

  /** Filtering a concatenation filters each part in place: the order of survivors is kept. */
  lemma {:induction false} FilterConcat<T>(f: T -> bool, a: seq<T>, b: seq<T>)
    ensures Filter(f, a + b) == Filter(f, a) + Filter(f, b)
    decreases |a|
  {
    if a == [] {
      assert a + b == b;
    } else {
      var head := if f(a[0]) then [a[0]] else [];
      assert (a + b)[0] == a[0];
      assert (a + b)[1..] == a[1..] + b;
      assert Filter(f, a + b) == head + Filter(f, a[1..] + b);
      FilterConcat(f, a[1..], b);
      assert Filter(f, a) == head + Filter(f, a[1..]);
    }
  }

  /** Filtering keeps everything exactly when every element passes. */
  lemma {:induction false} FilterKeepsAll<T>(f: T -> bool, s: seq<T>)
    ensures Filter(f, s) == s <==> forall i | 0 <= i < |s| :: f(s[i])
    decreases |s|
  {
    if s != [] {
      FilterKeepsAll(f, s[1..]);
      var t := Filter(f, s[1..]);
      if !f(s[0]) {
        assert Filter(f, s) == t;
      } else {
        assert Filter(f, s) == [s[0]] + t;
        assert s == [s[0]] + s[1..];
        assert Filter(f, s) == s <==> t == s[1..] by {
          if Filter(f, s) == s {
            assert t == Filter(f, s)[1..];
          }
        }
        assert (forall i | 0 <= i < |s| :: f(s[i])) <==> (forall i | 0 <= i < |s[1..]| :: f(s[1..][i])) by {
          assert forall i | 1 <= i < |s| :: s[i] == s[1..][i - 1];
        }
      }
    }
  }

  /** Filtering out at least one element shortens the sequence. */
  lemma {:induction false} FilterShorter<T>(f: T -> bool, s: seq<T>, k: nat)
    requires k < |s| && !f(s[k])
    ensures |Filter(f, s)| < |s|
    decreases |s|
  {
    var t := Filter(f, s[1..]);
    assert Filter(f, s) == (if f(s[0]) then [s[0]] else []) + t;
    if k > 0 {
      assert s[1..][k - 1] == s[k];
      FilterShorter(f, s[1..], k - 1);
    }
  }

  /** Removes every whitespace character (`replace(/\s+/g, '')`). */
  function StripSpaces(s: string): (r: string)
    ensures forall i | 0 <= i < |r| :: !IsSpace(r[i])
  {
    var r := Filter(c => !IsSpace(c), s);
    assert forall i | 0 <= i < |r| :: r[i] in r;
    r
  }
  /** Filtering keeps every relation that holds between earlier and later elements. */
  lemma {:induction false} FilterPairwise<T>(f: T -> bool, s: seq<T>, rel: (T, T) -> bool)
    requires forall i, j | 0 <= i < j < |s| :: rel(s[i], s[j])
    ensures forall i, j | 0 <= i < j < |Filter(f, s)| :: rel(Filter(f, s)[i], Filter(f, s)[j])
    decreases |s|
  {
    if s != [] {
      var t := Filter(f, s[1..]);
      FilterPairwise(f, s[1..], rel);
      forall x | x in t
        ensures rel(s[0], x)
      {
        var k :| 0 <= k < |s[1..]| && s[1..][k] == x;
        assert s[k + 1] == x;
      }
      var head := if f(s[0]) then [s[0]] else [];
      var r := Filter(f, s);
      assert r == head + t;
      forall i, j | 0 <= i < j < |r|
        ensures rel(r[i], r[j])
      {
        if i < |head| {
          assert r[i] == s[0] && r[j] == t[j - |head|] && t[j - |head|] in t;
        } else {
          assert r[i] == t[i - |head|] && r[j] == t[j - |head|];
        }
      }
    }
  }

  /** Filtering keeps any strictly increasing ranking of the elements. */
  lemma {:induction false} FilterKeepsOrder<T>(f: T -> bool, s: seq<T>, key: T -> int)
    requires forall i, j | 0 <= i < j < |s| :: key(s[i]) < key(s[j])
    ensures forall i, j | 0 <= i < j < |Filter(f, s)| :: key(Filter(f, s)[i]) < key(Filter(f, s)[j])
    decreases |s|
  {
    if s != [] {
      var t := Filter(f, s[1..]);
      FilterKeepsOrder(f, s[1..], key);
      forall x | x in t
        ensures key(s[0]) < key(x)
      {
        var k :| 0 <= k < |s[1..]| && s[1..][k] == x;
        assert s[k + 1] == x;
      }
      var head := if f(s[0]) then [s[0]] else [];
      var r := Filter(f, s);
      assert r == head + t;
      forall i, j | 0 <= i < j < |r|
        ensures key(r[i]) < key(r[j])
      {
        if i < |head| {
          assert r[i] == s[0] && r[j] == t[j - |head|] && t[j - |head|] in t;
          assert key(s[0]) < key(t[j - |head|]);
        } else {
          assert r[i] == t[i - |head|] && r[j] == t[j - |head|];
          assert key(t[i - |head|]) < key(t[j - |head|]);
        }
      }
    }
  }

  /** A filtered ranked list is ranked, hence without repeats, and holds exactly the elements that pass. */
  lemma FilterRanked<T>(f: T -> bool, s: seq<T>, key: T -> int, r: seq<T>)
    requires r == Filter(f, s)
    requires forall i, j | 0 <= i < j < |s| :: key(s[i]) < key(s[j])
    ensures forall i, j | 0 <= i < j < |r| :: key(r[i]) < key(r[j]) && r[i] != r[j]
    ensures forall x :: x in r <==> x in s && f(x)
  {
    FilterKeepsOrder(f, s, key);
    forall x | x in s && f(x)
      ensures x in r
    {
      var i :| 0 <= i < |s| && s[i] == x;
    }
  }

  // ---------------------------------------------------------------------------
  // Positions and string order
  // ---------------------------------------------------------------------------

  /** `s.indexOf(x)`, with `|s|` standing for "absent". */
  function IndexOf<T(==)>(s: seq<T>, x: T): (r: nat)
    ensures r <= |s|
    ensures r < |s| <==> x in s
    ensures r < |s| ==> s[r] == x && x !in s[..r]
    decreases |s|
  {
    if s == [] then 0
    else if s[0] == x then 0
    else
      var r := 1 + IndexOf(s[1..], x);
      assert s[1..][..r - 1] == s[1..r];
      r
  }

  /** In a sequence without repeats, every element's position is its index. */
  lemma IndexOfDistinct<T>(s: seq<T>, i: nat)
    requires i < |s|
    requires forall p, q | 0 <= p < q < |s| :: s[p] != s[q]
    ensures IndexOf(s, s[i]) == i
  {
    var r := IndexOf(s, s[i]);
    assert s[r] == s[i];
  }

  /** JavaScript's `a < b` on strings: lexicographic by character code. */
  predicate StrLess(a: string, b: string)
    decreases |a|
  {
    if a == [] then b != []
    else if b == [] then false
    else if a[0] != b[0] then a[0] < b[0]
    else StrLess(a[1..], b[1..])
  }

  /** JavaScript's `a <= b` on strings. */
  predicate StrLessEq(a: string, b: string) {
    a == b || StrLess(a, b)
  }
  /** Two non-empty ranked sequences with the same members start alike: both heads have the least rank. */
  lemma RankedHeads<T>(a: seq<T>, b: seq<T>, key: T -> int)
    requires a != [] && b != []
    requires forall i, j | 0 <= i < j < |a| :: key(a[i]) < key(a[j])
    requires forall i, j | 0 <= i < j < |b| :: key(b[i]) < key(b[j])
    requires a[0] in b && b[0] in a
    ensures a[0] == b[0]
  {
    var i :| 0 <= i < |b| && b[i] == a[0];
    var j :| 0 <= j < |a| && a[j] == b[0];
    assert key(b[0]) <= key(a[0]) <= key(b[0]);
  }

  /** Past a shared head, a member of one ranked sequence's tail is in the other's tail. */
  lemma RankedTailMember<T>(a: seq<T>, b: seq<T>, key: T -> int, x: T)
    requires a != [] && b != [] && a[0] == b[0]
    requires forall i, j | 0 <= i < j < |a| :: key(a[i]) < key(a[j])
    requires x in a[1..] && x in b
    ensures x in b[1..]
  {
    var p :| 0 <= p < |a[1..]| && a[1..][p] == x;
    assert key(a[0]) < key(a[p + 1]);
    var q :| 0 <= q < |b| && b[q] == x;
    assert q != 0 && b[1..][q - 1] == x;
  }

  /** Two sequences with strictly increasing ranks and the same members are equal. */
  lemma {:induction false} RankedUnique<T>(a: seq<T>, b: seq<T>, key: T -> int)
    requires forall i, j | 0 <= i < j < |a| :: key(a[i]) < key(a[j])
    requires forall i, j | 0 <= i < j < |b| :: key(b[i]) < key(b[j])
    requires forall x :: x in a <==> x in b
    ensures a == b
    decreases |a|
  {
    if a != [] {
      assert a[0] in b;
    }
    if b != [] {
      assert b[0] in a;
    }
    if a != [] && b != [] {
      RankedHeads(a, b, key);
      forall x
        ensures x in a[1..] <==> x in b[1..]
      {
        if x in a[1..] {
          RankedTailMember(a, b, key, x);
        }
        if x in b[1..] {
          RankedTailMember(b, a, key, x);
        }
      }
      RankedUnique(a[1..], b[1..], key);
      assert a == [a[0]] + a[1..] && b == [b[0]] + b[1..];
    }
  }
}
