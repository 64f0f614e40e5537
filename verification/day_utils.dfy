/**
  Weekday name tables and day-key normalisation (shared/day-utils.ts).

  The canonical day key is the lower-case English weekday name. Spanish names
  exist in an accented form (shown to users) and a plain form (sent to the
  backend); `NormDayKey` folds any of them to the English key.
 */
module DayUtils {
  import opened Text

  const WEEKDAYS_EN: seq<string> :=
    ["monday", "tuesday", "wednesday", "thursday", "friday", "saturday", "sunday"]

  /** Spanish (plain and accented) to English. */
  const ES2EN: map<string, string> := map[
    "lunes" := "monday", "martes" := "tuesday",
    "miercoles" := "wednesday", "miércoles" := "wednesday",
    "jueves" := "thursday", "viernes" := "friday",
    "sabado" := "saturday", "sábado" := "saturday",
    "domingo" := "sunday"]

  /** English to accented Spanish (display labels). */
  const EN2ES: map<string, string> := map[
    "monday" := "lunes", "tuesday" := "martes", "wednesday" := "miércoles",
    "thursday" := "jueves", "friday" := "viernes", "saturday" := "sábado",
    "sunday" := "domingo"]

  /** English to plain Spanish (what the backend stores). */
  const EN2ES_PLAIN: map<string, string> := map[
    "monday" := "lunes", "tuesday" := "martes", "wednesday" := "miercoles",
    "thursday" := "jueves", "friday" := "viernes", "saturday" := "sabado",
    "sunday" := "domingo"]

  // ---------------------------------------------------------------------------
  // Diacritic stripping: `normalize('NFD').replace(/\p{Diacritic}/gu, '')`
  // on a small Latin table.
  // ---------------------------------------------------------------------------

  /** A fixed table of combining marks and spacing accents, standing for the Unicode Diacritic property. */
  predicate IsMark(c: char) {
    || ('\U{0300}' <= c <= '\U{036F}')
    || c == '^' || c == '`' || c == '\U{00A8}' || c == '\U{00AF}' || c == '\U{00B4}' || c == '\U{00B8}'
  }

  /** The base letter NFD leaves once the combining mark is removed. */
  function Base(c: char): char {
    if 'À' <= c <= 'Å' then 'A'
    else if c == 'Ç' then 'C'
    else if 'È' <= c <= 'Ë' then 'E'
    else if 'Ì' <= c <= 'Ï' then 'I'
    else if c == 'Ñ' then 'N'
    else if 'Ò' <= c <= 'Ö' then 'O'
    else if 'Ù' <= c <= 'Ü' then 'U'
    else if c == 'Ý' then 'Y'
    else if 'à' <= c <= 'å' then 'a'
    else if c == 'ç' then 'c'
    else if 'è' <= c <= 'ë' then 'e'
    else if 'ì' <= c <= 'ï' then 'i'
    else if c == 'ñ' then 'n'
    else if 'ò' <= c <= 'ö' then 'o'
    else if 'ù' <= c <= 'ü' then 'u'
    else if c == 'ý' || c == 'ÿ' then 'y'
    else c
  }

  function StripDiacritics(s: string): (r: string)
    ensures forall i | 0 <= i < |r| :: !IsMark(r[i]) && Base(r[i]) == r[i]
    decreases |s|
  {
    if s == [] then []
    else (if IsMark(s[0]) then [] else [Base(s[0])]) + StripDiacritics(s[1..])
  }

  lemma {:induction false} StripConcat(a: string, b: string)
    ensures StripDiacritics(a + b) == StripDiacritics(a) + StripDiacritics(b)
    decreases |a|
  {
    if a == [] {
      assert a + b == b;
    } else {
      assert (a + b)[0] == a[0];
      assert (a + b)[1..] == a[1..] + b;
      StripConcat(a[1..], b);
    }
  }

  /** A character every folding step leaves alone. */
  predicate Plain(c: char) {
    !IsMark(c) && Base(c) == c && LowerChar(c) == c
  }

  /** Diacritic-free, lower-case and trimmed: the shape `FoldKey` produces. */
  predicate Folded(s: string) {
    (forall i | 0 <= i < |s| :: Plain(s[i])) && Trimmed(s)
  }

  /** The folding chain of `normDayKey`: strip diacritics, lower-case, trim. */
  function FoldKey(s: string): string {
    Trim(Lower(StripDiacritics(s)))
  }

  lemma {:induction false} StripOfPlain(s: string)
    requires forall i | 0 <= i < |s| :: Plain(s[i])
    ensures StripDiacritics(s) == s
    decreases |s|
  {
    if s != [] {
      StripOfPlain(s[1..]);
      assert [s[0]] + s[1..] == s;
    }
  }

  lemma LowerOfStripped(x: char)
    requires !IsMark(x) && Base(x) == x
    ensures Plain(LowerChar(x))
  {
  }

  lemma FoldKeyIsFolded(s: string)
    ensures Folded(FoldKey(s))
  {
    var st := StripDiacritics(s);
    var t := Lower(st);
    forall i | 0 <= i < |t|
      ensures Plain(t[i])
    {
      LowerOfStripped(st[i]);
    }
    var k := TrimSlice(t);
    var r := Trim(t);
    forall i | 0 <= i < |r|
      ensures Plain(r[i])
    {
      assert r[i] == t[k + i];
    }
    TrimIsTrimmed(t);
  }

  lemma FoldKeyOfFolded(s: string)
    requires Folded(s)
    ensures FoldKey(s) == s
  {
    StripOfPlain(s);
    var l := Lower(s);
    assert forall i | 0 <= i < |s| :: l[i] == LowerChar(s[i]) == s[i];
    assert l == s;
    TrimOfTrimmed(s);
  }

  /** `normDayKey`: Spanish names (any accents, case or padding) become English keys; other input is returned folded. */
  function NormDayKey(s: string): (r: string)
    ensures Folded(r)
    ensures s == "" ==> r == ""
    ensures FoldKey(s) in ES2EN ==> r == ES2EN[FoldKey(s)] && r in WEEKDAYS_EN
    ensures FoldKey(s) !in ES2EN ==> r == FoldKey(s)
  {
    FoldKeyIsFolded(s);
    if s == "" then EmptyKey(); s else Translate(FoldKey(s))
  }

  /** The empty string folds to itself and is no Spanish name. */
  lemma EmptyKey()
    ensures FoldKey("") == "" && "" !in ES2EN
  {
    assert Lower(StripDiacritics("")) == "";
    assert [] + "" + [] == "";
    TrimOfPadded([], "", []);
  }

  /** The table step of `normDayKey`: `ES2EN[k] ?? k`. */
  function Translate(k: string): (r: string)
    requires Folded(k)
    ensures Folded(r)
    ensures k in ES2EN ==> r == ES2EN[k] && r in WEEKDAYS_EN
    ensures k !in ES2EN ==> r == k
  {
    if k in ES2EN then (SpanishLookup(k); ES2EN[k]) else k
  }

  lemma SpanishLookup(k: string)
    requires k in ES2EN
    ensures ES2EN[k] in WEEKDAYS_EN && Folded(ES2EN[k]) && ES2EN[k] !in ES2EN
  {
    EnglishKeysFolded();
    EnglishNotSpanish();
    var d := ES2EN[k];
    assert d in WEEKDAYS_EN;
  }

  /** No English key is itself a Spanish name, so translating twice changes nothing. */
  lemma EnglishNotSpanish()
    ensures forall d | d in WEEKDAYS_EN :: d !in ES2EN
  {
    forall d | d in WEEKDAYS_EN
      ensures d !in ES2EN
    {
      assert d[0] in "mtwfs";
    }
  }

  // ---------------------------------------------------------------------------
  // Table facts
  // ---------------------------------------------------------------------------

  /** A non-empty word of ASCII lower-case letters. */
  predicate LowerWord(s: string) {
    |s| > 0 && forall i | 0 <= i < |s| :: IsLower(s[i])
  }

  lemma LowerWordFolded(s: string)
    requires LowerWord(s)
    ensures Folded(s)
  {
    assert !IsSpace(s[0]) && !IsSpace(s[|s| - 1]);
  }

  lemma EnglishKeysFolded()
    ensures forall d | d in WEEKDAYS_EN :: Folded(d)
    ensures forall k | k in ES2EN :: ES2EN[k] in WEEKDAYS_EN
  {
    assert forall d | d in WEEKDAYS_EN :: LowerWord(d);
    forall d | d in WEEKDAYS_EN
      ensures Folded(d)
    {
      LowerWordFolded(d);
    }
  }

  lemma PlainNamesFolded()
    ensures forall d | d in EN2ES_PLAIN :: Folded(EN2ES_PLAIN[d])
  {
    assert forall d | d in EN2ES_PLAIN :: LowerWord(EN2ES_PLAIN[d]);
    forall d | d in EN2ES_PLAIN
      ensures Folded(EN2ES_PLAIN[d])
    {
      LowerWordFolded(EN2ES_PLAIN[d]);
    }
  }

  /** The seven English keys are distinct. */
  lemma WeekdaysDistinct()
    ensures |WEEKDAYS_EN| == 7
    ensures forall i, j | 0 <= i < j < |WEEKDAYS_EN| :: WEEKDAYS_EN[i] != WEEKDAYS_EN[j]
  {
  }

  /** Both Spanish tables are defined on exactly the seven English keys. */
  lemma SpanishTablesTotal()
    ensures EN2ES.Keys == set d | d in WEEKDAYS_EN
    ensures EN2ES_PLAIN.Keys == set d | d in WEEKDAYS_EN
  {
  }

  /** No two weekdays share an accented label. */
  lemma AccentedTableInjective()
    ensures forall d, e | d in EN2ES && e in EN2ES && d != e :: EN2ES[d] != EN2ES[e]
  {
  }

  /** No two weekdays share a plain Spanish name. */
  lemma PlainTableInjective()
    ensures forall d, e | d in EN2ES_PLAIN && e in EN2ES_PLAIN && d != e :: EN2ES_PLAIN[d] != EN2ES_PLAIN[e]
  {
  }

  /** Both Spanish spellings of every weekday translate back to the same English key. */
  lemma TablesRoundTrip(d: string)
    requires d in WEEKDAYS_EN
    ensures d in EN2ES && EN2ES[d] in ES2EN && ES2EN[EN2ES[d]] == d
    ensures d in EN2ES_PLAIN && EN2ES_PLAIN[d] in ES2EN && ES2EN[EN2ES_PLAIN[d]] == d
  {
  }

  /** `normDayKey` is idempotent. */
  lemma NormDayKeyIdempotent(s: string)
    ensures NormDayKey(NormDayKey(s)) == NormDayKey(s)
  {
    var r := NormDayKey(s);
    if r != "" {
      FoldKeyOfFolded(r);
      if FoldKey(s) in ES2EN {
        SpanishLookup(FoldKey(s));
      } else {
        assert FoldKey(r) == r;
      }
    }
  }

  /** A name spelled with any letter case and accents (no loose marks), padded with any whitespace. */
  predicate SpelledAs(v: string, w: string) {
    |v| == |w| && forall i | 0 <= i < |v| :: !IsMark(v[i]) && LowerChar(Base(v[i])) == w[i]
  }

  lemma {:induction false} FoldOfSpelled(v: string, w: string)
    requires SpelledAs(v, w)
    ensures Lower(StripDiacritics(v)) == w
    decreases |v|
  {
    if v != [] {
      assert SpelledAs(v[1..], w[1..]);
      FoldOfSpelled(v[1..], w[1..]);
      assert StripDiacritics(v) == [Base(v[0])] + StripDiacritics(v[1..]);
      LowerCons(Base(v[0]), StripDiacritics(v[1..]));
      assert [w[0]] + w[1..] == w;
    }
  }

  lemma {:induction false} StripOfSpace(a: string)
    requires AllSpace(a)
    ensures Lower(StripDiacritics(a)) == a
    decreases |a|
  {
    if a != [] {
      SpaceIsPlain(a[0]);
      StripOfSpace(a[1..]);
      assert StripDiacritics(a) == [a[0]] + StripDiacritics(a[1..]);
      LowerCons(a[0], StripDiacritics(a[1..]));
      assert [a[0]] + a[1..] == a;
    }
  }

  /** Folding leaves whitespace alone. */
  lemma SpaceIsPlain(c: char)
    requires IsSpace(c)
    ensures Plain(c)
  {
  }

  lemma LowerCons(c: char, t: string)
    ensures Lower([c] + t) == [LowerChar(c)] + Lower(t)
  {
  }

  lemma LowerConcat(a: string, b: string)
    ensures Lower(a + b) == Lower(a) + Lower(b)
  {
  }

  /**
    Every weekday, written as its English key or as its Spanish name (plain or
    accented, any letter case, any surrounding whitespace), normalises to its
    English key.
   */
  lemma DaySpellingsNormalise(d: string, w: string, a: string, v: string, c: string)
    requires d in WEEKDAYS_EN
    requires w == d || w == EN2ES_PLAIN[d]
    requires AllSpace(a) && AllSpace(c) && SpelledAs(v, w)
    ensures NormDayKey(a + v + c) == d
  {
    WeekdaySpelling(d, w);
    var s := a + v + c;
    StripConcat(a + v, c);
    StripConcat(a, v);
    LowerConcat(StripDiacritics(a) + StripDiacritics(v), StripDiacritics(c));
    LowerConcat(StripDiacritics(a), StripDiacritics(v));
    StripOfSpace(a);
    StripOfSpace(c);
    FoldOfSpelled(v, w);
    assert Lower(StripDiacritics(s)) == a + w + c;
    TrimOfPadded(a, w, c);
    assert FoldKey(s) == w;
    assert s != "";
  }

  lemma WeekdaySpelling(d: string, w: string)
    requires d in WEEKDAYS_EN
    requires w == d || w == EN2ES_PLAIN[d]
    ensures Folded(w) && |w| > 0
    ensures w in ES2EN ==> ES2EN[w] == d
    ensures w !in ES2EN ==> w == d
  {
    EnglishKeysFolded();
    PlainNamesFolded();
    TablesRoundTrip(d);
    if w == d {
      SpanishLookup(EN2ES_PLAIN[d]);
    }
  }
  // ---------------------------------------------------------------------------
  // Monday..Sunday order
  // ---------------------------------------------------------------------------

  /** Position of a key in the week (7 when it is not a key). */
  function WeekKey(d: string): nat {
    IndexOf(WEEKDAYS_EN, d)
  }

  /** English keys only, strictly in week order (hence without repeats). */
  predicate WeekOrdered(r: seq<string>) {
    && (forall i | 0 <= i < |r| :: r[i] in WEEKDAYS_EN)
    && (forall i, j | 0 <= i < j < |r| :: WeekKey(r[i]) < WeekKey(r[j]))
  }

  lemma WeekKeys()
    ensures forall i | 0 <= i < |WEEKDAYS_EN| :: WeekKey(WEEKDAYS_EN[i]) == i
  {
    WeekdaysDistinct();
    forall i | 0 <= i < |WEEKDAYS_EN|
      ensures WeekKey(WEEKDAYS_EN[i]) == i
    {
      IndexOfDistinct(WEEKDAYS_EN, i);
    }
  }

  /** `WEEKDAYS_EN.filter(p)`: the keys satisfying `p`, in week order. */
  function DaysWhere(p: string -> bool): (r: seq<string>)
    ensures WeekOrdered(r)
    ensures forall i, j | 0 <= i < j < |r| :: r[i] != r[j]
    ensures forall d :: d in r <==> d in WEEKDAYS_EN && p(d)
  {
    var r := Filter(p, WEEKDAYS_EN);
    WeekRanked();
    FilteredDays(p, WEEKDAYS_EN, r);
    r
  }

  /** A filtered list of week keys in week order keeps week order and holds exactly the keys satisfying `p`. */
  lemma FilteredDays(p: string -> bool, w: seq<string>, r: seq<string>)
    requires WeekOrdered(w) && r == Filter(p, w)
    ensures WeekOrdered(r)
    ensures forall i, j | 0 <= i < j < |r| :: r[i] != r[j]
    ensures forall d :: d in r <==> d in w && p(d)
  {
    var key: string -> int := d => WeekKey(d);
    assert forall i, j | 0 <= i < j < |w| :: key(w[i]) < key(w[j]);
    FilterRanked(p, w, key, r);
    forall i, j | 0 <= i < j < |r|
      ensures WeekKey(r[i]) < WeekKey(r[j])
    {
      assert key(r[i]) < key(r[j]);
    }
    forall i | 0 <= i < |r|
      ensures r[i] in WEEKDAYS_EN
    {
      assert r[i] in r;
      var k :| 0 <= k < |w| && w[k] == r[i];
    }
  }

  /** The week itself is in week order. */
  lemma WeekRanked()
    ensures WeekOrdered(WEEKDAYS_EN)
  {
    WeekKeys();
  }

  /** Week order fixes a list of keys by its members. */
  lemma WeekOrderedUnique(a: seq<string>, b: seq<string>)
    requires WeekOrdered(a) && WeekOrdered(b)
    requires forall d :: d in a <==> d in b
    ensures a == b
  {
    var key: string -> int := d => WeekKey(d);
    RankedUnique(a, b, key);
  }
}
