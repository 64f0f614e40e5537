/**
  Clock times written as `"HH:MM"` (pages/availability/availability-manage.component.ts
  and core/utils/time.ts): the `/^\d{2}:\d{2}$/` shape, the `toMin` reading
  and the `toHHmm` rendering, and how JavaScript orders such strings.
 */
module HourMinute {
  import opened Wrappers
  import opened Text

  /** `/^\d{2}:\d{2}$/`: two digit fields around one colon. */
  predicate IsHHMM(s: string) {
    |s| == 5 && IsDigit(s[0]) && IsDigit(s[1]) && s[2] == ':' && IsDigit(s[3]) && IsDigit(s[4])
  }

  function HourField(s: string): nat
    requires IsHHMM(s)
  {
    DecValue(s[..2])
  }

  function MinuteField(s: string): nat
    requires IsHHMM(s)
  {
    DecValue(s[3..])
  }

  /** The minute of the day an `HH:MM` string denotes. */
  function Minutes(s: string): nat
    requires IsHHMM(s)
  {
    60 * HourField(s) + MinuteField(s)
  }

  /**
    `Number(s)` on the forms that give a non-negative integer: whitespace at
    either end is ignored, blank text is 0, and the digits may carry a
    leading `+`. Every other text is `None`, standing for NaN; that includes
    the negative, fractional, exponent and hexadecimal forms `Number` reads.
   */
  function NumberOf(s: string): (r: Option<nat>)
    ensures AllDigits(s) ==> r == Some(DecValue(s))
    decreases |s|
  {
    if s != [] && IsSpace(s[0]) then NumberOf(s[1..])
    else if s != [] && IsSpace(s[|s| - 1]) then NumberOf(s[..|s| - 1])
    else if AllDigits(s) then Some(DecValue(s))
    else if |s| >= 2 && s[0] == '+' && AllDigits(s[1..]) then Some(DecValue(s[1..]))
    else None
  }

  /** Padding a run of digits (with or without `+`) with whitespace does not change the number read. */
  lemma NumberOfPadded(a: string, sign: string, d: string, b: string)
    requires AllSpace(a) && AllSpace(b) && AllDigits(d) && d != []
    requires sign == "" || sign == "+"
    ensures NumberOf(a + (sign + d) + b) == Some(DecValue(d))
  {
    var m := sign + d;
    assert a + m + b == a + (m + b);
    NumberOfSkipsLeading(a, m + b);
    assert (m + b)[0] == m[0];
    NumberOfSkipsTrailing(m, b);
    NumberOfSigned(sign, d);
  }

  lemma {:induction false} NumberOfSkipsLeading(a: string, t: string)
    requires AllSpace(a)
    ensures NumberOf(a + t) == NumberOf(t)
  {
    if a != [] {
      assert a + t == [a[0]] + (a[1..] + t);
      NumberOfSkipsLeading(a[1..], t);
      NumberOfLeadingSpace(a[0], a[1..] + t);
    } else {
      assert a + t == t;
    }
  }

  lemma {:induction false} NumberOfSkipsTrailing(t: string, b: string)
    requires AllSpace(b) && t != [] && !IsSpace(t[0])
    ensures NumberOf(t + b) == NumberOf(t)
  {
    if b != [] {
      var b' := b[..|b| - 1];
      assert t + b == (t + b') + [b[|b| - 1]];
      NumberOfSkipsTrailing(t, b');
      assert (t + b')[0] == t[0];
      NumberOfTrailingSpace(t + b', b[|b| - 1]);
    } else {
      assert t + b == t;
    }
  }

  lemma NumberOfLeadingSpace(c: char, t: string)
    requires IsSpace(c)
    ensures NumberOf([c] + t) == NumberOf(t)
  {
    assert ([c] + t)[1..] == t;
  }

  lemma NumberOfTrailingSpace(t: string, c: char)
    requires IsSpace(c) && t != [] && !IsSpace(t[0])
    ensures NumberOf(t + [c]) == NumberOf(t)
  {
    assert (t + [c])[0] == t[0];
    assert (t + [c])[..|t|] == t;
  }

  lemma NumberOfSigned(sign: string, d: string)
    requires AllDigits(d) && d != []
    requires sign == "" || sign == "+"
    ensures NumberOf(sign + d) == Some(DecValue(d))
  {
    var m := sign + d;
    assert m[|m| - 1] == d[|d| - 1];
    if sign == "+" {
      assert m[0] == '+' && m[1..] == d;
    } else {
      assert m == d;
    }
  }

  /**
    `toMin`: `split(':').map(Number)` then `h * 60 + m`; `None` stands for
    NaN. Text without a colon leaves the minutes `undefined`, so NaN.
   */
  function ToMin(hhmm: string): (r: Option<nat>)
    ensures ':' !in hhmm ==> r.None?
  {
    OneFieldWithoutColon(hhmm);
    ReadFields(Split(hhmm, ':'))
  }

  lemma OneFieldWithoutColon(s: string)
    ensures ':' !in s ==> |Split(s, ':')| == 1
  {
    if ':' !in s {
      SplitNoSep(s, ':');
    }
  }

  /** `const [h, m] = parts.map(Number)` then `h * 60 + m`; extra fields are ignored. */
  function ReadFields(parts: seq<string>): (r: Option<nat>)
    ensures |parts| < 2 ==> r.None?
    ensures |parts| >= 2 && AllDigits(parts[0]) && AllDigits(parts[1]) ==> r == Some(DecValue(parts[0]) * 60 + DecValue(parts[1]))
  {
    if |parts| < 2 then None else HoursMinutes(NumberOf(parts[0]), NumberOf(parts[1]))
  }

  /** The two fields `split(':')` finds in a well-formed `HH:MM`, and the numbers they read as. */
  lemma HHMMFields(s: string)
    requires IsHHMM(s)
    ensures Split(s, ':') == [s[..2], s[3..]]
    ensures NumberOf(s[..2]) == Some(HourField(s)) && NumberOf(s[3..]) == Some(MinuteField(s))
  {
    SplitHHMM(s);
  }

  /** `toMin` reads a well-formed `HH:MM` as hours times sixty plus minutes. */
  lemma ToMinOfHHMM(s: string)
    requires IsHHMM(s)
    ensures ToMin(s) == Some(Minutes(s))
  {
    HHMMFields(s);
    ToMinOfParts(s, s[..2], s[3..]);
  }

  /** `h * 60 + m`, NaN when either side is. */
  function HoursMinutes(h: Option<nat>, m: Option<nat>): (r: Option<nat>)
    ensures r.Some? <==> h.Some? && m.Some?
    ensures r.Some? ==> r.value == h.value * 60 + m.value
  {
    if h.Some? && m.Some? then Some(h.value * 60 + m.value) else None
  }

  /** `toHHmm`: hours and minutes, each `padStart(2, '0')`; the minutes are always the last two characters, after the colon. */
  function ToHHmm(m: nat): (r: string)
    ensures |r| >= 5 && r[|r| - 3] == ':' && r[|r| - 2..] == Pad2(m % 60)
  {
    Pad2Digits(m % 60);
    Pad2(m / 60) + ":" + Pad2(m % 60)
  }

  lemma SplitHHMM(s: string)
    requires IsHHMM(s)
    ensures Split(s, ':') == [s[..2], s[3..]]
  {
    assert s == s[..2] + [':'] + s[3..];
    SplitAfterHead(s[..2], ':', s[3..]);
    SplitNoSep(s[3..], ':');
  }

  /** `toMin(toHHmm(m)) = m` for every minute count, not only those below 100 hours. */
  lemma ToMinOfToHHmm(m: nat)
    ensures ToMin(ToHHmm(m)) == Some(m)
  {
    var h, mm := Pad2(m / 60), Pad2(m % 60);
    Pad2Digits(m / 60);
    Pad2Digits(m % 60);
    ToMinOfJoined(ToHHmm(m), h, mm, m);
  }

  lemma ToMinOfJoined(r: string, h: string, mm: string, m: nat)
    requires r == h + ":" + mm && AllDigits(h) && AllDigits(mm)
    requires DecValue(h) * 60 + DecValue(mm) == m
    ensures ToMin(r) == Some(m)
  {
    ToMinOfDigits(h, mm);
  }

  /** Two runs of digits around one colon read as hours and minutes. */
  lemma ToMinOfDigits(x: string, y: string)
    requires AllDigits(x) && AllDigits(y)
    ensures ToMin(x + ":" + y) == Some(DecValue(x) * 60 + DecValue(y))
  {
    PartsOfDigits(x, y);
    ToMinOfParts(x + ":" + y, x, y);
  }

  /** `toMin` of a string that splits into two runs of digits. */
  lemma ToMinOfParts(h: string, x: string, y: string)
    requires Split(h, ':') == [x, y] && AllDigits(x) && AllDigits(y)
    ensures ToMin(h) == Some(DecValue(x) * 60 + DecValue(y))
  {
    assert ToMin(h) == ReadFields([x, y]);
  }

  lemma PartsOfDigits(x: string, y: string)
    requires AllDigits(x) && AllDigits(y)
    ensures Split(x + ":" + y, ':') == [x, y]
  {
    assert ':' !in x && ':' !in y by {
      assert forall i | 0 <= i < |x| :: IsDigit(x[i]);
      assert forall i | 0 <= i < |y| :: IsDigit(y[i]);
    }
    assert x + ":" + y == x + [':'] + y;
    SplitAfterHead(x, ':', y);
    SplitNoSep(y, ':');
  }

  /** `toHHmm` produces a well-formed `HH:MM` exactly below 100 hours; its minute field is below 60. */
  lemma ToHHmmShape(m: nat)
    ensures IsHHMM(ToHHmm(m)) <==> m < 6000
    ensures m < 6000 ==> Minutes(ToHHmm(m)) == m && MinuteField(ToHHmm(m)) < 60
  {
    var h, mm := Pad2(m / 60), Pad2(m % 60);
    Pad2Digits(m / 60);
    Pad2Digits(m % 60);
    var r := ToHHmm(m);
    assert r == h + [':'] + mm;
    if m < 6000 {
      assert r[..2] == h && r[3..] == mm;
    } else {
      assert |NatToDec(m / 60)| >= 3;
    }
  }

  /** `toHHmm(toMin(s)) = s` for zero-padded `HH:MM` with minutes below 60. */
  lemma ToHHmmOfToMin(s: string)
    requires IsHHMM(s) && MinuteField(s) < 60
    ensures ToHHmm(Minutes(s)) == s
  {
    var m := Minutes(s);
    assert m / 60 == HourField(s) && m % 60 == MinuteField(s);
    TwoDigitsRoundTrip(s[..2]);
    TwoDigitsRoundTrip(s[3..]);
    assert s == s[..2] + ":" + s[3..];
  }

  /** For `HH:MM` strings with minutes below 60, JavaScript's string `<=` is the order of the minutes they denote. */
  lemma HHMMOrder(e: string, s: string)
    requires IsHHMM(e) && IsHHMM(s) && MinuteField(e) < 60 && MinuteField(s) < 60
    ensures StrLessEq(e, s) <==> Minutes(e) <= Minutes(s)
  {
    MinutesOfDigits(e);
    MinutesOfDigits(s);
    HHMMStrLess(e, s);
    LexOrder(
      DigitValue(e[0]), DigitValue(e[1]), DigitValue(e[3]), DigitValue(e[4]),
      DigitValue(s[0]), DigitValue(s[1]), DigitValue(s[3]), DigitValue(s[4]));
    if Minutes(e) == Minutes(s) {
      SameDigits(e, s);
    }
  }

  /**
    With the tens of minutes at most 5, reading the digits as one number and
    as minutes orders them the same way.
   */
  lemma LexOrder(a0: nat, a1: nat, a3: nat, a4: nat, b0: nat, b1: nat, b3: nat, b4: nat)
    requires a0 < 10 && a1 < 10 && a3 <= 5 && a4 < 10
    requires b0 < 10 && b1 < 10 && b3 <= 5 && b4 < 10
    ensures 1000 * a0 + 100 * a1 + 10 * a3 + a4 < 1000 * b0 + 100 * b1 + 10 * b3 + b4
      <==> 600 * a0 + 60 * a1 + 10 * a3 + a4 < 600 * b0 + 60 * b1 + 10 * b3 + b4
  {
    if a0 != b0 {
      assert a0 < b0 <==> 600 * a0 + 60 * a1 + 10 * a3 + a4 < 600 * b0 + 60 * b1 + 10 * b3 + b4;
    } else if a1 != b1 {
      assert a1 < b1 <==> 60 * a1 + 10 * a3 + a4 < 60 * b1 + 10 * b3 + b4;
    }
  }

  /** The four digits of an `HH:MM` string read as one number, ignoring the colon. */
  function Digits4(x: string): nat
    requires IsHHMM(x)
  {
    1000 * DigitValue(x[0]) + 100 * DigitValue(x[1]) + 10 * DigitValue(x[3]) + DigitValue(x[4])
  }

  lemma MinutesOfDigits(x: string)
    requires IsHHMM(x)
    ensures Minutes(x) == 600 * DigitValue(x[0]) + 60 * DigitValue(x[1]) + 10 * DigitValue(x[3]) + DigitValue(x[4])
    ensures MinuteField(x) == 10 * DigitValue(x[3]) + DigitValue(x[4])
  {
    DecValueTwo(x[..2]);
    DecValueTwo(x[3..]);
  }

  /** Two `HH:MM` strings compare character by character, which is the order of their digits. */
  lemma HHMMStrLess(e: string, s: string)
    requires IsHHMM(e) && IsHHMM(s)
    ensures StrLess(e, s) <==> Digits4(e) < Digits4(s)
  {
    var e0, e1, e3, e4 := DigitValue(e[0]), DigitValue(e[1]), DigitValue(e[3]), DigitValue(e[4]);
    var s0, s1, s3, s4 := DigitValue(s[0]), DigitValue(s[1]), DigitValue(s[3]), DigitValue(s[4]);
    assert e[1..][1..] == e[2..] && s[1..][1..] == s[2..];
    assert e[2..][1..] == e[3..] && s[2..][1..] == s[3..];
    assert e[3..][1..] == e[4..] && s[3..][1..] == s[4..];
    assert e[4..][1..] == [] && s[4..][1..] == [];
    assert StrLess(e[4..], s[4..]) <==> e4 < s4;
    assert StrLess(e[3..], s[3..]) <==> e3 < s3 || (e3 == s3 && e4 < s4);
    assert StrLess(e[2..], s[2..]) <==> StrLess(e[3..], s[3..]);
    assert StrLess(e[1..], s[1..]) <==> e1 < s1 || (e1 == s1 && StrLess(e[2..], s[2..]));
    assert StrLess(e, s) <==> e0 < s0 || (e0 == s0 && StrLess(e[1..], s[1..]));
  }

  /** Equal minutes with minute fields below 60 mean equal strings. */
  lemma SameDigits(e: string, s: string)
    requires IsHHMM(e) && IsHHMM(s) && MinuteField(e) < 60 && MinuteField(s) < 60
    requires Minutes(e) == Minutes(s)
    ensures e == s
  {
    MinutesOfDigits(e);
    MinutesOfDigits(s);
    assert DigitValue(e[3]) <= 5 && DigitValue(s[3]) <= 5;
    assert DigitValue(e[0]) == DigitValue(s[0]) && DigitValue(e[1]) == DigitValue(s[1]);
    assert DigitValue(e[3]) == DigitValue(s[3]) && DigitValue(e[4]) == DigitValue(s[4]);
    assert forall i | 0 <= i < 5 :: e[i] == s[i];
  }
}
