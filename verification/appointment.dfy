/**
  Time and summary helpers of the booking page
  (pages/appointment/appointment.component.ts): rounding the clock up to the
  next quarter hour, choosing the earliest selectable time, the empty-input
  guard of `isFuture`, the psychologist chip and the date preview.

  The clock is a parameter: the current hour and minute, and, for `isFuture`,
  the outcome of comparing the chosen moment with `Date.now()`.
 */
module Appointment {
  import opened Wrappers
  import opened Text
  import opened HourMinute

  // ---------------------------------------------------------------------------
  // nextQuarter
  // ---------------------------------------------------------------------------

  const QUARTERS: seq<nat> := [0, 15, 30, 45]

  /** `qs.find(q => q > m)`. */
  function FirstAbove(qs: seq<nat>, m: nat): (r: Option<nat>)
    ensures r.Some? ==> r.value in qs && r.value > m
    ensures r.None? <==> forall i | 0 <= i < |qs| :: qs[i] <= m
    ensures r.Some? ==> exists i | 0 <= i < |qs| :: qs[i] == r.value && forall j | 0 <= j < i :: qs[j] <= m
    decreases |qs|
  {
    if qs == [] then None
    else if qs[0] > m then Some(qs[0])
    else
      var r := FirstAbove(qs[1..], m);
      if r.Some? then
        var i :| 0 <= i < |qs[1..]| && qs[1..][i] == r.value && forall j | 0 <= j < i :: qs[1..][j] <= m;
        assert qs[i + 1] == r.value;
        r
      else r
  }

  /** A clock reading rendered as `HH:MM`, each part `padStart(2, '0')`. */
  function Clock(h: nat, q: nat): string {
    Pad2(h) + ":" + Pad2(q)
  }

  /**
    `nextQuarter(now)` for a clock showing `h:m`: the first of 0, 15, 30, 45
    above `m` in the same hour, otherwise minute 0 of the next hour, where
    hour 24 is hour 0 of the next day.
   */
  function NextQuarter(h: nat, m: nat): (r: string)
    requires h < 24 && m < 60
    ensures IsHHMM(r) && HourField(r) < 24 && MinuteField(r) in QUARTERS
    ensures MinuteField(r) > m || (MinuteField(r) == 0 && HourField(r) == (h + 1) % 24)
  {
    match FirstAbove(QUARTERS, m)
    case Some(q) =>
      ClockShape(h, q);
      Clock(h, q)
    case None =>
      ClockShape((h + 1) % 24, 0);
      Clock((h + 1) % 24, 0)
  }

  /** The quarter `find` picks is the multiple of 15 just above `m`, if any is below 60. */
  lemma QuarterJump(m: nat)
    requires m < 60
    ensures FirstAbove(QUARTERS, m) == if m < 45 then Some((m / 15 + 1) * 15) else None
  {
    var t1: seq<nat> := [15, 30, 45];
    var t2: seq<nat> := [30, 45];
    var t3: seq<nat> := [45];
    assert QUARTERS == [0] + t1 && t1 == [15] + t2 && t2 == [30] + t3 && t3 == [45] + [];
    FirstAboveCons(0, t1, m);
    QuarterOf(m);
    if m < 15 {
      FirstAboveCons(15, t2, m);
    } else if m < 30 {
      FirstAboveCons(15, t2, m);
      FirstAboveCons(30, t3, m);
    } else {
      FirstAboveCons(15, t2, m);
      FirstAboveCons(30, t3, m);
      FirstAboveCons(45, [], m);
    }
  }

  /** The next quarter mark after minute `m`, by the quarter `m` falls in. */
  lemma QuarterOf(m: nat)
    requires m < 60
    ensures m < 15 ==> (m / 15 + 1) * 15 == 15
    ensures 15 <= m < 30 ==> (m / 15 + 1) * 15 == 30
    ensures 30 <= m < 45 ==> (m / 15 + 1) * 15 == 45
  {
    if m < 15 {
      assert m / 15 == 0;
    } else if m < 30 {
      assert m / 15 == 1;
    } else if m < 45 {
      assert m / 15 == 2;
    }
  }

  /** One step of the search: the head when it is above `m`, otherwise the search in the tail. */
  lemma FirstAboveCons(q: nat, t: seq<nat>, m: nat)
    ensures FirstAbove([q] + t, m) == if q > m then Some(q) else FirstAbove(t, m)
  {
    assert ([q] + t)[0] == q && ([q] + t)[1..] == t;
  }

  /** A clock reading below 24 hours is a well-formed `HH:MM` with those fields. */
  lemma ClockShape(h: nat, q: nat)
    requires h < 24 && q < 60
    ensures IsHHMM(Clock(h, q)) && HourField(Clock(h, q)) == h && MinuteField(Clock(h, q)) == q
    ensures Minutes(Clock(h, q)) == 60 * h + q
  {
    Pad2Digits(h);
    Pad2Digits(q);
    var c := Clock(h, q);
    assert c[..2] == Pad2(h) && c[3..] == Pad2(q);
  }

  /** `nextQuarter` by cases: the next quarter of this hour, or the next hour. */
  lemma NextQuarterCases(h: nat, m: nat)
    requires h < 24 && m < 60
    ensures NextQuarter(h, m) == if m < 45 then Clock(h, (m / 15 + 1) * 15) else Clock((h + 1) % 24, 0)
  {
    QuarterJump(m);
  }

  /** The ceiling arithmetic, by the same cases. */
  lemma CeilingCases(h: nat, m: nat)
    requires h < 24 && m < 60
    ensures ((60 * h + m) / 15 + 1) * 15 % 1440
      == if m < 45 then 60 * h + (m / 15 + 1) * 15 else 60 * ((h + 1) % 24)
  {
    assert 60 * h + m == 15 * (4 * h + m / 15) + m % 15;
    var next := ((60 * h + m) / 15 + 1) * 15;
    assert next == 60 * h + (m / 15 + 1) * 15;
    if m >= 45 {
      assert next == 60 * (h + 1);
    }
  }

  /**
    Independent reference: the result names the first multiple of 15 minutes
    strictly after the current minute, taken modulo one day (which
    `CeilingGap` places 1 to 15 minutes ahead).
   */
  lemma NextQuarterIsCeiling(h: nat, m: nat)
    requires h < 24 && m < 60
    ensures IsHHMM(NextQuarter(h, m))
    ensures Minutes(NextQuarter(h, m)) == ((60 * h + m) / 15 + 1) * 15 % 1440
  {
    NextQuarterCases(h, m);
    CeilingCases(h, m);
    if m < 45 {
      ClockShape(h, (m / 15 + 1) * 15);
    } else {
      ClockShape((h + 1) % 24, 0);
    }
  }

  /**
    The next multiple of 15 after minute `now`, modulo a day, is strictly
    later than `now` and at most 15 minutes later, counting across midnight.
   */
  lemma CeilingGap(now: nat, next: nat)
    requires now < 1440
    requires next == (now / 15 + 1) * 15 % 1440
    ensures 1 <= (next - now + 1440) % 1440 <= 15
  {
    var c := (now / 15 + 1) * 15;
    assert now < c <= now + 15 by {
      assert now == 15 * (now / 15) + now % 15;
    }
    if c < 1440 {
      assert next == c;
      assert (next - now + 1440) % 1440 == c - now;
    } else {
      assert c == 1440 && next == 0;
      assert (next - now + 1440) % 1440 == 1440 - now;
    }
  }

  /** From minute 45 on, the result is the next full hour; 23:45..23:59 wrap to `"00:00"`. */
  lemma NextQuarterRollsOver(h: nat, m: nat)
    requires h < 24 && 45 <= m < 60
    ensures NextQuarter(h, m) == Clock((h + 1) % 24, 0)
    ensures h == 23 ==> NextQuarter(h, m) == "00:00"
  {
    QuarterJump(m);
    assert Pad2(0) == "00";
  }

  // ---------------------------------------------------------------------------
  // isFuture and updateMinTime
  // ---------------------------------------------------------------------------

  /**
    `isFuture(dateStr, timeStr)`: `later` is the comparison of the assembled
    local moment with `Date.now()`, which the model does not compute.
   */
  function IsFuture(dateStr: string, timeStr: string, later: bool): (r: bool)
    ensures dateStr == "" || timeStr == "" ==> !r
    ensures dateStr != "" && timeStr != "" ==> r == later
  {
    if dateStr == "" || timeStr == "" then false else later
  }

  /** The two fields `updateMinTime` writes: the earliest time offered and the chosen time. */
  datatype TimeFields = TimeFields(minTime: string, time: string)

  /**
    `updateMinTime`: on today's date the minimum becomes the next quarter and
    a chosen time that is not in the future is raised to it; on any other
    date the minimum is `"00:00"`. `later(t)` tells whether time `t` on the
    selected date is after now.
   */
  function UpdateMinTime(date: string, today: string, time: string, h: nat, m: nat, later: string -> bool): (r: TimeFields)
    requires h < 24 && m < 60
    ensures date != today ==> r == TimeFields("00:00", time)
    ensures date == today ==> r.minTime == NextQuarter(h, m)
    ensures date == today && time != "" && !IsFuture(date, time, later(time)) ==> r.time == r.minTime
    ensures date == today && (time == "" || IsFuture(date, time, later(time))) ==> r.time == time
  {
    if date == today then
      var minTime := NextQuarter(h, m);
      if time != "" && !IsFuture(date, time, later(time)) then TimeFields(minTime, minTime)
      else TimeFields(minTime, time)
    else TimeFields("00:00", time)
  }

  /**
    Re-running `updateMinTime` with the same clock changes nothing once the
    next quarter counts as future, which it is whenever the date is non-empty.
   */
  lemma UpdateMinTimeStable(date: string, today: string, time: string, h: nat, m: nat, later: string -> bool)
    requires h < 24 && m < 60
    requires later(NextQuarter(h, m))
    ensures var r := UpdateMinTime(date, today, time, h, m, later);
      date != "" ==> UpdateMinTime(date, today, r.time, h, m, later) == r
  {
  }

  /** After `updateMinTime` on today's date, the chosen time is empty, in the future, or the minimum. */
  lemma UpdateMinTimeNeverPast(date: string, today: string, time: string, h: nat, m: nat, later: string -> bool)
    requires h < 24 && m < 60
    requires date == today
    ensures var r := UpdateMinTime(date, today, time, h, m, later);
      r.time == "" || IsFuture(date, r.time, later(r.time)) || r.time == r.minTime
  {
  }

  // ---------------------------------------------------------------------------
  // psychName
  // ---------------------------------------------------------------------------

  /** A psychologist entry of the loaded list; `_id` may be absent. */
  datatype Psych = Psych(id: Option<string>, name: string)

  const ANY_PSYCH := "Cualquiera"

  /** `list.find(x => x?._id === id)`, as the index of the first match. */
  function FindPsych(ps: seq<Psych>, id: string): (r: Option<nat>)
    ensures r.Some? ==> r.value < |ps| && ps[r.value].id == Some(id)
    ensures r.Some? ==> forall j | 0 <= j < r.value :: ps[j].id != Some(id)
    ensures r.None? <==> forall j | 0 <= j < |ps| :: ps[j].id != Some(id)
    decreases |ps|
  {
    if ps == [] then None
    else if ps[0].id == Some(id) then Some(0)
    else
      var r := FindPsych(ps[1..], id);
      if r.Some? then Some(r.value + 1) else None
  }

  /** `psychName`: the selected psychologist's name, or "Cualquiera" when none matches or the name is empty. */
  function PsychName(selected: Option<string>, ps: seq<Psych>): (r: string)
    ensures FindPsych(ps, selected.GetOr("")).None? ==> r == ANY_PSYCH
    ensures FindPsych(ps, selected.GetOr("")).Some? ==>
      var p := ps[FindPsych(ps, selected.GetOr("")).value];
      r == if p.name == "" then ANY_PSYCH else p.name
  {
    match FindPsych(ps, selected.GetOr(""))
    case None => ANY_PSYCH
    case Some(k) => if ps[k].name == "" then ANY_PSYCH else ps[k].name
  }

  /** With distinct ids, the chip shows the name of the entry whose id was selected. */
  lemma PsychNameOfUnique(ps: seq<Psych>, k: nat, id: string)
    requires k < |ps| && ps[k].id == Some(id) && ps[k].name != ""
    requires forall i, j | 0 <= i < j < |ps| :: ps[i].id.Some? ==> ps[i].id != ps[j].id
    ensures PsychName(Some(id), ps) == ps[k].name
  {
    var f := FindPsych(ps, id);
    assert f.Some?;
    assert f.value == k;
  }

  /** No selection (or an empty one) matches no entry that has an id other than the empty string. */
  lemma PsychNameNoSelection(ps: seq<Psych>)
    requires forall i | 0 <= i < |ps| :: ps[i].id != Some("")
    ensures PsychName(None, ps) == ANY_PSYCH && PsychName(Some(""), ps) == ANY_PSYCH
  {
  }

  // ---------------------------------------------------------------------------
  // previewDate
  // ---------------------------------------------------------------------------

  /** A destructured array element: missing entries interpolate as `"undefined"`. */
  function PartOr(parts: seq<string>, i: nat): string {
    if i < |parts| then parts[i] else "undefined"
  }

  /** `previewDate`: `''` for an empty date, else the `-`-separated parts reordered as `D/M/Y`. */
  function PreviewDate(d: string): (r: string)
    ensures d == "" ==> r == ""
  {
    if d == "" then ""
    else
      var parts := Split(d, '-');
      PartOr(parts, 2) + "/" + PartOr(parts, 1) + "/" + PartOr(parts, 0)
  }

  /** `YYYY-MM-DD` previews as `DD/MM/YYYY`. */
  lemma PreviewDateOfIso(y: string, mo: string, dd: string)
    requires '-' !in y && '-' !in mo && '-' !in dd
    ensures PreviewDate(y + "-" + mo + "-" + dd) == dd + "/" + mo + "/" + y
  {
    var s := y + "-" + mo + "-" + dd;
    assert s == y + ['-'] + (mo + ['-'] + dd);
    SplitAfterHead(y, '-', mo + ['-'] + dd);
    SplitAfterHead(mo, '-', dd);
    SplitNoSep(dd, '-');
  }

  /** The preview can be read back: splitting on `/` and reversing recovers the date. */
  lemma PreviewDateRoundTrip(y: string, mo: string, dd: string)
    requires '-' !in y && '-' !in mo && '-' !in dd
    requires '/' !in y && '/' !in mo && '/' !in dd
    ensures var parts := Split(PreviewDate(y + "-" + mo + "-" + dd), '/');
      |parts| == 3 && parts[2] + "-" + parts[1] + "-" + parts[0] == y + "-" + mo + "-" + dd
  {
    PreviewDateOfIso(y, mo, dd);
    var p := dd + "/" + mo + "/" + y;
    assert p == dd + ['/'] + (mo + ['/'] + y);
    SplitAfterHead(dd, '/', mo + ['/'] + y);
    SplitAfterHead(mo, '/', y);
    SplitNoSep(y, '/');
  }

  /** A date without dashes fills the missing parts with `"undefined"`. */
  lemma PreviewDateUndashed(d: string)
    requires d != "" && '-' !in d
    ensures PreviewDate(d) == "undefined/undefined/" + d
  {
    SplitNoSep(d, '-');
  }
}
