/**
  Shared time helpers (core/utils/time.ts): the Spanish day list, the hour
  options of the booking form, and the `±HH:MM` offset suffix of
  `toLocalISO`. The date parts of `toLocalISO` read the runtime clock and
  time zone, so only the suffix is modelled, with the offset as a parameter.
 */
module TimeUtils {
  import opened Wrappers
  import opened Text
  import opened DayUtils
  import opened HourMinute

  datatype DayOption = DayOption(key: string, title: string)

  /** The day list in Monday..Sunday order, keyed by the plain Spanish name. */
  const DAYS_ES: seq<DayOption> := [
    DayOption("lunes", "Lunes"),
    DayOption("martes", "Martes"),
    DayOption("miercoles", "Miércoles"),
    DayOption("jueves", "Jueves"),
    DayOption("viernes", "Viernes"),
    DayOption("sabado", "Sábado"),
    DayOption("domingo", "Domingo")]

  /** Upper-cases the first character. */
  function Capitalised(s: string): (r: string)
    ensures |r| == |s|
  {
    if s == [] then s else [UpperChar(s[0])] + s[1..]
  }

  /** The keys of `DAYS_ES` are the backend's plain names, in week order. */
  lemma DaysEsKeys()
    ensures |DAYS_ES| == |WEEKDAYS_EN|
    ensures forall i | 0 <= i < |DAYS_ES| :: DAYS_ES[i].key == EN2ES_PLAIN[WEEKDAYS_EN[i]]
  {
  }

  /** The labels (`label`) of `DAYS_ES` are the accented display names with a capital initial. */
  lemma DaysEsLabels()
    ensures forall i | 0 <= i < |DAYS_ES| :: DAYS_ES[i].title == Capitalised(EN2ES[WEEKDAYS_EN[i]])
  {
    forall i | 0 <= i < |DAYS_ES|
      ensures DAYS_ES[i].title == Capitalised(EN2ES[WEEKDAYS_EN[i]])
    {
      DayLabel(i);
    }
  }

  /** The label of one day of `DAYS_ES`, day by day. */
  lemma DayLabel(i: nat)
    requires i < |DAYS_ES|
    ensures WEEKDAYS_EN[i] in EN2ES && DAYS_ES[i].title == Capitalised(EN2ES[WEEKDAYS_EN[i]])
  {
    DisplayNames();
    if i == 2 || i == 5 {
      AccentedNamesCapitalised();
    } else {
      PlainNamesCapitalised();
    }
  }

  /** The display names without an accent, initial upper-cased. */
  lemma PlainNamesCapitalised()
    ensures Capitalised("lunes") == "Lunes" && Capitalised("martes") == "Martes"
    ensures Capitalised("jueves") == "Jueves" && Capitalised("viernes") == "Viernes"
    ensures Capitalised("domingo") == "Domingo"
  {
    assert UpperChar('l') == 'L' && UpperChar('m') == 'M' && UpperChar('j') == 'J';
    assert UpperChar('v') == 'V' && UpperChar('d') == 'D';
  }

  /** The accented display names, initial upper-cased. */
  lemma AccentedNamesCapitalised()
    ensures Capitalised("miércoles") == "Miércoles" && Capitalised("sábado") == "Sábado"
  {
    assert UpperChar('m') == 'M' && UpperChar('s') == 'S';
  }

  /** The accented display name of each English day. */
  lemma DisplayNames()
    ensures EN2ES["monday"] == "lunes" && EN2ES["tuesday"] == "martes"
    ensures EN2ES["wednesday"] == "miércoles" && EN2ES["thursday"] == "jueves"
    ensures EN2ES["friday"] == "viernes" && EN2ES["saturday"] == "sábado"
    ensures EN2ES["sunday"] == "domingo"
  {
  }

  /** One option: the hour, `padStart(2, '0')`, then `":00"`. */
  function HourOption(h: int): string {
    Pad2(h) + ":00"
  }

  /** `buildHourOptions(start, end)`: one option per hour from `start` to `end` inclusive. */
  method BuildHourOptions(start: int, end: int) returns (out: seq<string>)
    ensures |out| == (if start <= end then end - start + 1 else 0)
    ensures forall i | 0 <= i < |out| :: out[i] == HourOption(start + i)
  {
    out := [];
    var h := start;
    while h <= end
      invariant start <= h <= (if start <= end then end + 1 else start)
      invariant |out| == h - start
      invariant forall i | 0 <= i < |out| :: out[i] == HourOption(start + i)
      decreases end - h
    {
      out := out + [HourOption(h)];
      h := h + 1;
    }
  }

  /** An option is the `HH:MM` rendering of the hour's first minute. */
  lemma HourOptionIsClock(h: nat)
    ensures HourOption(h) == ToHHmm(60 * h)
  {
    assert (60 * h) / 60 == h && (60 * h) % 60 == 0;
    assert Pad2(0) == "00";
  }

  /** An hour below 100 renders as a well-formed `HH:MM` naming minute `60 * h`. */
  lemma HourOptionShape(h: int)
    requires 0 <= h < 100
    ensures IsHHMM(HourOption(h)) && Minutes(HourOption(h)) == 60 * h && MinuteField(HourOption(h)) < 60
  {
    HourOptionIsClock(h);
    ToHHmmShape(60 * h);
  }

  /** The options are strictly increasing both as times and as strings. */
  lemma HourOptionsIncrease(g: int, h: int)
    requires 0 <= g < h < 100
    ensures Minutes(HourOption(g)) < Minutes(HourOption(h))
    ensures StrLess(HourOption(g), HourOption(h))
  {
    var a, b := HourOption(g), HourOption(h);
    HourOptionShape(g);
    HourOptionShape(h);
    HHMMOrder(a, b);
    assert a != b;
  }

  /** The default range 6..20 starts at `"06:00"` and ends at `"20:00"`. */
  lemma DefaultHourOptions()
    ensures HourOption(6) == "06:00" && HourOption(20) == "20:00"
  {
    assert NatToDec(20) == NatToDec(2) + [DigitChar(0)];
  }

  function Abs(n: int): nat {
    if n < 0 then -n else n
  }

  /**
    The `±HH:MM` suffix of `toLocalISO` for an offset of `tz` minutes east of
    UTC: the sign, then the magnitude's hours and minutes, each padded to two.
   */
  function OffsetSuffix(tz: int): (r: string)
    ensures |r| >= 1 && (r[0] == '+' <==> tz >= 0) && (r[0] == '-' <==> tz < 0)
  {
    (if tz >= 0 then "+" else "-") + ToHHmm(Abs(tz))
  }

  /** The suffix determines the offset: the sign, then hours and minutes of its magnitude. */
  lemma OffsetSuffixRoundTrip(tz: int)
    ensures ToMin(OffsetSuffix(tz)[1..]) == Some(Abs(tz))
    ensures (if OffsetSuffix(tz)[0] == '+' then 1 else -1) * Abs(tz) == tz
    ensures IsHHMM(OffsetSuffix(tz)[1..]) <==> Abs(tz) < 6000
  {
    var t := ToHHmm(Abs(tz));
    assert OffsetSuffix(tz)[1..] == t;
    ToMinOfToHHmm(Abs(tz));
    ToHHmmShape(Abs(tz));
  }
}
