/**
  The psychologist's availability editor
  (pages/availability/availability-manage.component.ts): `"HH:MM"` strings
  and minutes, half-hour rounding, the slot merge over strings, the ordered
  validation rules, the pre-network part of `save`, day toggling and the
  normalisation of loaded day names.

  A slot whose bound does not parse is NaN in the source; `x.b > x.a` is then
  false and the merge drops it. The model gives such a slot the empty
  interval `[0, 0)`, which the merge drops for the same reason.
 */
module AvailabilityManage {
  import opened Wrappers
  import opened Text
  import opened DayUtils
  import opened Intervals
  import opened HourMinute

  datatype Slot = Slot(start: string, end: string)

  // ---------------------------------------------------------------------------
  // Half-hour rounding
  // ---------------------------------------------------------------------------

  /** `norm`: a well-formed `HH:MM` keeps its hour and has its minutes rounded down to 00 or 30; anything else is returned unchanged. */
  function Norm(hhmm: string): (r: string)
    ensures !IsHHMM(hhmm) ==> r == hhmm
    ensures IsHHMM(hhmm) ==> IsHHMM(r) && r[..3] == hhmm[..3]
    ensures IsHHMM(hhmm) ==> MinuteField(r) % 30 == 0 && MinuteField(r) < 60 && MinuteField(r) <= MinuteField(hhmm)
    ensures IsHHMM(hhmm) && MinuteField(hhmm) < 60 ==> MinuteField(hhmm) < MinuteField(r) + 30
  {
    if !IsHHMM(hhmm) then hhmm
    else
      RoundedShape(hhmm);
      Pad2(HourField(hhmm)) + ":" + Pad2(if MinuteField(hhmm) < 30 then 0 else 30)
  }

  /** The hour kept and the minutes replaced by 00 or 30 form a well-formed time with those fields. */
  lemma RoundedShape(s: string)
    requires IsHHMM(s)
    ensures var r := Pad2(HourField(s)) + ":" + Pad2(if MinuteField(s) < 30 then 0 else 30);
      IsHHMM(r) && r[..3] == s[..3] && MinuteField(r) == (if MinuteField(s) < 30 then 0 else 30)
  {
    var m := if MinuteField(s) < 30 then 0 else 30;
    var r := Pad2(HourField(s)) + ":" + Pad2(m);
    assert AllDigits(s[..2]);
    TwoDigitsRoundTrip(s[..2]);
    Pad2Digits(m);
    assert r[..2] == s[..2] && r[2] == ':' && r[3..] == Pad2(m);
    assert r[..3] == s[..3];
  }

  /** Rounding to the half hour twice is rounding once. */
  lemma NormIdempotent(s: string)
    ensures Norm(Norm(s)) == Norm(s)
  {
    if IsHHMM(s) {
      NormOfRounded(Norm(s));
    }
  }

  /** A well-formed time already on the half hour is left as it is. */
  lemma NormOfRounded(r: string)
    requires IsHHMM(r) && MinuteField(r) % 30 == 0 && MinuteField(r) < 60
    ensures Norm(r) == r
  {
    NormShape(r);
    RoundedRebuilt(r);
  }

  /** What `norm` builds from a well-formed time. */
  lemma NormShape(r: string)
    requires IsHHMM(r)
    ensures Norm(r) == Pad2(HourField(r)) + ":" + Pad2(if MinuteField(r) < 30 then 0 else 30)
  {
  }

  /** Re-padding the fields of a time on the half hour gives the time back. */
  lemma RoundedRebuilt(r: string)
    requires IsHHMM(r) && MinuteField(r) % 30 == 0 && MinuteField(r) < 60
    ensures Pad2(HourField(r)) + ":" + Pad2(if MinuteField(r) < 30 then 0 else 30) == r
  {
    var m := MinuteField(r);
    TwoDigitsRoundTrip(r[..2]);
    TwoDigitsRoundTrip(r[3..]);
    assert (if m < 30 then 0 else 30) == m;
    assert r == r[..2] + ":" + r[3..];
  }

  // ---------------------------------------------------------------------------
  // The merge over slot strings
  // ---------------------------------------------------------------------------

  /**
    The interval a slot denotes; an unparseable bound gives the empty
    interval, which the merge drops as it drops `NaN`. An interval that
    survives the filter carries the minutes both bounds read as.
   */
  function SegOf(t: Slot): (r: Seg)
    ensures Valid(r) ==> ToMin(t.start) == Some(r.a) && ToMin(t.end) == Some(r.b)
    ensures ToMin(t.start).None? || ToMin(t.end).None? ==> !Valid(r)
  {
    match (ToMin(t.start), ToMin(t.end))
    case (Some(a), Some(b)) => Seg(a, b)
    case _ => Seg(0, 0)
  }

  /** The intervals of the slots, one per slot and in order. */
  function Segs(slots: seq<Slot>): (r: seq<Seg>)
    ensures |r| == |slots| && forall i | 0 <= i < |slots| :: r[i] == SegOf(slots[i])
  {
    seq(|slots|, i requires 0 <= i < |slots| => SegOf(slots[i]))
  }

  /** One `HH:MM` slot per interval, in order. */
  function Render(c: seq<Seg>): (r: seq<Slot>)
    ensures |r| == |c|
  {
    seq(|c|, i requires 0 <= i < |c| => Slot(ToHHmm(c[i].a), ToHHmm(c[i].b)))
  }

  /** `mergeSlots`: parse, merge the intervals, render back to `HH:MM`; never more slots than it is given. */
  function MergeSlots(slots: seq<Slot>): (r: seq<Slot>)
    ensures |r| <= |slots|
  {
    Render(Merge(Segs(slots)))
  }

  /** Some slot of the list covers minute `x`. */
  predicate SlotCovers(slots: seq<Slot>, x: int) {
    Covers(Segs(slots), x)
  }

  /** Every slot parses and is non-empty, the list is sorted and no two slots touch. */
  predicate Disjoint(slots: seq<Slot>) {
    Canonical(Segs(slots))
  }

  /** Rendered intervals parse back to themselves. */
  lemma SegsOfRender(c: seq<Seg>)
    ensures Segs(Render(c)) == c
  {
    forall i | 0 <= i < |c|
      ensures Segs(Render(c))[i] == c[i]
    {
      assert Render(c)[i] == Slot(ToHHmm(c[i].a), ToHHmm(c[i].b));
      SegOfRendered(c[i]);
    }
  }

  /** One rendered interval parses back to itself. */
  lemma SegOfRendered(g: Seg)
    ensures SegOf(Slot(ToHHmm(g.a), ToHHmm(g.b))) == g
  {
    ToMinOfToHHmm(g.a);
    ToMinOfToHHmm(g.b);
  }

  /** The merged slots are sorted, strictly separated and cover exactly the minutes the input slots cover. */
  lemma MergeSlotsDisjoint(slots: seq<Slot>)
    ensures Disjoint(MergeSlots(slots))
    ensures forall x :: SlotCovers(MergeSlots(slots), x) <==> SlotCovers(slots, x)
  {
    MergeCanonical(Segs(slots));
    SegsOfRender(Merge(Segs(slots)));
  }

  /** `mergeSlots` is idempotent. */
  lemma MergeSlotsIdempotent(slots: seq<Slot>)
    ensures MergeSlots(MergeSlots(slots)) == MergeSlots(slots)
  {
    SegsOfRender(Merge(Segs(slots)));
    MergeIdempotent(Segs(slots));
  }

  /** Coverage depends only on which slots are present. */
  lemma SlotCoversMembers(slots: seq<Slot>, x: int)
    ensures SlotCovers(slots, x) <==> exists t | t in slots :: SegOf(t).a <= x < SegOf(t).b
  {
    if SlotCovers(slots, x) {
      var g :| g in Segs(slots) && g.a <= x < g.b;
      var i :| 0 <= i < |slots| && Segs(slots)[i] == g;
      assert slots[i] in slots;
    }
    if exists t | t in slots :: SegOf(t).a <= x < SegOf(t).b {
      var t :| t in slots && SegOf(t).a <= x < SegOf(t).b;
      var i :| 0 <= i < |slots| && slots[i] == t;
      assert Segs(slots)[i] in Segs(slots);
    }
  }

  /** `mergeSlots` does not depend on the order of its input. */
  lemma MergeSlotsOrderIndependent(s: seq<Slot>, t: seq<Slot>)
    requires multiset(s) == multiset(t)
    ensures MergeSlots(s) == MergeSlots(t)
  {
    forall x
      ensures Covers(Segs(s), x) <==> Covers(Segs(t), x)
    {
      SlotCoversMembers(s, x);
      SlotCoversMembers(t, x);
      forall u
        ensures u in s <==> u in t
      {
        assert u in s <==> u in multiset(s);
        assert u in t <==> u in multiset(t);
      }
    }
    MergeByCoverage(Segs(s), Segs(t));
  }

  /** Every merged slot ends no later than some input slot. */
  lemma MergedEndsBounded(slots: seq<Slot>, limit: nat)
    requires forall x | SlotCovers(slots, x) :: x < limit
    ensures forall g | g in Merge(Segs(slots)) :: g.b <= limit
  {
    MergeCanonical(Segs(slots));
    var c := Merge(Segs(slots));
    forall g | g in c
      ensures g.b <= limit
    {
      var i :| 0 <= i < |c| && c[i] == g;
      assert Valid(c[i]);
      assert Covers(c, g.b - 1);
      assert SlotCovers(slots, g.b - 1);
    }
  }

  // ---------------------------------------------------------------------------
  // Validation and save
  // ---------------------------------------------------------------------------

  const NO_DAYS := "Selecciona al menos un día."
  const NO_SLOTS := "Agrega al menos un intervalo."
  const BAD_TIME := "Formato de hora inválido."
  const NOT_INCREASING := "Cada intervalo debe tener fin mayor que inicio."
  const END_NOT_AFTER_START := "El fin debe ser mayor que el inicio."

  /** The plain Spanish names the backend accepts. */
  const ALLOWED_ES_PLAIN: seq<string> :=
    ["lunes", "martes", "miercoles", "jueves", "viernes", "sabado", "domingo"]

  function BadDay(d: string): string {
    "Día inválido: \"" + d + "\""
  }

  /** A slot passes both per-slot checks of `validate`. */
  predicate SlotOk(t: Slot) {
    IsHHMM(t.start) && IsHHMM(t.end) && !StrLessEq(t.end, t.start)
  }

  /** Position of the first day outside the allowed names. */
  function FirstBadDay(days: seq<string>): (r: Option<nat>)
    ensures r.None? <==> forall i | 0 <= i < |days| :: days[i] in ALLOWED_ES_PLAIN
    ensures r.Some? ==> r.value < |days| && days[r.value] !in ALLOWED_ES_PLAIN
    ensures r.Some? ==> forall i | 0 <= i < r.value :: days[i] in ALLOWED_ES_PLAIN
    decreases |days|
  {
    if days == [] then None
    else if days[0] !in ALLOWED_ES_PLAIN then Some(0)
    else match FirstBadDay(days[1..])
      case None => None
      case Some(k) => Some(k + 1)
  }

  /** Position of the first slot that fails a per-slot check. */
  function FirstBadSlot(slots: seq<Slot>): (r: Option<nat>)
    ensures r.None? <==> forall i | 0 <= i < |slots| :: SlotOk(slots[i])
    ensures r.Some? ==> r.value < |slots| && !SlotOk(slots[r.value])
    ensures r.Some? ==> forall i | 0 <= i < r.value :: SlotOk(slots[i])
    decreases |slots|
  {
    if slots == [] then None
    else if !SlotOk(slots[0]) then Some(0)
    else match FirstBadSlot(slots[1..])
      case None => None
      case Some(k) => Some(k + 1)
  }

  /** `validate`: the first failing rule in the order days, slots, day names, slot format, slot order. */
  function Validate(days: seq<string>, slots: seq<Slot>): (r: Option<string>)
    ensures r.None? <==>
      && |days| > 0 && |slots| > 0
      && (forall i | 0 <= i < |days| :: days[i] in ALLOWED_ES_PLAIN)
      && (forall i | 0 <= i < |slots| :: SlotOk(slots[i]))
    ensures |days| == 0 ==> r == Some(NO_DAYS)
    ensures |days| > 0 && |slots| == 0 ==> r == Some(NO_SLOTS)
    ensures |days| > 0 && |slots| > 0 && FirstBadDay(days).Some? ==>
      r == Some(BadDay(days[FirstBadDay(days).value]))
    ensures |days| > 0 && |slots| > 0 && FirstBadDay(days).None? && FirstBadSlot(slots).Some? ==>
      var t := slots[FirstBadSlot(slots).value];
      r == Some(if IsHHMM(t.start) && IsHHMM(t.end) then NOT_INCREASING else BAD_TIME)
  {
    if |days| == 0 then Some(NO_DAYS)
    else if |slots| == 0 then Some(NO_SLOTS)
    else match FirstBadDay(days)
      case Some(k) => Some(BadDay(days[k]))
      case None =>
        match FirstBadSlot(slots)
        case Some(k) =>
          var t := slots[k];
          if !IsHHMM(t.start) || !IsHHMM(t.end) then Some(BAD_TIME) else Some(NOT_INCREASING)
        case None => None
  }

  /** `EN2ES_PLAIN[d] ?? d`. */
  function PlainName(d: string): string {
    if d in EN2ES_PLAIN then EN2ES_PLAIN[d] else d
  }

  datatype SaveOutcome =
    | Rejected(err: string)
    | Send(days: seq<string>, slots: seq<Slot>)

  /** The pre-network part of `save`: translate the days, merge the slots, validate, and send only a valid document. */
  function Save(days: seq<string>, slots: seq<Slot>): (r: SaveOutcome)
    ensures r.Send? ==> Validate(r.days, r.slots) == None && Disjoint(r.slots)
    ensures r.Send? ==> |r.days| == |days| && forall i | 0 <= i < |days| :: r.days[i] == PlainName(days[i])
    ensures r.Send? ==> forall x :: SlotCovers(r.slots, x) <==> SlotCovers(slots, x)
    ensures r.Rejected? ==> Some(r.err) == Validate(seq(|days|, i requires 0 <= i < |days| => PlainName(days[i])), MergeSlots(slots))
  {
    var plain := seq(|days|, i requires 0 <= i < |days| => PlainName(days[i]));
    var merged := MergeSlots(slots);
    MergeSlotsDisjoint(slots);
    match Validate(plain, merged)
    case Some(e) => Rejected(e)
    case None => Send(plain, merged)
  }

  lemma PlainNamesAllowed(d: string)
    requires d in WEEKDAYS_EN
    ensures PlainName(d) in ALLOWED_ES_PLAIN
  {
  }

  /** An interval within 100 hours renders to a slot that passes the per-slot checks. */
  lemma RenderedSlotOk(g: Seg)
    requires Valid(g) && g.b < 6000
    ensures SlotOk(Slot(ToHHmm(g.a), ToHHmm(g.b)))
  {
    ToHHmmShape(g.a);
    ToHHmmShape(g.b);
    HHMMOrder(ToHHmm(g.b), ToHHmm(g.a));
  }

  /** Merged slots that lie within one day pass the per-slot checks of `validate`. */
  lemma MergedSlotsPass(slots: seq<Slot>)
    requires forall x | SlotCovers(slots, x) :: x < 1440
    ensures forall i | 0 <= i < |MergeSlots(slots)| :: SlotOk(MergeSlots(slots)[i])
  {
    var c := Merge(Segs(slots));
    MergeCanonical(Segs(slots));
    MergedEndsBounded(slots, 1440);
    var r := MergeSlots(slots);
    forall i | 0 <= i < |r|
      ensures SlotOk(r[i])
    {
      assert c[i] in c;
      RenderedSlotOk(c[i]);
    }
  }

  /** The merged slots are empty exactly when the input covers no minute. */
  lemma MergedEmpty(slots: seq<Slot>)
    ensures MergeSlots(slots) == [] <==> forall x :: !SlotCovers(slots, x)
  {
    MergeSlotsDisjoint(slots);
    var merged := MergeSlots(slots);
    if merged != [] {
      var g := Segs(merged)[0];
      assert g in Segs(merged) && Valid(g);
      assert SlotCovers(merged, g.a);
    }
    if exists x :: SlotCovers(slots, x) {
      var x :| SlotCovers(slots, x);
      assert SlotCovers(merged, x);
    }
  }

  /** Week-ordered English keys translate to allowed plain Spanish names. */
  lemma SelectionTranslates(days: seq<string>)
    requires WeekOrdered(days)
    ensures forall i | 0 <= i < |days| :: PlainName(days[i]) in ALLOWED_ES_PLAIN
  {
    forall i | 0 <= i < |days|
      ensures PlainName(days[i]) in ALLOWED_ES_PLAIN
    {
      PlainNamesAllowed(days[i]);
    }
  }

  /**
    A non-empty week selection (as the day toggles produce) with slots inside
    one day is sent exactly when some minute is covered; with no covered
    minute it is rejected for lack of slots.
   */
  lemma SaveOfSelection(days: seq<string>, slots: seq<Slot>)
    requires WeekOrdered(days) && days != []
    requires forall x | SlotCovers(slots, x) :: x < 1440
    ensures (exists x :: SlotCovers(slots, x)) ==> Save(days, slots).Send?
    ensures (forall x :: !SlotCovers(slots, x)) ==> Save(days, slots) == Rejected(NO_SLOTS)
  {
    MergedEmpty(slots);
    if exists x :: SlotCovers(slots, x) {
      SelectionTranslates(days);
      MergedSlotsPass(slots);
      SaveSends(days, slots);
    } else {
      SaveRejectsEmpty(days, slots);
    }
  }

  /** Allowed day names and well-formed, non-empty merged slots are sent. */
  lemma SaveSends(days: seq<string>, slots: seq<Slot>)
    requires days != [] && forall i | 0 <= i < |days| :: PlainName(days[i]) in ALLOWED_ES_PLAIN
    requires MergeSlots(slots) != [] && forall i | 0 <= i < |MergeSlots(slots)| :: SlotOk(MergeSlots(slots)[i])
    ensures Save(days, slots).Send?
  {
    var plain := seq(|days|, i requires 0 <= i < |days| => PlainName(days[i]));
    assert forall i | 0 <= i < |plain| :: plain[i] in ALLOWED_ES_PLAIN;
    assert Validate(plain, MergeSlots(slots)) == None;
  }

  /** Days but no merged slot: `validate` stops at the slot rule. */
  lemma SaveRejectsEmpty(days: seq<string>, slots: seq<Slot>)
    requires days != [] && MergeSlots(slots) == []
    ensures Save(days, slots) == Rejected(NO_SLOTS)
  {
    var plain := seq(|days|, i requires 0 <= i < |days| => PlainName(days[i]));
    assert |plain| > 0;
    assert Validate(plain, MergeSlots(slots)) == Some(NO_SLOTS);
  }

  // ---------------------------------------------------------------------------
  // Component state transitions
  // ---------------------------------------------------------------------------

  /** The editor's state: selected days, slots, the two time inputs, the banners and the stored document id. */
  datatype Manage = Manage(
    days: seq<string>,
    slots: seq<Slot>,
    start: string,
    end: string,
    err: Option<string>,
    currentId: Option<string>)

  /**
    `addSlot`: both inputs are rounded; a malformed bound or an end not after
    the start only sets the error; otherwise the new slot is merged in and
    both inputs are cleared.
   */
  function AddSlot(st: Manage): (r: Manage)
    ensures r.err.Some? ==> r == st.(err := r.err)
    ensures r.err.Some? ==> r.err == Some(BAD_TIME) || r.err == Some(END_NOT_AFTER_START)
    ensures r.err.None? <==>
      var s, e := Norm(st.start), Norm(st.end);
      IsHHMM(s) && IsHHMM(e) && Minutes(s) < Minutes(e)
    ensures r.err.None? ==> r.start == "" && r.end == "" && r.days == st.days && r.currentId == st.currentId
  {
    var s, e := Norm(st.start), Norm(st.end);
    if !IsHHMM(s) || !IsHHMM(e) then st.(err := Some(BAD_TIME))
    else
      HHMMOrder(e, s);
      if StrLessEq(e, s) then st.(err := Some(END_NOT_AFTER_START))
      else st.(err := None, slots := MergeSlots(st.slots + [Slot(s, e)]), start := "", end := "")
  }

  lemma SegsConcat(a: seq<Slot>, b: seq<Slot>)
    ensures Segs(a + b) == Segs(a) + Segs(b)
  {
  }

  /** Merging one well-formed slot in adds exactly its minutes. */
  lemma MergeOneSlot(slots: seq<Slot>, s: string, e: string)
    requires IsHHMM(s) && IsHHMM(e)
    ensures Disjoint(MergeSlots(slots + [Slot(s, e)]))
    ensures forall x :: SlotCovers(MergeSlots(slots + [Slot(s, e)]), x) <==>
      SlotCovers(slots, x) || Minutes(s) <= x < Minutes(e)
  {
    var added := slots + [Slot(s, e)];
    MergeSlotsDisjoint(added);
    var g := Seg(Minutes(s), Minutes(e));
    ToMinOfHHMM(s);
    ToMinOfHHMM(e);
    assert SegOf(Slot(s, e)) == g;
    SegsConcat(slots, [Slot(s, e)]);
    assert Segs(added) == Segs(slots) + [g];
    forall x
      ensures SlotCovers(added, x) <==> SlotCovers(slots, x) || g.a <= x < g.b
    {
      CoversConcat(Segs(slots), [g], x);
    }
  }

  /** A successful `addSlot` adds exactly the new slot's minutes and keeps the slots disjoint. */
  lemma AddSlotCoverage(st: Manage)
    requires AddSlot(st).err.None?
    ensures Disjoint(AddSlot(st).slots)
    ensures forall x :: SlotCovers(AddSlot(st).slots, x) <==>
      SlotCovers(st.slots, x) || Minutes(Norm(st.start)) <= x < Minutes(Norm(st.end))
  {
    var s, e := Norm(st.start), Norm(st.end);
    assert AddSlot(st).slots == MergeSlots(st.slots + [Slot(s, e)]);
    MergeOneSlot(st.slots, s, e);
  }

  /** `addPreset`: merges a fixed slot in without any check. */
  function AddPreset(slots: seq<Slot>, s: string, e: string): (r: seq<Slot>)
    ensures Disjoint(r)
    ensures forall x :: SlotCovers(r, x) <==> SlotCovers(slots, x) || SlotCovers([Slot(s, e)], x)
  {
    var added := slots + [Slot(s, e)];
    MergeSlotsDisjoint(added);
    assert Segs(added) == Segs(slots) + Segs([Slot(s, e)]);
    forall x
      ensures SlotCovers(added, x) <==> SlotCovers(slots, x) || SlotCovers([Slot(s, e)], x)
    {
      CoversConcat(Segs(slots), Segs([Slot(s, e)]), x);
    }
    MergeSlots(added)
  }

  /** `removeSlot(i)`: `filter((_, idx) => idx !== i)`. */
  function RemoveSlot(slots: seq<Slot>, i: int): (r: seq<Slot>)
    ensures !(0 <= i < |slots|) ==> r == slots
    ensures 0 <= i < |slots| ==> |r| == |slots| - 1
    ensures 0 <= i < |slots| ==> forall k | 0 <= k < |r| :: r[k] == slots[if k < i then k else k + 1]
  {
    if 0 <= i < |slots| then slots[..i] + slots[i + 1..] else slots
  }

  /** Removing a slot from a disjoint list keeps it disjoint and uncovers exactly that slot's minutes. */
  lemma RemoveSlotCoverage(slots: seq<Slot>, i: int)
    requires Disjoint(slots) && 0 <= i < |slots|
    ensures Disjoint(RemoveSlot(slots, i))
    ensures forall x :: SlotCovers(RemoveSlot(slots, i), x) <==>
      SlotCovers(slots, x) && !(SegOf(slots[i]).a <= x < SegOf(slots[i]).b)
  {
    var c := Segs(slots);
    assert Segs(RemoveSlot(slots, i)) == c[..i] + c[i + 1..];
    CanonicalRemove(c, i);
    forall x
      ensures Covers(c[..i] + c[i + 1..], x) <==> Covers(c, x) && !(c[i].a <= x < c[i].b)
    {
      CoversRemove(c, i, x);
    }
  }

  /** `toggleDay`: flips `en` in the selection and rebuilds it in week order. */
  function ToggleDay(days: seq<string>, en: string): (r: seq<string>)
    ensures WeekOrdered(r)
    ensures forall d :: d in r <==> d in WEEKDAYS_EN && ((d in days) != (d == en))
  {
    DaysWhere(d => (d in days) != (d == en))
  }

  /** Toggling the same weekday twice restores a week-ordered selection. */
  lemma ToggleDayTwice(days: seq<string>, en: string)
    requires WeekOrdered(days) && en in WEEKDAYS_EN
    ensures ToggleDay(ToggleDay(days, en), en) == days
  {
    var t := ToggleDay(days, en);
    var r := ToggleDay(t, en);
    forall d
      ensures d in r <==> d in days
    {
      assert d in r <==> d in WEEKDAYS_EN && ((d in t) != (d == en));
      assert d in t <==> d in WEEKDAYS_EN && ((d in days) != (d == en));
      if d in days {
        var i :| 0 <= i < |days| && days[i] == d;
        assert d in WEEKDAYS_EN;
      }
    }
    WeekOrderedUnique(r, days);
  }

  /** The chain `ngOnInit` applies to each loaded day: strip diacritics, lower-case, trim, then `ES2EN[s] ?? s`. */
  function LoadKey(s: string): string {
    FoldKeyIsFolded(s);
    Translate(FoldKey(s))
  }

  /** The inline chain of `ngOnInit` agrees with `normDayKey`. */
  lemma LoadKeyIsNormDayKey(s: string)
    ensures LoadKey(s) == NormDayKey(s)
  {
    if s == "" {
      EmptyKey();
    } else {
      FoldKeyIsFolded(s);
      assert NormDayKey(s) == Translate(FoldKey(s));
    }
  }

  /** Loaded days: normalised, deduplicated and ordered Monday..Sunday, unknown names dropped. */
  function LoadDays(raw: seq<string>): (r: seq<string>)
    ensures WeekOrdered(r)
    ensures forall d :: d in r <==> d in WEEKDAYS_EN && exists i | 0 <= i < |raw| :: NormDayKey(raw[i]) == d
  {
    forall i | 0 <= i < |raw| {
      LoadKeyIsNormDayKey(raw[i]);
    }
    DaysWhere(d => exists i | 0 <= i < |raw| :: LoadKey(raw[i]) == d)
  }

  /** The state `ngOnInit` builds from a loaded document. */
  function Load(id: string, rawDays: seq<string>, rawSlots: seq<Slot>): (r: Manage)
    ensures WeekOrdered(r.days) && Disjoint(r.slots)
    ensures forall x :: SlotCovers(r.slots, x) <==> SlotCovers(rawSlots, x)
    ensures r.currentId == (if id == "" then None else Some(id))
  {
    MergeSlotsDisjoint(rawSlots);
    Manage(LoadDays(rawDays), MergeSlots(rawSlots), "", "", None, if id == "" then None else Some(id))
  }

  datatype DeleteDecision =
    | NothingToDelete(err: string)
    | Cancelled
    | RequestDelete(id: string)

  const NOTHING_TO_DELETE := "No hay disponibilidad para eliminar"

  /** The guard of `deleteAll`: no stored id is an error, a declined confirmation does nothing. */
  function DeleteAll(currentId: Option<string>, confirmed: bool): (r: DeleteDecision)
    ensures r.RequestDelete? <==> currentId.Some? && currentId.value != "" && confirmed
    ensures r.RequestDelete? ==> Some(r.id) == currentId
    ensures r.NothingToDelete? <==> currentId.None? || currentId == Some("")
  {
    match currentId
    case Some(id) =>
      if id == "" then NothingToDelete(NOTHING_TO_DELETE)
      else if !confirmed then Cancelled
      else RequestDelete(id)
    case None => NothingToDelete(NOTHING_TO_DELETE)
  }
}
