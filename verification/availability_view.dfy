/**
  The read-only availability page (pages/availability/availability.component.ts):
  the loaded document's days in Monday..Sunday order, their Spanish labels,
  the comma-joined summary line and the "has data" test.
 */
module AvailabilityView {
  import opened Wrappers
  import opened Text
  import opened DayUtils
  import AvailabilityManage

  /** The document as the backend returns it; either list may be missing. */
  datatype Doc = Doc(days: Option<seq<string>>, slots: Option<seq<AvailabilityManage.Slot>>)

  /** `this.doc?.days ?? []`. */
  function RawDays(doc: Option<Doc>): seq<string> {
    if doc.Some? && doc.value.days.Some? then doc.value.days.value else []
  }

  /** A folded string is already lower-case. */
  lemma LowerOfFolded(s: string)
    requires Folded(s)
    ensures Lower(s) == s
  {
  }

  /** `raw.map(normDayKey)`. */
  function NormKeys(raw: seq<string>): (r: seq<string>)
    ensures |r| == |raw|
    ensures forall i | 0 <= i < |raw| :: r[i] == NormDayKey(raw[i])
  {
    seq(|raw|, i requires 0 <= i < |raw| => NormDayKey(raw[i]))
  }

  /** Lower-casing the normalised keys changes nothing: they are folded already. */
  lemma LowerOfKeys(keys: seq<string>)
    requires forall i | 0 <= i < |keys| :: Folded(keys[i])
    ensures seq(|keys|, i requires 0 <= i < |keys| => Lower(keys[i])) == keys
  {
    forall i | 0 <= i < |keys|
      ensures Lower(keys[i]) == keys[i]
    {
      LowerOfFolded(keys[i]);
    }
  }

  /**
    `orderedDaysEn`: every raw entry through `normDayKey` and `toLowerCase`,
    then the weekdays that occur, in week order.
   */
  function OrderedDaysEn(doc: Option<Doc>): (r: seq<string>)
    ensures WeekOrdered(r)
    ensures forall i, j | 0 <= i < j < |r| :: r[i] != r[j]
    ensures forall d :: d in r <==> d in WEEKDAYS_EN && d in NormKeys(RawDays(doc))
  {
    var keys := NormKeys(RawDays(doc));
    var lowered := seq(|keys|, i requires 0 <= i < |keys| => Lower(keys[i]));
    LowerOfKeys(keys);
    DaysWhere(d => d in lowered)
  }

  /** Membership in `raw.map(normDayKey)` is "some raw entry normalises to it". */
  lemma NormKeysMember(raw: seq<string>, d: string)
    ensures d in NormKeys(raw) <==> exists i | 0 <= i < |raw| :: NormDayKey(raw[i]) == d
  {
    var keys := NormKeys(raw);
    if d in keys {
      var i :| 0 <= i < |keys| && keys[i] == d;
      assert NormDayKey(raw[i]) == d;
    }
    if exists i | 0 <= i < |raw| :: NormDayKey(raw[i]) == d {
      var i :| 0 <= i < |raw| && NormDayKey(raw[i]) == d;
      assert keys[i] == d;
    }
  }

  /** The view page and the edit page read a day list into the same ordered list. */
  lemma OrderedDaysMatchLoad(doc: Option<Doc>)
    ensures OrderedDaysEn(doc) == AvailabilityManage.LoadDays(RawDays(doc))
  {
    var raw := RawDays(doc);
    var a, b := OrderedDaysEn(doc), AvailabilityManage.LoadDays(raw);
    forall d
      ensures d in a <==> d in b
    {
      NormKeysMember(raw, d);
    }
    WeekOrderedUnique(a, b);
  }

  /** `labelDay`: `EN2ES[en] ?? en`. */
  function LabelDay(en: string): (r: string)
    ensures en in WEEKDAYS_EN ==> r in ES2EN && ES2EN[r] == en
    ensures en !in WEEKDAYS_EN ==> r == en
  {
    if en in EN2ES then (TablesRoundTrip(en); EN2ES[en]) else en
  }

  /** Every label of a weekday is a non-empty word without commas or spaces. */
  lemma LabelShape(d: string)
    requires d in WEEKDAYS_EN
    ensures |LabelDay(d)| > 0 && ',' !in LabelDay(d) && Trimmed(LabelDay(d))
  {
  }

  /** The labels of the ordered days. */
  function Labels(days: seq<string>): (r: seq<string>)
    ensures |r| == |days|
    ensures forall k | 0 <= k < |days| :: r[k] == LabelDay(days[k])
  {
    seq(|days|, k requires 0 <= k < |days| => LabelDay(days[k]))
  }

  /** `daysJoined`: the labels joined with `", "`; no day gives the empty text and one day its label alone. */
  function DaysJoined(doc: Option<Doc>): (r: string)
    ensures OrderedDaysEn(doc) == [] ==> r == ""
    ensures |OrderedDaysEn(doc)| == 1 ==> r == LabelDay(OrderedDaysEn(doc)[0])
  {
    Join(Labels(OrderedDaysEn(doc)), ", ")
  }

  /** Comma-free, trimmed labels joined with `", "` split back on commas into the labels, up to trimming. */
  lemma JoinedLabelsRecover(labels: seq<string>)
    requires |labels| >= 1
    requires forall k | 0 <= k < |labels| :: ',' !in labels[k] && Trimmed(labels[k])
    ensures |Split(Join(labels, ", "), ',')| == |labels|
    ensures forall k | 0 <= k < |labels| :: Trim(Split(Join(labels, ", "), ',')[k]) == labels[k]
  {
    assert [','] + " " == ", ";
    SplitJoin(labels, ',', " ");
    PiecesTrimToLabels(labels, Split(Join(labels, ", "), ','));
  }

  /** The first piece is a label as it is and every later one a label after a blank; each trims back to its label. */
  lemma PiecesTrimToLabels(labels: seq<string>, parts: seq<string>)
    requires |labels| >= 1
    requires forall k | 0 <= k < |labels| :: Trimmed(labels[k])
    requires parts == [labels[0]] + seq(|labels| - 1, k requires 0 <= k < |labels| - 1 => " " + labels[k + 1])
    ensures |parts| == |labels|
    ensures forall k | 0 <= k < |labels| :: Trim(parts[k]) == labels[k]
  {
    forall k | 0 <= k < |labels|
      ensures Trim(parts[k]) == labels[k]
    {
      if k == 0 {
        TrimOfTrimmed(labels[0]);
      } else {
        assert parts[k] == " " + labels[k];
        SpacedLabelTrims(labels[k]);
      }
    }
  }

  /** A trimmed label after the blank of `", "` trims back to itself. */
  lemma SpacedLabelTrims(m: string)
    requires Trimmed(m)
    ensures Trim(" " + m) == m
  {
    assert " " + m + [] == " " + m;
    TrimOfPadded(" ", m, []);
  }

  /**
    The summary line can be read back: splitting it on commas and trimming
    each piece gives the labels, which translate back to the ordered days.
   */
  lemma DaysJoinedRecovers(doc: Option<Doc>)
    requires OrderedDaysEn(doc) != []
    ensures |Split(DaysJoined(doc), ',')| == |OrderedDaysEn(doc)|
    ensures forall k | 0 <= k < |OrderedDaysEn(doc)| ::
      Trim(Split(DaysJoined(doc), ',')[k]) in ES2EN && ES2EN[Trim(Split(DaysJoined(doc), ',')[k])] == OrderedDaysEn(doc)[k]
  {
    var days := OrderedDaysEn(doc);
    var labels := Labels(days);
    forall k | 0 <= k < |labels|
      ensures ',' !in labels[k] && Trimmed(labels[k])
    {
      LabelShape(days[k]);
    }
    JoinedLabelsRecover(labels);
    assert DaysJoined(doc) == Join(labels, ", ");
    var parts := Split(Join(labels, ", "), ',');
    forall k | 0 <= k < |days|
      ensures Trim(parts[k]) in ES2EN && ES2EN[Trim(parts[k])] == days[k]
    {
      assert Trim(parts[k]) == LabelDay(days[k]);
    }
  }

  /** The summary line is empty exactly when no weekday was recognised. */
  lemma DaysJoinedEmpty(doc: Option<Doc>)
    ensures DaysJoined(doc) == "" <==> OrderedDaysEn(doc) == []
  {
    var days := OrderedDaysEn(doc);
    if days != [] {
      LabelShape(days[0]);
      DaysJoinedRecovers(doc);
      var parts := Split(DaysJoined(doc), ',');
      assert Trim(parts[0]) in ES2EN;
      assert DaysJoined(doc) != "";
    }
  }

  /** `hasData`: both the day list and the slot list are present and non-empty. */
  function HasData(doc: Option<Doc>): (r: bool)
    ensures r <==> |RawDays(doc)| > 0 && doc.value.slots.Some? && |doc.value.slots.value| > 0
  {
    doc.Some? && doc.value.days.Some? && |doc.value.days.value| > 0
      && doc.value.slots.Some? && |doc.value.slots.value| > 0
  }

  /**
    A document that shows some day has raw day entries, so with slots it has
    data. The converse fails: `HasDataWithoutDays` shows data with no day shown.
   */
  lemma ShownDaysHaveData(doc: Option<Doc>)
    ensures OrderedDaysEn(doc) != [] ==> |RawDays(doc)| > 0
    ensures OrderedDaysEn(doc) != [] && doc.Some? && doc.value.slots.Some? && |doc.value.slots.value| > 0 ==> HasData(doc)
  {
    var r := OrderedDaysEn(doc);
    if r != [] {
      assert r[0] in r;
      assert r[0] in NormKeys(RawDays(doc));
    }
  }

  /** An unknown name survives `normDayKey` unchanged and is no weekday. */
  lemma HolidayUnknown()
    ensures NormDayKey("holiday") == "holiday" && "holiday" !in WEEKDAYS_EN
  {
    HolidayFolds();
    HolidayNoName();
  }

  lemma HolidayFolds()
    ensures FoldKey("holiday") == "holiday"
  {
    assert LowerWord("holiday");
    LowerWordFolded("holiday");
    FoldKeyOfFolded("holiday");
  }

  /** No Spanish name and no English key starts with an `h`. */
  lemma HolidayNoName()
    ensures "holiday" !in ES2EN && "holiday" !in WEEKDAYS_EN
  {
    assert forall k | k in ES2EN :: k[0] != 'h';
    assert forall d | d in WEEKDAYS_EN :: d[0] != 'h';
  }

  /** A document whose entries all normalise to non-weekdays has an empty day list and summary. */
  lemma NoKnownDays(doc: Option<Doc>)
    requires forall i | 0 <= i < |RawDays(doc)| :: NormDayKey(RawDays(doc)[i]) !in WEEKDAYS_EN
    ensures OrderedDaysEn(doc) == [] && DaysJoined(doc) == ""
  {
    var r := OrderedDaysEn(doc);
    var keys := NormKeys(RawDays(doc));
    assert forall d | d in keys :: d !in WEEKDAYS_EN;
    assert |r| == 0;
    assert Labels(r) == [];
  }

  /** `hasData` counts raw entries, so a document whose days are all unknown has data but an empty summary. */
  lemma HasDataWithoutDays(doc: Option<Doc>)
    requires doc == Some(Doc(Some(["holiday"]), Some([AvailabilityManage.Slot("09:00", "10:00")])))
    ensures HasData(doc) && OrderedDaysEn(doc) == [] && DaysJoined(doc) == ""
  {
    assert RawDays(doc) == ["holiday"];
    assert HasData(doc);
    HolidayUnknown();
    OnlyUnknown(doc, "holiday");
  }

  /** A document with a single entry that is no weekday has an empty day list and summary. */
  lemma OnlyUnknown(doc: Option<Doc>, k: string)
    requires RawDays(doc) == [k] && NormDayKey(k) !in WEEKDAYS_EN
    ensures OrderedDaysEn(doc) == [] && DaysJoined(doc) == ""
  {
    var raw := RawDays(doc);
    assert raw[0] == k;
    NoKnownDays(doc);
  }
}
