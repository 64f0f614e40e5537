/**
  The psychologist directory (pages/profile/profile.component.ts): the card
  built from each user record, the live search over the cards, and the
  initials shown in each card's avatar. Sorting by `localeCompare` is not
  modelled.
 */
module Profile {
  import opened Wrappers
  import opened Text
  import opened Names

  /** A user record as the directory endpoint returns it. */
  datatype Psy = Psy(
    oid: Option<string>,
    name: Option<string>,
    lastName1: Option<string>,
    lastName2: Option<string>,
    email: Option<string>,
    specialty: Option<string>,
    speciality: Option<string>,
    phone: Option<string>)

  /** The card shown for a psychologist. */
  datatype Card = Card(
    oid: string,
    name: Option<string>,
    email: Option<string>,
    fullName: Option<string>,
    specialty: string,
    phone: string)

  /**
    `fullName`: the truthy parts of the name joined by spaces; without any,
    `name || email || _id`, which skips straight to the email because a
    truthy name would have been a part.
   */
  function FullName(u: Psy): (r: Option<string>)
    ensures JoinNames([u.name, u.lastName1, u.lastName2]) != "" ==>
      r == Some(JoinNames([u.name, u.lastName1, u.lastName2]))
    ensures JoinNames([u.name, u.lastName1, u.lastName2]) == "" ==>
      r == (if Truthy(u.email).Some? then u.email else u.oid)
  {
    var joined := JoinNames([u.name, u.lastName1, u.lastName2]);
    if joined != "" then Some(joined)
    else if Truthy(u.name).Some? then u.name
    else if Truthy(u.email).Some? then u.email
    else u.oid
  }

  /** With no name parts at all the email is the name; with some, the email is never used. */
  lemma FullNameFallsBackToEmail(u: Psy)
    ensures Truthy(u.name).None? && Truthy(u.lastName1).None? && Truthy(u.lastName2).None? && Truthy(u.email).Some? ==>
      FullName(u) == u.email
    ensures Truthy(u.name).Some? ==> FullName(u).Some? && FullName(u).value != ""
  {
    var parts := [u.name, u.lastName1, u.lastName2];
    assert parts[0] == u.name && parts[1] == u.lastName1 && parts[2] == u.lastName2;
  }

  /** `specialty ?? speciality ?? ''`. */
  function Specialty(u: Psy): (r: string)
    ensures u.specialty.Some? ==> r == u.specialty.value
    ensures u.specialty.None? && u.speciality.Some? ==> r == u.speciality.value
    ensures u.specialty.None? && u.speciality.None? ==> r == ""
  {
    if u.specialty.Some? then u.specialty.value else u.speciality.GetOr("")
  }

  /** `String(u?._id)`: a missing id prints as `undefined`. */
  function IdText(oid: Option<string>): (r: string)
    ensures oid.Some? ==> r == oid.value
  {
    oid.GetOr("undefined")
  }

  /** The mapping in `fetch`. */
  function ToCard(u: Psy): (c: Card)
    ensures c.oid == IdText(u.oid) && c.name == u.name && c.email == u.email
    ensures c.fullName == FullName(u) && c.specialty == Specialty(u)
    ensures c.phone == u.phone.GetOr("")
  {
    Card(IdText(u.oid), u.name, u.email, FullName(u), Specialty(u), u.phone.GetOr(""))
  }

  // ---------------------------------------------------------------------------
  // Search
  // ---------------------------------------------------------------------------

  /** The query as the filter uses it: trimmed and lower-cased. */
  function Query(filter: string): (q: string)
    ensures q == "" <==> Trim(filter) == ""
  {
    Lower(Trim(filter))
  }

  /** A card matches when its lower-cased full name, email or specialty contains the query. */
  predicate CardMatches(q: string, p: Card) {
    || (p.fullName.Some? && Contains(Lower(p.fullName.value), q))
    || (p.email.Some? && Contains(Lower(p.email.value), q))
    || Contains(Lower(p.specialty), q)
  }

  /** `applyFilter`: every card for a blank query, otherwise the matching cards in their order. */
  function ApplyFilter(all: seq<Card>, filter: string): (view: seq<Card>)
    ensures Trim(filter) == "" ==> view == all
    ensures Trim(filter) != "" ==> forall p :: p in view <==> p in all && CardMatches(Query(filter), p)
    ensures |view| <= |all|
  {
    var q := Query(filter);
    if q == "" then all else Filter(p => CardMatches(q, p), all)
  }

  /**
    The search reads the card's specialty, whichever spelling it came from:
    a non-blank query found in it keeps the psychologist's card in the view.
   */
  lemma SpecialtySearchable(all: seq<Card>, u: Psy, filter: string)
    requires ToCard(u) in all
    requires Trim(filter) != "" && Contains(Lower(Specialty(u)), Query(filter))
    ensures ToCard(u) in ApplyFilter(all, filter)
    ensures u.specialty.None? && u.speciality.Some? ==> Contains(Lower(u.speciality.value), Query(filter))
  {
    assert CardMatches(Query(filter), ToCard(u));
  }

  /** Searching a list made of two lists searches each in place: matches keep their order. */
  lemma ApplyFilterConcat(a: seq<Card>, b: seq<Card>, filter: string)
    ensures ApplyFilter(a + b, filter) == ApplyFilter(a, filter) + ApplyFilter(b, filter)
  {
    var q := Query(filter);
    if q != "" {
      FilterConcat(p => CardMatches(q, p), a, b);
    }
  }

  /** Searching the view again with the same query changes nothing. */
  lemma ApplyFilterIdempotent(all: seq<Card>, filter: string)
    ensures ApplyFilter(ApplyFilter(all, filter), filter) == ApplyFilter(all, filter)
  {
    var q := Query(filter);
    if q != "" {
      var view := ApplyFilter(all, filter);
      assert forall i | 0 <= i < |view| :: view[i] in view;
      FilterKeepsAll(p => CardMatches(q, p), view);
    }
  }

  // ---------------------------------------------------------------------------
  // Initials
  // ---------------------------------------------------------------------------

  /** `s[0]?.toUpperCase() ?? ''`. */
  function InitialOf(w: string): (r: string)
    ensures |r| <= 1
    ensures w != "" ==> r == [UpperChar(w[0])]
  {
    if w == "" then "" else [UpperChar(w[0])]
  }

  /** `fullName || email || _id || ''`. */
  function InitialsBase(p: Card): (r: string)
    ensures Truthy(p.fullName).Some? ==> r == p.fullName.value
    ensures Truthy(p.fullName).None? && Truthy(p.email).Some? ==> r == p.email.value
    ensures Truthy(p.fullName).None? && Truthy(p.email).None? ==> r == p.oid
  {
    if Truthy(p.fullName).Some? then p.fullName.value
    else if Truthy(p.email).Some? then p.email.value
    else p.oid
  }

  /** `initials`: the upper-cased first letters of the first two words of the base. */
  function Initials(p: Card): (r: string)
    ensures |r| <= 2
  {
    var words := SplitWs(Trim(InitialsBase(p)));
    var first := InitialOf(words[0]);
    if |words| >= 2 then first + InitialOf(words[1]) else first
  }

  /**
    For a base with text, the initials are one upper-cased letter per word,
    up to two, beginning with the base's first non-blank character; a blank
    base gives none.
   */
  lemma InitialsOfWords(p: Card)
    ensures var t := Trim(InitialsBase(p));
      && (Initials(p) == "" <==> t == "")
      && (t != "" ==> Initials(p)[0] == UpperChar(t[0]))
      && (t != "" ==> |Initials(p)| == if |SplitWs(t)| >= 2 then 2 else 1)
  {
    var t := Trim(InitialsBase(p));
    TrimIsTrimmed(InitialsBase(p));
    SplitWsWords(t);
    var words := SplitWs(t);
    if t != "" {
      assert words[0] == [t[0]] + SplitWs(t[1..])[0];
      if |words| >= 2 {
        assert words[1] != "";
      }
    }
  }
}
