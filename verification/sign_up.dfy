/**
  Validation helpers of the registration form (auth/sign-up/sign-up.component.ts):
  the backend password policy, the strength meter, the confirmation check,
  the id and phone patterns, and the translation of backend error messages.
 */
module SignUp {
  import opened Wrappers
  import opened Text

  // ---------------------------------------------------------------------------
  // Password policy and strength
  // ---------------------------------------------------------------------------

  /** `[@$!%*?&]`: the only symbols the backend accepts. */
  predicate IsSymbol(c: char) {
    c == '@' || c == '$' || c == '!' || c == '%' || c == '*' || c == '?' || c == '&'
  }

  predicate HasUpper(v: string) { exists i | 0 <= i < |v| :: IsUpper(v[i]) }
  predicate HasLower(v: string) { exists i | 0 <= i < |v| :: IsLower(v[i]) }
  predicate HasDigit(v: string) { exists i | 0 <= i < |v| :: IsDigit(v[i]) }
  predicate HasSymbol(v: string) { exists i | 0 <= i < |v| :: IsSymbol(v[i]) }

  /**
    `PASSWORD_POLICY`: a lower-case letter, an upper-case letter, a digit and
    one of `@$!%*?&`, at least eight characters, all from letters, digits and
    those symbols.
   */
  predicate PolicyOk(v: string) {
    && HasLower(v) && HasUpper(v) && HasDigit(v) && HasSymbol(v)
    && |v| >= 8
    && forall i | 0 <= i < |v| :: IsAlnum(v[i]) || IsSymbol(v[i])
  }

  datatype Strength = Strength(score: int, caption: string)

  const NO_PASSWORD_LABEL := "–"

  /** The label thresholds of the meter: 90 and up is strong, below 30 very weak. */
  function StrengthLabel(score: int): (r: string)
    ensures r == "Fuerte" <==> score >= 90
    ensures r == "Media" <==> 60 <= score < 90
    ensures r == "Muy débil" <==> score < 30
  {
    if score >= 90 then "Fuerte" else if score >= 60 then "Media" else if score >= 30 then "Débil" else "Muy débil"
  }

  /** How many of the four criteria `v` meets. */
  function Criteria(v: string): (n: nat)
    ensures n <= 4
  {
    (if |v| >= 8 then 1 else 0)
      + (if HasUpper(v) && HasLower(v) then 1 else 0)
      + (if HasDigit(v) then 1 else 0)
      + (if HasSymbol(v) then 1 else 0)
  }

  /** `passwordStrength`: 25 points per criterion met; the empty password scores 0 with label `'–'`. */
  function PasswordStrength(v: string): (r: Strength)
    ensures v == "" ==> r == Strength(0, NO_PASSWORD_LABEL)
    ensures v != "" ==> r.score == 25 * Criteria(v) && r.caption == StrengthLabel(r.score)
    ensures 0 <= r.score <= 100 && r.score % 25 == 0
  {
    if v == "" then Strength(0, NO_PASSWORD_LABEL)
    else
      var s0 := 0;
      var s1 := if |v| >= 8 then s0 + 25 else s0;
      var s2 := if HasUpper(v) && HasLower(v) then s1 + 25 else s1;
      var s3 := if HasDigit(v) then s2 + 25 else s2;
      var s4 := if HasSymbol(v) then s3 + 25 else s3;
      Strength(s4, StrengthLabel(s4))
  }

  /** A password the backend accepts always shows as strong. */
  lemma PolicyIsStrong(v: string)
    requires PolicyOk(v)
    ensures PasswordStrength(v) == Strength(100, "Fuerte")
  {
  }

  /** The meter and the policy disagree on other symbols: `"Abcdef1@."` scores 100 but contains a `.`. */
  lemma StrongButRejected()
    ensures PasswordStrength("Abcdef1@.") == Strength(100, "Fuerte")
    ensures !PolicyOk("Abcdef1@.")
  {
    var v := "Abcdef1@.";
    assert IsUpper(v[0]) && IsLower(v[1]) && IsDigit(v[6]) && IsSymbol(v[7]);
    assert !(IsAlnum(v[8]) || IsSymbol(v[8]));
  }

  /** Each label covers exactly one reachable score. */
  lemma LabelsOfScores(v: string)
    requires v != ""
    ensures var s := PasswordStrength(v);
      && (s.caption == "Fuerte" <==> Criteria(v) == 4)
      && (s.caption == "Media" <==> Criteria(v) == 3)
      && (s.caption == "Débil" <==> Criteria(v) == 2)
      && (s.caption == "Muy débil" <==> Criteria(v) <= 1)
  {
  }

  /** Trimming leaves a policy-valid password alone, so the trimmed payload is the validated value. */
  lemma PolicyTrimmed(v: string)
    requires PolicyOk(v)
    ensures Trim(v) == v
  {
    assert !IsSpace(v[0]) && !IsSpace(v[|v| - 1]);
    TrimOfTrimmed(v);
  }

  // ---------------------------------------------------------------------------
  // Confirmation
  // ---------------------------------------------------------------------------

  /** `passwordsMatchValidator`: `None` (no error) exactly when the trimmed values agree. */
  function PasswordsMatch(password: string, confirm: string): (r: Option<string>)
    ensures r.None? <==> Trim(password) == Trim(confirm)
  {
    if Trim(password) == Trim(confirm) then None else Some("passwordsMismatch")
  }

  /** The password comparison ignores surrounding whitespace on either side. */
  lemma MatchIgnoresPadding(a: string, p: string, b: string, confirm: string)
    requires AllSpace(a) && AllSpace(b) && Trimmed(p)
    ensures PasswordsMatch(a + p + b, confirm) == PasswordsMatch(p, confirm)
  {
    TrimOfPadded(a, p, b);
    TrimOfTrimmed(p);
    SameTrimSameMatch(a + p + b, p, confirm);
  }

  lemma SameTrimSameMatch(x: string, y: string, confirm: string)
    requires Trim(x) == Trim(y)
    ensures PasswordsMatch(x, confirm) == PasswordsMatch(y, confirm)
  {
  }

  // ---------------------------------------------------------------------------
  // Id and phone patterns
  // ---------------------------------------------------------------------------

  predicate IsIdChar(c: char) {
    IsAlnum(c) || c == '.' || c == '_' || c == '-'
  }

  /** `USER_ID_REGEX`: 5 to 30 characters from letters, digits, `.`, `_` and `-`. */
  predicate UserIdOk(s: string) {
    5 <= |s| <= 30 && forall i | 0 <= i < |s| :: IsIdChar(s[i])
  }

  /** `PHONE_REGEX`: 7 to 15 digits. */
  predicate PhoneOk(s: string) {
    7 <= |s| <= 15 && AllDigits(s)
  }

  /** The policy at its edges: eight characters with all four kinds pass; seven, or a `.` as the symbol, do not. */
  lemma PolicyEdges()
    ensures PolicyOk("Abcdef1!") && !PolicyOk("Abcde1!") && !PolicyOk("Abcdef1.")
  {
    var v := "Abcdef1!";
    assert IsUpper(v[0]) && IsLower(v[1]) && IsDigit(v[6]) && IsSymbol(v[7]);
    assert !IsSymbol("Abcdef1."[7]) && !IsDigit("Abcdef1."[7]);
  }

  /** The id and phone patterns at their edges: an id of 5 characters passes, of 3 or with a space not; a phone of 7 digits passes, of 6 or with a dash not. */
  lemma IdPhoneEdges()
    ensures UserIdOk("ana.b") && !UserIdOk("ana") && !UserIdOk("ana b")
    ensures PhoneOk("5551234") && !PhoneOk("555123") && !PhoneOk("555-1234")
  {
    assert !IsIdChar("ana b"[3]);
    assert !IsDigit("555-1234"[3]);
  }

  /** Every valid phone is a valid user id too, and trimming changes neither. */
  lemma PatternsTrimmed(s: string)
    ensures PhoneOk(s) ==> UserIdOk(s)
    ensures UserIdOk(s) ==> Trim(s) == s
  {
    if UserIdOk(s) {
      assert !IsSpace(s[0]) && !IsSpace(s[|s| - 1]);
      TrimOfTrimmed(s);
    }
  }

  // ---------------------------------------------------------------------------
  // Backend messages
  // ---------------------------------------------------------------------------

  /** One translation rule: any of the needles in the upper-cased message selects the text. */
  datatype Rule = Rule(needles: seq<string>, text: string)

  const POLICY_TEXT := "La contraseña no cumple la política: 8+ caracteres, 1 mayúscula, 1 minúscula, 1 número y 1 símbolo de @$!%*?&."

  /** The rules in the order `translateBackendMessage` tries them. */
  const RULES: seq<Rule> := [
    Rule(["PASSWORD_MISMATCH"], "Las contraseñas no coinciden."),
    Rule(["EMAIL EXISTS"], "Ese correo ya está registrado."),
    Rule(["INVALID EMAIL"], "Correo inválido."),
    Rule(["INVALID PASSWORD"], POLICY_TEXT),
    Rule(["INVALID ID", "ID INVALID"], "ID inválido."),
    Rule(["ID EXISTS"], "El ID ya existe."),
    Rule(["INVALID PARAMS"], "Revisa los campos obligatorios.")]

  const DEFAULT_SIGNUP_ERROR := "No pude completar el registro."

  predicate Matches(rule: Rule, m: string) {
    exists k | 0 <= k < |rule.needles| :: Contains(m, rule.needles[k])
  }

  /** The text of the first matching rule. */
  function FirstRule(rules: seq<Rule>, m: string): (r: Option<string>)
    ensures r.None? <==> forall k | 0 <= k < |rules| :: !Matches(rules[k], m)
    ensures r.Some? ==> exists k | 0 <= k < |rules| ::
      Matches(rules[k], m) && r.value == rules[k].text && forall j | 0 <= j < k :: !Matches(rules[j], m)
    decreases |rules|
  {
    if rules == [] then None
    else if Matches(rules[0], m) then Some(rules[0].text)
    else
      var r := FirstRule(rules[1..], m);
      if r.Some? then
        var k :| 0 <= k < |rules[1..]| && Matches(rules[1..][k], m) && r.value == rules[1..][k].text
          && forall j | 0 <= j < k :: !Matches(rules[1..][j], m);
        assert rules[k + 1] == rules[1..][k];
        r
      else r
  }

  /**
    `translateBackendMessage`: the first rule whose needle occurs in the
    upper-cased message; without a match, the message itself, or the
    default when it is empty.
   */
  function TranslateBackendMessage(msg: string): (r: string)
    ensures FirstRule(RULES, Upper(msg)).Some? ==> r == FirstRule(RULES, Upper(msg)).value
    ensures FirstRule(RULES, Upper(msg)).None? && msg != "" ==> r == msg
    ensures msg == "" ==> r == DEFAULT_SIGNUP_ERROR
  {
    var m := Upper(msg);
    assert msg == "" ==> m == "";
    EmptyMatchesNothing();
    match FirstRule(RULES, m)
    case Some(t) => t
    case None => if msg != "" then msg else DEFAULT_SIGNUP_ERROR
  }

  /** Every rule has a needle and every needle is non-empty. */
  lemma NeedlesNonEmpty()
    ensures forall k | 0 <= k < |RULES| :: |RULES[k].needles| > 0
    ensures forall k, n | 0 <= k < |RULES| && 0 <= n < |RULES[k].needles| :: |RULES[k].needles[n]| > 0
  {
  }

  /** An empty message matches no rule, so it falls through to the default. */
  lemma EmptyMatchesNothing()
    ensures FirstRule(RULES, "") == None
  {
    NeedlesNonEmpty();
    forall k | 0 <= k < |RULES|
      ensures !Matches(RULES[k], "")
    {
      forall n | 0 <= n < |RULES[k].needles|
        ensures !Contains("", RULES[k].needles[n])
      {
      }
    }
  }

  /** The rule texts, each different from the default. */
  lemma RuleTextsDistinct()
    ensures forall i, j | 0 <= i < j < |RULES| :: RULES[i].text != RULES[j].text
    ensures forall i | 0 <= i < |RULES| :: RULES[i].text != DEFAULT_SIGNUP_ERROR
  {
  }

  /** Case does not matter: the lower-cased message selects the same rule as the message itself. */
  lemma TranslateIgnoresCase(msg: string)
    ensures FirstRule(RULES, Upper(Lower(msg))) == FirstRule(RULES, Upper(msg))
  {
    assert Upper(Lower(msg)) == Upper(msg);
  }

  /** The first matching rule decides, whatever later rules would say. */
  lemma {:induction false} FirstRuleAt(rules: seq<Rule>, m: string, k: nat)
    requires k < |rules| && Matches(rules[k], m)
    requires forall j | 0 <= j < k :: !Matches(rules[j], m)
    ensures FirstRule(rules, m) == Some(rules[k].text)
    decreases k
  {
    if k > 0 {
      FirstRuleAt(rules[1..], m, k - 1);
    }
  }

  /** `translateBackendMessage` returns the text of rule `k` when it is the first rule that matches. */
  lemma TranslateSelects(msg: string, k: nat)
    requires k < |RULES| && Matches(RULES[k], Upper(msg))
    requires forall j | 0 <= j < k :: !Matches(RULES[j], Upper(msg))
    ensures TranslateBackendMessage(msg) == RULES[k].text
  {
    FirstRuleAt(RULES, Upper(msg), k);
  }

  /** The needles of the first three rules. */
  lemma EarlyRules()
    ensures RULES[0].needles == ["PASSWORD_MISMATCH"]
    ensures RULES[1].needles == ["EMAIL EXISTS"]
    ensures RULES[2].needles == ["INVALID EMAIL"]
    ensures RULES[2].text == "Correo inválido."
  {
  }

  /**
    Rule order: a message that mentions an invalid email is reported as
    such, even when it also mentions an invalid password, unless it names a
    mismatch or an existing email first.
   */
  lemma EmailBeforePassword(msg: string)
    requires Contains(Upper(msg), "INVALID EMAIL")
    requires !Contains(Upper(msg), "PASSWORD_MISMATCH") && !Contains(Upper(msg), "EMAIL EXISTS")
    ensures TranslateBackendMessage(msg) == "Correo inválido."
  {
    var m := Upper(msg);
    EarlyRules();
    var n0, n1, n2 := RULES[0].needles, RULES[1].needles, RULES[2].needles;
    assert Contains(m, n2[0]);
    assert !Contains(m, n0[0]) && !Contains(m, n1[0]);
    assert forall j | 0 <= j < 2 :: !Matches(RULES[j], m);
    TranslateSelects(msg, 2);
  }
}
