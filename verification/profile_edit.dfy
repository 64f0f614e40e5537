/**
  The profile editor (pages/profile-edit/profile-edit.component.ts): the
  role and identity read from the token, the password-pair rule the backend
  enforces on every update, and the payload `submit` sends.
 */
module ProfileEdit {
  import opened Wrappers
  import opened Text
  import SignUp

  // ---------------------------------------------------------------------------
  // Password pair
  // ---------------------------------------------------------------------------

  /** The three refusals of the password pair. */
  datatype PairError = PairRequired | PairMismatch | PairWeak

  /** The alert text of each refusal. */
  function PairMessage(e: PairError): string {
    match e
    case PairRequired => "El servidor exige establecer una contraseña válida para guardar cambios. Completa ambos campos (puede ser la misma)."
    case PairMismatch => "Las contraseñas no coinciden."
    case PairWeak => "La contraseña debe tener mínimo 8 caracteres, con mayúscula, minúscula, dígito y símbolo."
  }

  /** `/[^A-Za-z0-9]/`: any character that is not an ASCII letter or digit. */
  predicate HasNonAlnum(p: string) {
    exists i | 0 <= i < |p| :: !IsAlnum(p[i])
  }

  /** The strength rule of the editor: eight characters, upper, lower, digit and any non-alphanumeric. */
  predicate StrongEnough(p: string) {
    |p| >= 8 && SignUp.HasUpper(p) && SignUp.HasLower(p) && SignUp.HasDigit(p) && HasNonAlnum(p)
  }

  /** A missing field reads as `''` before trimming. */
  function Field(v: Option<string>): string {
    Trim(v.GetOr(""))
  }

  /**
    `validatePasswordPair`: both trimmed fields must be filled (checked
    first), then equal, then strong enough; `None` means no error.
   */
  function ValidatePasswordPair(password: Option<string>, rePassword: Option<string>): (r: Option<PairError>)
    ensures r == Some(PairRequired) <==> Field(password) == "" || Field(rePassword) == ""
    ensures r == Some(PairMismatch) <==> Field(password) != "" && Field(rePassword) != "" && Field(password) != Field(rePassword)
    ensures r.None? <==> Field(password) == Field(rePassword) && StrongEnough(Field(password))
  {
    var p := Field(password);
    var q := Field(rePassword);
    if p == "" || q == "" then Some(PairRequired)
    else if p != q then Some(PairMismatch)
    else if !StrongEnough(p) then Some(PairWeak)
    else None
  }

  lemma FieldOfTrimmed(p: string)
    requires Trimmed(p)
    ensures Field(Some(p)) == p
  {
    TrimOfTrimmed(p);
  }

  /** A trimmed, strong password typed twice passes. */
  lemma StrongPairPasses(p: string)
    requires Trimmed(p) && StrongEnough(p)
    ensures ValidatePasswordPair(Some(p), Some(p)).None?
  {
    FieldOfTrimmed(p);
  }

  /** A password the registration policy accepts is accepted here too (typed twice). */
  lemma PolicyPassesEditor(p: string)
    requires SignUp.PolicyOk(p)
    ensures ValidatePasswordPair(Some(p), Some(p)).None?
  {
    var i :| 0 <= i < |p| && SignUp.IsSymbol(p[i]);
    assert !IsAlnum(p[i]);
    assert StrongEnough(p);
    assert !IsSpace(p[0]) && !IsSpace(p[|p| - 1]);
    StrongPairPasses(p);
  }

  /** The editor is looser than registration: `"Abcdefg1."` passes here but not the registration policy. */
  lemma EditorLooserThanPolicy()
    ensures ValidatePasswordPair(Some("Abcdefg1."), Some("Abcdefg1.")).None?
    ensures !SignUp.PolicyOk("Abcdefg1.")
  {
    var p := "Abcdefg1.";
    assert !IsSpace(p[0]) && !IsSpace(p[|p| - 1]);
    assert IsUpper(p[0]) && IsLower(p[1]) && IsDigit(p[7]) && !IsAlnum(p[8]);
    assert StrongEnough(p);
    StrongPairPasses(p);
    assert !(IsAlnum(p[8]) || SignUp.IsSymbol(p[8]));
  }

  // ---------------------------------------------------------------------------
  // Token prefill
  // ---------------------------------------------------------------------------

  datatype Role = Patient | Psychologist | UnknownRole

  /** The role mapping of `fetch`: only the two known roles survive. */
  function RoleOf(tokenRole: Option<string>): (r: Role)
    ensures r == Patient <==> tokenRole == Some("patient")
    ensures r == Psychologist <==> tokenRole == Some("psychologist")
  {
    if tokenRole == Some("patient") then Patient
    else if tokenRole == Some("psychologist") then Psychologist
    else UnknownRole
  }

  /** The role's name as the source spells it. */
  function RoleName(r: Role): string {
    match r
    case Patient => "patient"
    case Psychologist => "psychologist"
    case UnknownRole => "unknown"
  }

  /** Mapping a known role's own name gives it back; `"unknown"` itself is not a known role. */
  lemma RoleOfName(r: Role)
    ensures RoleOf(Some(RoleName(r))) == r
  {
  }

  /** `hasIdentity = !!t.id`: a present, non-empty id. */
  function HasIdentity(tokenId: Option<string>): (b: bool)
    ensures b <==> tokenId.Some? && |tokenId.value| > 0
  {
    tokenId.Some? && tokenId.value != ""
  }

  // ---------------------------------------------------------------------------
  // Submit
  // ---------------------------------------------------------------------------

  /** The age control: empty, the empty string some inputs produce, or a number. */
  datatype Age = NoAge | EmptyText | Number(n: int)

  datatype Form = Form(
    name: string, email: string, phone: string, age: Age,
    specialty: Option<string>, password: Option<string>, rePassword: Option<string>)

  datatype Payload = Payload(
    name: string, email: string, phone: string, age: Option<int>,
    specialty: Option<string>, password: string, rePassword: string)

  datatype SubmitOutcome =
    | RedirectToSignUp
    | MarkTouched
    | AlertError(message: string)
    | Send(data: Payload)

  /** The body `submit` builds from the form's raw value. */
  function BuildPayload(role: Role, raw: Form): (d: Payload)
    ensures d.name == Trim(raw.name) && d.email == Trim(raw.email) && d.phone == Trim(raw.phone)
    ensures d.age.Some? <==> raw.age.Number?
    ensures d.age.Some? ==> d.age.value == raw.age.n
    ensures d.specialty.Some? <==> role == Psychologist
    ensures d.specialty.Some? ==> d.specialty.value == Trim(raw.specialty.GetOr(""))
    ensures d.password == Field(raw.password) && d.rePassword == Field(raw.rePassword)
  {
    Payload(
      Trim(raw.name), Trim(raw.email), Trim(raw.phone),
      if raw.age.Number? then Some(raw.age.n) else None,
      if role == Psychologist then Some(Trim(raw.specialty.GetOr(""))) else None,
      Field(raw.password), Field(raw.rePassword))
  }

  /** `submit`: redirect without identity, stop on an invalid form or password pair, else send. */
  function Submit(hasIdentity: bool, formValid: bool, role: Role, raw: Form): (r: SubmitOutcome)
    ensures !hasIdentity ==> r == RedirectToSignUp
    ensures hasIdentity && !formValid ==> r == MarkTouched
    ensures r.AlertError? <==> hasIdentity && formValid && ValidatePasswordPair(raw.password, raw.rePassword).Some?
    ensures r.Send? <==> hasIdentity && formValid && ValidatePasswordPair(raw.password, raw.rePassword).None?
  {
    if !hasIdentity then RedirectToSignUp
    else if !formValid then MarkTouched
    else match ValidatePasswordPair(raw.password, raw.rePassword)
      case Some(e) => AlertError(PairMessage(e))
      case None => Send(BuildPayload(role, raw))
  }

  /** Whatever is sent carries trimmed text fields and a valid, repeated password. */
  lemma SentPayloadValid(hasIdentity: bool, formValid: bool, role: Role, raw: Form)
    requires Submit(hasIdentity, formValid, role, raw).Send?
    ensures var d := Submit(hasIdentity, formValid, role, raw).data;
      && Trimmed(d.name) && Trimmed(d.email) && Trimmed(d.phone)
      && d.password == d.rePassword && StrongEnough(d.password) && Trimmed(d.password)
      && (d.specialty.Some? ==> Trimmed(d.specialty.value))
  {
    TrimIsTrimmed(raw.name);
    TrimIsTrimmed(raw.email);
    TrimIsTrimmed(raw.phone);
    TrimIsTrimmed(raw.password.GetOr(""));
    TrimIsTrimmed(raw.specialty.GetOr(""));
  }

  /** Trimming the form first changes nothing that is sent. */
  lemma PayloadOfTrimmedForm(role: Role, raw: Form)
    ensures BuildPayload(role, raw.(name := Trim(raw.name), email := Trim(raw.email), phone := Trim(raw.phone)))
      == BuildPayload(role, raw)
  {
    TrimIdempotent(raw.name);
    TrimIdempotent(raw.email);
    TrimIdempotent(raw.phone);
  }
}
