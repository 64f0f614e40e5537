/**
  Saved payment methods (pages/payment/payment.component.ts): the form's
  field patterns, the masked card number, the body sent on save and the
  list updates after a save or a delete. Server answers and the
  confirmation dialog are inputs.
 */
module Payment {
  import opened Wrappers
  import opened Text

  datatype PaymentDoc = PaymentDoc(id: string, cardNumber: string, cardName: string, expirationDate: string)

  // ---------------------------------------------------------------------------
  // Form
  // ---------------------------------------------------------------------------

  /** `^\d{13,19}$`. */
  predicate CardNumberOk(s: string) {
    13 <= |s| <= 19 && AllDigits(s)
  }

  /** `required` and `minLength(2)`. */
  predicate CardNameOk(s: string) {
    |s| >= 2
  }

  /** `^\d{2}\/\d{2}$`: two digits, a slash, two digits. */
  predicate ExpiryOk(s: string) {
    |s| == 5 && AllDigits(s[..2]) && s[2] == '/' && AllDigits(s[3..])
  }

  /** `^\d{3,4}$`. */
  predicate CvvOk(s: string) {
    3 <= |s| <= 4 && AllDigits(s)
  }

  datatype Form = Form(cardNumber: string, cardName: string, expirationDate: string, cvv: string)

  predicate FormValid(f: Form) {
    CardNumberOk(f.cardNumber) && CardNameOk(f.cardName) && ExpiryOk(f.expirationDate) && CvvOk(f.cvv)
  }

  /** The card-number pattern at its edges: 13 and 19 digits pass, 12 and 20 do not, nor a grouped number. */
  lemma CardNumberEdges()
    ensures CardNumberOk("4111111111111") && CardNumberOk("4111111111111111111")
    ensures !CardNumberOk("411111111111") && !CardNumberOk("41111111111111111111")
    ensures !CardNumberOk("4111 1111 1111 1")
  {
    assert !IsDigit("4111 1111 1111 1"[4]);
  }

  /** The other fields at their edges: `MM/AA` with two digits each side, a CVV of three or four digits, a name of two characters. */
  lemma FieldEdges()
    ensures ExpiryOk("09/27") && !ExpiryOk("9/27") && !ExpiryOk("09-27")
    ensures CvvOk("123") && CvvOk("1234") && !CvvOk("12") && !CvvOk("12a")
    ensures CardNameOk("Al") && !CardNameOk("A")
    ensures FormValid(Form("4111111111111111", "Ana", "09/27", "123"))
    ensures !FormValid(Form("4111111111111111", "Ana", "09/27", "12"))
  {
    assert "9/27"[2] != '/';
    assert "09-27"[2] != '/';
    assert !IsDigit("12a"[2]);
  }

  datatype Body = Body(cardNumber: string, cardName: string, expirationDate: string, cvv: string)

  datatype SaveOutcome = MarkTouched | Send(body: Body)

  /** `onSave`: an invalid form is only marked; otherwise the body with every whitespace character removed from the number. */
  function OnSave(f: Form): (r: SaveOutcome)
    ensures r == MarkTouched <==> !FormValid(f)
    ensures r.Send? ==> r.body.cardNumber == StripSpaces(f.cardNumber)
    ensures r.Send? ==> r.body.cardName == f.cardName && r.body.expirationDate == f.expirationDate && r.body.cvv == f.cvv
  {
    if !FormValid(f) then MarkTouched
    else Send(Body(StripSpaces(f.cardNumber), f.cardName, f.expirationDate, f.cvv))
  }

  /**
    The pattern already refuses whitespace, so the number a valid form sends
    is the one typed, and it still matches the pattern.
   */
  lemma SentNumberAsTyped(f: Form)
    requires FormValid(f)
    ensures OnSave(f).Send? && OnSave(f).body.cardNumber == f.cardNumber
    ensures CardNumberOk(OnSave(f).body.cardNumber)
  {
    var s := f.cardNumber;
    assert forall i | 0 <= i < |s| :: !IsSpace(s[i]);
    FilterKeepsAll(c => !IsSpace(c), s);
  }

  // ---------------------------------------------------------------------------
  // Masking
  // ---------------------------------------------------------------------------

  const MASK_PREFIX := "**** **** **** "

  /** `s.slice(-4)`: the last four characters, or all of a shorter string. */
  function LastFour(s: string): (r: string)
    ensures |r| == if |s| < 4 then |s| else 4
    ensures r == s[|s| - |r|..]
  {
    if |s| <= 4 then s else s[|s| - 4..]
  }

  /** `mask`: nothing for a missing or empty number, otherwise the masked prefix and the last four characters. */
  function Mask(card: Option<string>): (r: string)
    ensures card.None? || card.value == "" ==> r == ""
    ensures card.Some? && card.value != "" ==>
      && |r| == |MASK_PREFIX| + |LastFour(card.value)|
      && r[..|MASK_PREFIX|] == MASK_PREFIX
      && r[|MASK_PREFIX|..] == card.value[|card.value| - |LastFour(card.value)|..]
  {
    if card.None? || card.value == "" then ""
    else
      var r := MASK_PREFIX + LastFour(card.value);
      assert r[|MASK_PREFIX|..] == LastFour(card.value);
      r
  }

  /** Two numbers with the same last four digits look the same once masked. */
  lemma MaskHidesAllButLastFour(a: string, b: string)
    requires |a| >= 4 && |b| >= 4 && a[|a| - 4..] == b[|b| - 4..]
    ensures Mask(Some(a)) == Mask(Some(b))
  {
  }

  // ---------------------------------------------------------------------------
  // List updates
  // ---------------------------------------------------------------------------

  /** After a successful create: the returned document goes first when it has a truthy `_id`. */
  function AfterCreate(items: seq<PaymentDoc>, created: Option<PaymentDoc>): (r: seq<PaymentDoc>)
    ensures created.Some? && created.value.id != "" ==> r == [created.value] + items
    ensures created.None? || created.value.id == "" ==> r == items
    ensures |r| <= |items| + 1
  {
    if created.Some? && created.value.id != "" then [created.value] + items else items
  }

  predicate OtherId(id: string, x: PaymentDoc) { x.id != id }

  /**
    `onDelete`: an empty id, a refused confirmation or a failed request
    leaves the list; a successful delete drops every item with that id.
   */
  function OnDelete(items: seq<PaymentDoc>, id: string, confirmed: bool, accepted: bool): (r: seq<PaymentDoc>)
    ensures id == "" || !confirmed || !accepted ==> r == items
    ensures id != "" && confirmed && accepted ==> forall x :: x in r <==> x in items && x.id != id
    ensures |r| <= |items|
  {
    if id == "" || !confirmed || !accepted then items
    else Filter(x => OtherId(id, x), items)
  }

  /** Deleting a freshly created method whose id was new restores the list it was added to. */
  lemma DeleteUndoesCreate(items: seq<PaymentDoc>, doc: PaymentDoc)
    requires doc.id != ""
    requires forall i | 0 <= i < |items| :: items[i].id != doc.id
    ensures OnDelete(AfterCreate(items, Some(doc)), doc.id, true, true) == items
  {
    var f := x => OtherId(doc.id, x);
    FilterConcat(f, [doc], items);
    FilterKeepsAll(f, items);
    assert Filter(f, [doc]) == [];
  }
}
