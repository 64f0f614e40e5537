/**
  The checkout page (pages/checkout/checkout.component.ts): how a saved
  card is shown. Its `mask` differs from the payment page's on short and
  spaced numbers.
 */
module Checkout {
  import opened Wrappers
  import opened Text
  import Payment

  /**
    `mask`: whitespace removed, a missing number read as empty; four or
    fewer characters are shown as they are, longer ones as the masked prefix
    and the last four.
   */
  function Mask(n: Option<string>): (r: string)
    ensures var s := StripSpaces(n.GetOr(""));
      && (|s| <= 4 ==> r == s)
      && (|s| > 4 ==> |r| == 19 && r[..15] == Payment.MASK_PREFIX && r[15..] == s[|s| - 4..])
  {
    var s := StripSpaces(n.GetOr(""));
    if |s| <= 4 then s
    else
      var r := Payment.MASK_PREFIX + s[|s| - 4..];
      assert r[15..] == s[|s| - 4..];
      r
  }

  /** For a number without whitespace and longer than four characters both pages show the same text. */
  lemma MasksAgree(card: string)
    requires |card| > 4 && forall i | 0 <= i < |card| :: !IsSpace(card[i])
    ensures Mask(Some(card)) == Payment.Mask(Some(card))
  {
    FilterKeepsAll(c => !IsSpace(c), card);
  }

  /** A short number is masked on the payment page but shown in full here. */
  lemma ShortNumbersDiffer(card: string)
    requires 0 < |card| <= 4 && forall i | 0 <= i < |card| :: !IsSpace(card[i])
    ensures Mask(Some(card)) == card
    ensures Payment.Mask(Some(card)) == Payment.MASK_PREFIX + card
  {
    FilterKeepsAll(c => !IsSpace(c), card);
  }
}
