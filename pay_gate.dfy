/**
 * The two gates in front of payment (checkout/static/src/js/checkout.js):
 * the pay button re-evaluated on every change of the billing form
 * (`_onChangeBillingForm`) and the "pay now" click (`_onClickPayNow`).
 * The form validator's verdicts are inputs; DOM effects are returned as values.
 */
module PayGate {
  import opened Wrappers

  /** The white space JavaScript's trim strips (WhiteSpace and LineTerminator). */
  predicate IsJsSpace(c: char) {
    || c == ' ' || c == '\t' || c == '\n' || c == '\r' || c == '\U{000B}' || c == '\U{000C}'
    || c == '\U{00A0}' || c == '\U{1680}' || ('\U{2000}' <= c <= '\U{200A}')
    || c == '\U{2028}' || c == '\U{2029}' || c == '\U{202F}' || c == '\U{205F}' || c == '\U{3000}'
    || c == '\U{FEFF}'
  }

  /** jQuery validate's `:filled`: the value is not blank once trimmed. */
  predicate Filled(value: string) {
    exists i :: 0 <= i < |value| && !IsJsSpace(value[i])
  }

  /** The number of inputs `.not(":filled")` keeps: the blank ones. */
  function CountBlank(values: seq<string>): (n: nat)
    ensures n <= |values|
    ensures n == 0 <==> forall i :: 0 <= i < |values| ==> Filled(values[i])
  {
    if values == [] then 0
    else (if Filled(values[0]) then 0 else 1) + CountBlank(values[1..])
  }

  datatype ButtonState = Enabled | Disabled

  /**
   * What a change of the billing form does: whether the form is run through
   * the validator, whether the address is posted to `/shop/check_address`,
   * and the state the pay button is left in.
   */
  datatype BillingEffects = BillingEffects(validated: bool, postAddress: bool, payButton: ButtonState)

  /**
   * `requiredValues` are the values of the billing form's required inputs;
   * `formValid` is the validator's verdict on the form, consulted only when
   * none of them is blank; `shippingCardSelected` says whether a shipping
   * card is currently marked selected.
   */
  function OnChangeBillingForm(requiredValues: seq<string>, formValid: bool,
                               shippingCardSelected: bool): (e: BillingEffects)
    ensures e.validated <==> forall i :: 0 <= i < |requiredValues| ==> Filled(requiredValues[i])
    // a blank required input always leaves the button disabled and posts nothing
    ensures (exists i :: 0 <= i < |requiredValues| && !Filled(requiredValues[i])) ==>
      e.payButton == Disabled && !e.postAddress
    ensures e.payButton == Enabled <==>
      (forall i :: 0 <= i < |requiredValues| ==> Filled(requiredValues[i])) && formValid
    // the address is saved only when the form is valid and no shipping card is chosen
    ensures e.postAddress <==> e.payButton == Enabled && !shippingCardSelected
  {
    var complete := CountBlank(requiredValues) == 0;
    var valid := complete && formValid;
    BillingEffects(complete, valid && !shippingCardSelected, if valid then Enabled else Disabled)
  }

  /** What a click on "pay now" triggers, in order. */
  datatype PayAction =
    | DisplayError        // "No payment option or delivery method selected!"
    | SendExtraInfo       // click on the extra-info form's send button
    | SubmitPayment       // click on the payment form's submit button

  /**
   * `checkedRadios` is the number of checked radio buttons in the widget;
   * `extraInfoValid` is None when the page has no extra-info form, otherwise
   * the validator's verdict on it.
   */
  function OnClickPayNow(checkedRadios: nat, extraInfoValid: Option<bool>): (actions: seq<PayAction>)
    ensures DisplayError in actions <==> checkedRadios < 2
    ensures checkedRadios < 2 ==> actions == [DisplayError]
    // payment is submitted only with two choices made and no invalid extra-info form
    ensures SubmitPayment in actions <==>
      checkedRadios >= 2 && (extraInfoValid.None? || extraInfoValid.value)
    ensures SendExtraInfo in actions <==> checkedRadios >= 2 && extraInfoValid == Some(true)
    // the extra-info form is sent before the payment
    ensures SendExtraInfo in actions ==> actions == [SendExtraInfo, SubmitPayment]
    ensures SubmitPayment in actions && SendExtraInfo !in actions ==> actions == [SubmitPayment]
  {
    if checkedRadios < 2 then [DisplayError]
    else if extraInfoValid.None? then [SubmitPayment]
    else if extraInfoValid.value then [SendExtraInfo, SubmitPayment]
    else []
  }

}
