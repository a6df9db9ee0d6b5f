/**
 * The `customvat` rule of the checkout's form validator
 * (checkout/static/src/js/checkout.js, `formValidator`): a one-entry memo in
 * front of the `/validators/vat` endpoint.  The endpoint is an oracle whose
 * answer is passed in; every request the memo issues is logged.
 */
module VatValidator {
  import opened Wrappers

  /** A JSON answer of `/validators/vat`: a boolean or a string. */
  datatype VatResponse = Bool(b: bool) | Text(s: string)

  /** What the rule reports to the validator. */
  datatype VatResult = DependencyMismatch | Pending | Verdict(valid: bool)

  /** A request sent to `/validators/vat`: the VAT number and the selected country. */
  datatype VatRequest = VatRequest(vat: string, countryId: string)

  /** An answer accepts the VAT number when it is `true` or the string "true". */
  predicate Accepts(response: VatResponse) {
    response == Bool(true) || response == Text("true")
  }

  /** The message of a refusal: the answer itself when it is a non-empty string, else the default. */
  function RefusalMessage(response: VatResponse, default: string): (msg: string)
    ensures response.Text? && response.s != "" ==> msg == response.s
    ensures response.Bool? || response == Text("") ==> msg == default
  {
    if response.Text? && response.s != "" then response.s else default
  }

  /**
   * The memo the validator keeps for the VAT field: the last value sent
   * (`previous.old`), its verdict (`previous.valid`), the last refusal message
   * (`previous.message`) and the field's flag in `validator.invalid`.
   */
  class VatMemo {
    var lastValue: Option<string>
    var lastValid: bool
    var message: string
    var invalid: bool
    var requests: seq<VatRequest>
    const defaultMessage: string

    /** The memo caches the answer to the last request, and the invalid flag mirrors it. */
    ghost predicate Valid()
      reads this
    {
      && (lastValue.Some? ==> lastValue.value != "")
      && (requests == [] <==> lastValue.None?)
      && (requests != [] ==> lastValue == Some(requests[|requests| - 1].vat))
      && invalid == !lastValid
    }

    /** A field that has never been checked: no previous value, presumed valid. */
    constructor (defaultMessage: string)
      ensures Valid()
      ensures lastValue == None && lastValid && !invalid && requests == []
      ensures message == defaultMessage && this.defaultMessage == defaultMessage
    {
      lastValue := None;
      lastValid := true;
      message := defaultMessage;
      invalid := false;
      requests := [];
      this.defaultMessage := defaultMessage;
    }

    /**
     * Checks `value`.  `countryId` is the value of the first country
     * drop-down of the address column, which is the VAT field's own form
     * only when a single address form is open; `response` is the endpoint's answer if a request is made, None
     * when the request fails and its success callback never runs.
     */
    method Check(value: string, countryId: string, response: Option<VatResponse>) returns (r: VatResult)
      requires Valid()
      modifies this
      ensures Valid()
      // an empty, optional field is not checked at all
      ensures value == "" ==> r == DependencyMismatch && unchanged(this)
      // the value checked last is answered from the memo, without a request
      ensures value != "" && old(lastValue) == Some(value) ==>
        r == Verdict(old(lastValid)) && unchanged(this)
      // a new value is remembered and sent exactly once
      ensures value != "" && old(lastValue) != Some(value) ==>
        && lastValue == Some(value)
        && requests == old(requests) + [VatRequest(value, countryId)]
      ensures value != "" && old(lastValue) != Some(value) && response.None? ==>
        r == Pending && lastValid == old(lastValid) && invalid == old(invalid) && message == old(message)
      ensures value != "" && old(lastValue) != Some(value) && response.Some? ==>
        && r == Verdict(Accepts(response.value))
        && lastValid == Accepts(response.value)
        && invalid == !Accepts(response.value)
        && message == (if Accepts(response.value) then old(message)
                       else RefusalMessage(response.value, defaultMessage))
    {
      if value == "" {
        return DependencyMismatch;
      }
      if lastValue == Some(value) {
        return Verdict(lastValid);
      }
      lastValue := Some(value);
      requests := requests + [VatRequest(value, countryId)];
      r := Pending;
      if response.Some? {
        var valid := Accepts(response.value);
        if valid {
          invalid := false;
        } else {
          message := RefusalMessage(response.value, defaultMessage);
          invalid := true;
        }
        lastValid := valid;
        r := Verdict(valid);
      }
    }
  }

  /**
   * The same VAT number checked twice in a row on a fresh form issues one
   * request.  The second check repeats the first verdict; when the request
   * failed, it returns the memo's initial "valid" without asking again.
   */
  method CheckTwice(value: string, countryId: string, response: Option<VatResponse>,
                    defaultMessage: string)
    returns (first: VatResult, second: VatResult, requestCount: nat)
    requires value != ""
    ensures requestCount == 1
    ensures response.Some? ==> first == second == Verdict(Accepts(response.value))
    ensures response.None? ==> first == Pending && second == Verdict(true)
  {
    var memo := new VatMemo(defaultMessage);
    first := memo.Check(value, countryId, response);
    second := memo.Check(value, countryId, response);
    requestCount := |memo.requests|;
  }

}
