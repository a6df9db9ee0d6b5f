# One-page checkout: address modes and checkout widget rules

This project models the decision logic of an Odoo one-page checkout module in Dafny and proves properties of it. The module's two core files are covered.

- `checkout/model/res_partner.py`. `check_mode` classifies the partner id that an address form submits: the empty tuple (the controller answers Forbidden), or a pair `(create, ship)` with `create` in `new|edit` and `ship` in `billing|shipping`. `bind_partner` then writes the partner into the sale order as its customer or as its delivery address. When a registered customer edits the billing address, the delivery address chosen before is put back.
- `checkout/static/src/js/checkout.js`. This is the browser widget of the checkout page. Its decision rules are modelled here:
  - the `customvat` rule of the form validator, a one-entry memo in front of the `/validators/vat` endpoint;
  - the pay-button gate run on every change of the billing form;
  - the "pay now" gate;
  - the quantity normalisation and the empty-cart reload;
  - the country-driven state list and field layout;
  - the class toggle that moves the "selected" mark between shipping-address cards.

The Dafny is organised as follows:

- `wrappers.dfy` (`Wrappers`): the `Option` type.
- `res_partner.dfy` (`ResPartner`):
  - `CheckMode`, a pure function;
  - a `SaleOrder` class with the two fields `bind_partner` writes;
  - `BindPartner`, a method that updates that class in place.
- `vat_validator.dfy` (`VatValidator`): the `VatMemo` class.
  - Its fields are the validator's `previous.old`, `previous.valid` and `previous.message`, the field's entry in `validator.invalid`, and a log of the requests it has sent.
  - `Valid()` is the memo's invariant: the cached value is the last value requested, and the invalid flag mirrors the cached verdict.
  - The endpoint's answer is a parameter. `None` stands for a request whose success callback never runs.
- `pay_gate.dfy` (`PayGate`): the billing-form gate and the pay-now gate, as functions that return their effects as values.
- `cart.dfy` (`Cart`): the `/shop/cart/update_json` requests and what happens once they are answered.
- `country_fields.dfy` (`CountryFields`): an `AddressForm` class.
  - Its fields are the state drop-down (options, value, visibility, `data-init`), the zip/city order and the visibility of the field containers.
  - The methods that rebuild them use loops, as the source does.
- `shipping_cards.dfy` (`ShippingCards`): the cards of `.all_shippings` as an array of class sets, updated in place by `SelectAddress`.

Three details of the source that the model keeps:

- The pay-now gate counts every checked radio button in the widget and needs two (`checkout.js:785-786`). The handler's own doc comment (`checkout.js:776`) speaks of a payment method and a delivery method, but no check ties the two radios to those groups.
- Deleting a cart line does not recompute the carrier (`checkout.js:622-624`). Only a quantity change does (`checkout.js:645-648`).
- The state list is rebuilt when `data-init` is 0 or when the list holds exactly one option (`checkout.js:435`).

A modelled detail of the VAT memo: the memo records the new value before it sends the request (`checkout.js:126`). If that request fails, checking the same value again returns the verdict cached before, without asking the server. On a fresh form that verdict is the memo's initial "valid". `CheckTwice` states this.

`check_mode` keeps a visitor who checks out as the public partner in "new" mode. This holds even when the submitted id is an existing contact or the order's own partner; `CheckMode`'s case table states it.

After the state list is rebuilt, the drop-down's value is that of its first option. This is what a single-select element does when its options are replaced.

## Model

| member | source | states |
|---|---|---|
| `ResPartner.CheckMode` | checkout/model/res_partner.py:28-54 | Forbidden exactly when the id is positive, is not the order's partner and is not a contact of the customer's commercial partner; otherwise `create` is "edit" iff the order's partner is not the public partner and the id is positive, and `ship` is "shipping" iff the id is -1 or a positive id other than the order's partner; case by case: -1 yields ("new", "shipping"), 0 and ids below -1 yield ("new", "billing"), the customer's own id yields billing and a contact's id yields shipping, each "edit" unless the order belongs to the public partner |
| `ResPartner.BindPartner` | checkout/model/res_partner.py:56-77 | returns True iff the partner exists; a missing partner leaves the order untouched; "shipping" sets only the delivery partner; "billing" sets the customer, and keeps the previous delivery partner unless the mode is "new", where the onchange's choice stays; any other mode changes nothing |
| `VatValidator.RefusalMessage` | checkout/static/src/js/checkout.js:156-160 | a refusal is reported with the server's non-empty text, else with the default message |
| `VatValidator.VatMemo.constructor` | checkout/static/src/js/checkout.js:113 | a field never checked has no previous value, a presumed valid verdict, no invalid flag and no requests, and satisfies the memo invariant |
| `VatValidator.VatMemo.Check` | checkout/static/src/js/checkout.js:106-172 | keeps the memo invariant; an empty field gives "dependency-mismatch" and changes nothing; the value checked last returns the cached verdict and sends no request; a new value is recorded and sent exactly once with the selected country; the verdict is true iff the answer is `true` or "true", is cached, and clears or sets the field's invalid flag; a failed request returns "pending" and keeps the cached verdict |
| `VatValidator.CheckTwice` | checkout/static/src/js/checkout.js:122-128 | the same non-empty VAT number checked twice on a fresh form sends one request; the second check repeats the first verdict, or returns the stale "valid" after a failed request |
| `PayGate.CountBlank` | checkout/static/src/js/checkout.js:351 | the number of required inputs that are blank once trimmed is at most their number, and is zero iff every one is filled |
| `PayGate.OnChangeBillingForm` | checkout/static/src/js/checkout.js:349-383 | the form is validated iff no required input is blank; a blank input leaves the pay button disabled and posts nothing; the button ends enabled iff all are filled and the form is valid; the address is posted iff the button is enabled and no shipping card is selected |
| `PayGate.OnClickPayNow` | checkout/static/src/js/checkout.js:782-802 | fewer than two checked radios shows the error and nothing else; payment is submitted iff two are checked and there is no extra-info form or it is valid; the extra-info form is sent iff it exists and is valid, and then before the payment |
| `Cart.OnChangeQty` | checkout/static/src/js/checkout.js:632-644 | the request targets the changed line and product; a quantity below 0.1 is sent as 0, any other is sent unchanged, so nothing between 0 and 0.1 is sent |
| `Cart.OnClickDeleteProduct` | checkout/static/src/js/checkout.js:614-621 | deleting sends quantity 0, the same request as typing any quantity below 0.1 |
| `Cart.ValidateCartQty` | checkout/static/src/js/checkout.js:316-322 | an answer without `cart_quantity` reloads the page; any other re-renders the confirmation |
| `Cart.OnChangeQtyAnswered` | checkout/static/src/js/checkout.js:645-648 | an answered quantity change has two effects: first it sets the carrier that was checked before the change, then it re-renders the confirmation, or reloads the page iff the cart is empty |
| `Cart.OnClickDeleteProductAnswered` | checkout/static/src/js/checkout.js:622-624 | an answered deletion never sets the carrier; it reloads the page iff the cart is empty and re-renders the confirmation otherwise |
| `CountryFields.OptionsOf` | checkout/static/src/js/checkout.js:438-441 | one option per state row, in the server's order, with the row's id as value, name as text and code as `data-code` |
| `CountryFields.IndexOf` | checkout/static/src/js/checkout.js:452 | `$.inArray`: -1 iff the name is absent, otherwise the position of its first occurrence |
| `CountryFields.CityBeforeZip` | checkout/static/src/js/checkout.js:452-456 | city goes before zip iff the field list has a zip and, before its first zip, a city, or has no city at all |
| `CountryFields.DivSuffix` | checkout/static/src/js/checkout.js:459 | `split("_")[0]`: the longest prefix of the name without an underscore |
| `CountryFields.DivSuffixOfAllFields` | checkout/static/src/js/checkout.js:457-459 | the containers toggled are `.div_street`, `.div_zip`, `.div_city` and `.div_country` |
| `CountryFields.ToggleAllFields` | checkout/static/src/js/checkout.js:457-462 | toggling the four fields in turn makes each of street, zip, city and country visible iff the country lists it, and leaves other containers alone |
| `CountryFields.AddressForm.ChangeCountry` | checkout/static/src/js/checkout.js:423-466 | an empty country id asks nothing and changes nothing; otherwise `data-init` ends 0, the state list and layout change as `FillStates` and `LayOutFields` state, and the layout is kept when the answer has no field list |
| `CountryFields.AddressForm.FillStates` | checkout/static/src/js/checkout.js:433-449 | when `data-init` is 0 or the list holds one option, a non-empty state list replaces the options in server order and is shown, and an empty one clears the value and hides the list; otherwise the list is kept; `data-init` is 0 afterwards in every path |
| `CountryFields.AddressForm.LayOutFields` | checkout/static/src/js/checkout.js:451-463 | the zip/city order is `CityBeforeZip` of the field list, and each of street, zip, city and country is shown iff listed |
| `CountryFields.AddressForm.ToggleFields` | checkout/static/src/js/checkout.js:458-462 | the loop over the field names leaves the visibility map toggled for each name in turn |
| `ShippingCards.Deselected` | checkout/static/src/js/checkout.js:680-683 | a selected card loses `border-primary`, becomes selectable and has its ship button toggled; an unselected card is left as it is |
| `ShippingCards.Selected` | checkout/static/src/js/checkout.js:685-688 | the clicked card gets `border-primary`, stops being selectable and has its ship button toggled |
| `ShippingCards.SelectAt` | checkout/static/src/js/checkout.js:680-688 | after a click the clicked card is marked and no longer selectable; every other card is deselected: a marked one loses the mark, becomes selectable and has its button toggled, an unmarked one is untouched |
| `ShippingCards.SelectLeavesOneSelected` | checkout/static/src/js/checkout.js:680-688 | after a click exactly one card is selected, the clicked one, whatever was selected before; each card whose mark, selectability and button agree keeps them agreeing |
| `ShippingCards.SelectAddress` | checkout/static/src/js/checkout.js:676-689 | the in-place loop over the cards leaves the array equal to `SelectAt` of its old contents |

## Left out

- `checkout/controllers/main.py`: HTTP routes, ORM searches, rendering and redirects, with no logic of their own. The caller's default id -1 and its Forbidden answer on the empty mode are described in `CheckMode`'s documentation.
- `checkout/__manifest__.py`: static configuration.
- `public_check_vat` (`res_partner.py:11-26`): it delegates to `check_vat` of another module, which is not part of this model. Its answer is the `response` parameter of `VatMemo.Check`.
- `onchange_partner_id`: a framework call. It is modelled only by the delivery partner it leaves, the `onchangeShipping` parameter of `BindPartner`. Any other order fields it recomputes are not modelled.
- `ResPartner.BindPartner`: partner records are their ids. Existence is membership in the `existing` set.
- The one-second `_.debounce` double-click guard (`checkout.js:36-48`): wall-clock timing inside a library.
- AJAX calls, fragment splicing, spinners, dialogs and `location.reload`, and the order in which asynchronous callbacks arrive. These are I/O. Where a decision depends on them, they appear as effect values (`PayAction`, `Cart.Effect`, `BillingEffects.postAddress`).
- The handlers that only post a form and splice fragments, with no decision beyond "post when the form is valid": the shipping-form change, edit/add/cancel/confirm/finish address, delivery method change, delivery instructions, "ship to same address", and the fragment helpers (`renderKanbanShipping`, `updateShippings`, `updatePayment`, `updateDelivery`, `rerenderConfirmation`, `renderBillingCard`). The handling of the `/shop/check_address` answer after a billing change (`checkout.js:366-376`) and the post and reload after an address is selected (`checkout.js:690-707`) are left out for the same reason.
- `VatValidator.VatMemo.Check`: the validator's message table (`checkout.js:114-118`, `146`) and `prepareElement`, `successList`, `showErrors`, `startRequest` and `stopRequest` are jQuery-validate internals and are not modelled. `this.optional(element)` is modelled as "the value is empty", since the VAT field has no `required` rule. The default refusal message is a constructor parameter.
- The e-mail and phone regular expressions (`checkout.js:90`, `98`). The validator's verdict on a whole form (`.valid()`) is an input of `OnChangeBillingForm` and `OnClickPayNow`.
- `Cart.OnChangeQty`: the quantity is a parsed `real`. JavaScript's coercion of the typed string is not modelled. A non-numeric string compares as NaN, is never below 0.1, and would be sent as typed.
- `CountryFields.AddressForm.FillStates`: `data("init")` is an integer. An absent or non-numeric attribute behaves as any non-zero value.
- `CountryFields.AddressForm` and `VatValidator.VatMemo.Check`: the model assumes a single address form on the page. The source's lookups reach every form of the widget or page. `this.$("select[name='state_id']")` (`checkout.js:433`) matches every state drop-down, so the one-option test (`checkout.js:435`) counts the options of all of them. The zip/city move (`checkout.js:453`) and the `.checkout_autoformat .div_*` toggles (`checkout.js:459`) act on the whole page. The VAT request takes the country of the first `.address-column select[name="country_id"]` (`checkout.js:132`). With the billing and shipping forms both open, the source therefore reshapes both forms and sends the first form's country, which need not be the VAT field's own form. The model does not capture this.
- `ShippingCards.Card`: the source toggles `.btn-ship` on the old card and `span.btn-ship` on the new one. The model keeps one ship-button flag per card.
