/**
 * Cart-line updates from the order confirmation column
 * (checkout/static/src/js/checkout.js: `_onChangeQty`,
 * `_onClickDeleteProductBinder`, `validateCartQty`).  The quantity typed in
 * is taken as an already parsed number.
 */
module Cart {
  import opened Wrappers

  /** A call of `/shop/cart/update_json`. */
  datatype CartUpdate = UpdateJson(lineId: int, productId: int, setQty: real)

  /** The answer of `/shop/cart/update_json`; `cart_quantity` is absent once the cart is empty. */
  datatype CartResponse = CartResponse(cartQuantity: Option<int>)

  /** What the page does once an update is answered. */
  datatype Effect =
    | SetCarrier(carrierId: Option<string>)   // `/shop/set_carrier`, then the totals are re-rendered
    | RerenderConfirmation                    // `/shop/rerender_confirmation`
    | Reload                                  // `location.reload()`

  /** Below this a typed quantity counts as zero. */
  const MinQty: real := 0.1

  /** The request sent when the quantity input of a line changes to `qty`. */
  function OnChangeQty(lineId: int, productId: int, qty: real): (req: CartUpdate)
    ensures req.lineId == lineId && req.productId == productId
    // nothing between zero and the threshold is ever sent
    ensures req.setQty == 0.0 || req.setQty >= MinQty
    ensures qty >= MinQty ==> req.setQty == qty
    ensures qty < MinQty ==> req.setQty == 0.0
  {
    UpdateJson(lineId, productId, if qty < MinQty then 0.0 else qty)
  }

  /** The request sent when a line's delete icon is clicked. */
  function OnClickDeleteProduct(lineId: int, productId: int): (req: CartUpdate)
    ensures req.setQty == 0.0
    // deleting is the same request as typing any quantity below the threshold
    ensures forall qty: real :: qty < MinQty ==> req == OnChangeQty(lineId, productId, qty)
  {
    UpdateJson(lineId, productId, 0.0)
  }

  /** An empty cart reloads the page; otherwise the totals are re-rendered. */
  function ValidateCartQty(response: CartResponse): (effects: seq<Effect>)
    ensures |effects| == 1
    ensures effects == [Reload] <==> response.cartQuantity.None?
    ensures effects == [RerenderConfirmation] <==> response.cartQuantity.Some?
  {
    if response.cartQuantity.None? then [Reload] else [RerenderConfirmation]
  }

  /**
   * A quantity change, once answered: the carrier checked when the change was
   * made is set again (recomputing shipping), then the cart is checked.
   */
  function OnChangeQtyAnswered(carrierId: Option<string>, response: CartResponse): (effects: seq<Effect>)
    ensures |effects| == 2 && effects[0] == SetCarrier(carrierId)
    ensures Reload in effects <==> response.cartQuantity.None?
    ensures RerenderConfirmation in effects <==> response.cartQuantity.Some?
  {
    [SetCarrier(carrierId)] + ValidateCartQty(response)
  }

  /** A deletion, once answered: only the cart check, no carrier recomputation. */
  function OnClickDeleteProductAnswered(response: CartResponse): (effects: seq<Effect>)
    ensures forall c :: SetCarrier(c) !in effects
    ensures Reload in effects <==> response.cartQuantity.None?
    ensures RerenderConfirmation in effects <==> response.cartQuantity.Some?
  {
    ValidateCartQty(response)
  }

}
