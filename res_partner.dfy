/**
 * The address-mode rule and the order binding of the checkout's partner model
 * (checkout/model/res_partner.py).  Partners are their integer ids; an empty
 * partner field reads as 0, as an empty recordset's `id` (False) compares in Python.
 */
module ResPartner {

  /** The result of `check_mode`: the empty tuple, or the pair (create, ship). */
  datatype AddressMode = Forbidden | Mode(create: string, ship: string)

  /**
   * Classifies the address a visitor submits.  `commercialChildren` are the ids
   * of the partners that are `child_of` the commercial partner of the order's
   * customer; the caller passes -1 when the form carries no partner id.
   */
  function CheckMode(partnerId: int, orderPartnerId: int, publicPartnerId: int,
                     commercialChildren: set<int>): (m: AddressMode)
    // a foreign, positive id that is not a contact of the customer is refused
    ensures m.Forbidden? <==>
      partnerId > 0 && partnerId != orderPartnerId && partnerId !in commercialChildren
    // "edit" exactly for a positive id of a signed-in customer, "new" otherwise
    ensures m.Mode? ==> (m.create == "edit" || m.create == "new")
    ensures m.Mode? ==> (m.create == "edit" <==> orderPartnerId != publicPartnerId && partnerId > 0)
    // "shipping" for a new contact (-1) or for another positive id, "billing" otherwise
    ensures m.Mode? ==> (m.ship == "shipping" || m.ship == "billing")
    ensures m.Mode? ==>
      (m.ship == "shipping" <==> partnerId == -1 || (partnerId > 0 && partnerId != orderPartnerId))
    // the same rule, case by case: the caller's default id asks for a new shipping address
    ensures partnerId == -1 ==> m == Mode("new", "shipping")
    ensures partnerId == 0 || partnerId < -1 ==> m == Mode("new", "billing")
    // the customer itself is edited as the billing address, unless it is the public user
    ensures partnerId > 0 && partnerId == orderPartnerId ==>
      m == Mode(if orderPartnerId != publicPartnerId then "edit" else "new", "billing")
    // one of the customer's contacts is a shipping address
    ensures partnerId > 0 && partnerId != orderPartnerId && partnerId in commercialChildren ==>
      m == Mode(if orderPartnerId != publicPartnerId then "edit" else "new", "shipping")
  {
    if partnerId !in commercialChildren && partnerId != orderPartnerId && partnerId > 0 then
      Forbidden
    else
      var ship := if partnerId == -1 || (partnerId != orderPartnerId && partnerId > 0)
                  then "shipping" else "billing";
      var create := if orderPartnerId != publicPartnerId && partnerId > 0 then "edit" else "new";
      Mode(create, ship)
  }

  /** The two fields of a sale order that `bind_partner` writes. */
  class SaleOrder {
    var partnerId: int
    var partnerShippingId: int

    constructor (partner: int, shipping: int)
      ensures partnerId == partner && partnerShippingId == shipping
    {
      partnerId := partner;
      partnerShippingId := shipping;
    }
  }

  /**
   * Binds `partnerId` to `order` as billing or shipping partner, as `mode.1`
   * says.  `existing` are the ids of the partner records that exist;
   * `onchangeShipping` is whatever shipping partner the order's
   * `onchange_partner_id` picks after the billing partner changed.
   */
  method BindPartner(order: SaleOrder, existing: set<int>, mode: (string, string),
                     partnerId: int, onchangeShipping: int) returns (bound: bool)
    modifies order
    ensures bound <==> partnerId in existing
    ensures !bound ==> unchanged(order)
    ensures bound && mode.1 == "shipping" ==>
      order.partnerId == old(order.partnerId) && order.partnerShippingId == partnerId
    ensures bound && mode.1 == "billing" ==> order.partnerId == partnerId
    // editing the billing partner keeps the shipping address chosen before
    ensures bound && mode.1 == "billing" && mode.0 != "new" ==>
      order.partnerShippingId == old(order.partnerShippingId)
    ensures bound && mode.1 == "billing" && mode.0 == "new" ==>
      order.partnerShippingId == onchangeShipping
    ensures mode.1 != "billing" && mode.1 != "shipping" ==> unchanged(order)
  {
    if partnerId !in existing {
      return false;
    }
    var currentShipping := order.partnerShippingId;
    if mode.1 == "billing" {
      order.partnerId := partnerId;
      order.partnerShippingId := onchangeShipping;
    } else if mode.1 == "shipping" {
      order.partnerShippingId := partnerId;
    }
    if mode.1 == "billing" && mode.0 != "new" {
      order.partnerShippingId := currentShipping;
    }
    return true;
  }

}
