/**
 * The shipping-address cards and their "select this address" toggle
 * (checkout/static/src/js/checkout.js, `_onClickSelectAddress`).  The cards
 * of the `.all_shippings` container are an array updated in place.
 */
module ShippingCards {

  /**
   * The classes of one card: `border-primary` marks the selected address,
   * `js_change_shipping` an address that can be selected; `shipButtonShown`
   * is the visibility of its "ship to this address" button.
   */
  datatype Card = Card(borderPrimary: bool, changeShipping: bool, shipButtonShown: bool)

  /** The previously selected card loses the mark and becomes selectable again. */
  function Deselected(c: Card): (d: Card)
    ensures !d.borderPrimary
    ensures c.borderPrimary ==> d.changeShipping && d.shipButtonShown == !c.shipButtonShown
    ensures !c.borderPrimary ==> d == c
  {
    if c.borderPrimary then Card(false, true, !c.shipButtonShown) else c
  }

  /** The clicked card takes the mark. */
  function Selected(c: Card): (d: Card)
    ensures d.borderPrimary && !d.changeShipping
    ensures d.shipButtonShown == !c.shipButtonShown
  {
    Card(true, false, !c.shipButtonShown)
  }

  /** The cards after card `k` is clicked: every marked card is cleared, then `k` is marked. */
  function SelectAt(cards: seq<Card>, k: nat): (r: seq<Card>)
    requires k < |cards|
    ensures |r| == |cards|
    // the clicked card ends marked, and no other card does
    ensures r[k].borderPrimary && !r[k].changeShipping
    ensures forall i :: 0 <= i < |cards| && i != k ==> !r[i].borderPrimary
    // every other card is deselected; one that was not marked is untouched
    ensures forall i :: 0 <= i < |cards| && i != k ==> r[i] == Deselected(cards[i])
    ensures forall i :: 0 <= i < |cards| && i != k && !cards[i].borderPrimary ==> r[i] == cards[i]
  {
    seq(|cards|, i requires 0 <= i < |cards| => if i == k then Selected(Deselected(cards[k])) else Deselected(cards[i]))
  }

  /** The number of cards marked selected. */
  function SelectedCount(cards: seq<Card>): nat {
    if cards == [] then 0
    else (if cards[0].borderPrimary then 1 else 0) + SelectedCount(cards[1..])
  }

  /** A card shows its ship button and is selectable exactly when it is not the selected one. */
  predicate Consistent(c: Card) {
    c.borderPrimary != c.changeShipping && c.shipButtonShown == c.changeShipping
  }

  lemma {:induction false} NoneSelected(cards: seq<Card>)
    requires forall i :: 0 <= i < |cards| ==> !cards[i].borderPrimary
    ensures SelectedCount(cards) == 0
  {
    if cards != [] {
      NoneSelected(cards[1..]);
    }
  }

  /** A sequence in which exactly the card at `k` is marked holds one selected card. */
  lemma {:induction false} OnlyOneSelected(cards: seq<Card>, k: nat)
    requires k < |cards|
    requires forall i :: 0 <= i < |cards| ==> (cards[i].borderPrimary <==> i == k)
    ensures SelectedCount(cards) == 1
  {
    if k == 0 {
      NoneSelected(cards[1..]);
    } else {
      OnlyOneSelected(cards[1..], k - 1);
    }
  }

  /**
   * Whatever the cards looked like, after a click exactly one card is
   * selected, the clicked one, and each consistent card stays consistent.
   */
  lemma SelectLeavesOneSelected(cards: seq<Card>, k: nat)
    requires k < |cards|
    ensures SelectAt(cards, k)[k].borderPrimary
    ensures SelectedCount(SelectAt(cards, k)) == 1
    ensures forall i :: 0 <= i < |cards| && Consistent(cards[i]) ==> Consistent(SelectAt(cards, k)[i])
  {
    OnlyOneSelected(SelectAt(cards, k), k);
  }

  /** The click handler's class toggling, before the selected address is posted. */
  method SelectAddress(cards: array<Card>, k: nat)
    requires k < cards.Length
    modifies cards
    ensures cards[..] == SelectAt(old(cards[..]), k)
  {
    var i := 0;
    while i < cards.Length
      invariant 0 <= i <= cards.Length
      invariant forall j :: 0 <= j < i ==> cards[j] == Deselected(old(cards[j]))
      invariant forall j :: i <= j < cards.Length ==> cards[j] == old(cards[j])
    {
      if cards[i].borderPrimary {
        cards[i] := Deselected(cards[i]);
      }
      i := i + 1;
    }
    cards[k] := Selected(cards[k]);
  }

}
