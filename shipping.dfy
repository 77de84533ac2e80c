/** The shipping-eligibility filter (`check_shipping_states`): orders bound
    for an excluded state are moved to the international account that
    substitutes for their dropshipper, or set aside when there is none. */
module Shipping {
  import opened Common
  import opened Aggregation

  /** `po_obj["state"] in excluded_shipping_states`: an unresolved (None)
      state is never excluded. */
  predicate Excluded(po: PO, excluded: set<string>)
  {
    po.state.Some? && po.state.value in excluded
  }

  /** Order `n` sits where the filter puts it: shippable unchanged when its
      state is not excluded, shippable under the substitute account when
      one exists, and otherwise unable to ship, unchanged. */
  predicate Placed(orders: map<string, PO>, excluded: set<string>, intl: map<int, int>,
                   unable: map<string, PO>, shippable: map<string, PO>, n: string)
    requires n in orders
  {
    var po := orders[n];
    if !Excluded(po, excluded) then
      n in shippable && n !in unable && shippable[n] == po
    else if po.dropshipperId in intl then
      n in shippable && n !in unable && shippable[n] == po.(dropshipperId := intl[po.dropshipperId])
    else
      n in unable && n !in shippable && unable[n] == po
  }

  /** `check_shipping_states`: one pass over the orders. The two results
      split the orders between them, and each order is placed as `Placed`
      says. */
  method CheckShippingStates(orders: map<string, PO>, excluded: set<string>, intl: map<int, int>)
    returns (unable: map<string, PO>, shippable: map<string, PO>)
    ensures unable.Keys !! shippable.Keys
    ensures unable.Keys + shippable.Keys == orders.Keys
    ensures forall n :: n in orders ==> Placed(orders, excluded, intl, unable, shippable, n)
  {
    unable, shippable := map[], map[];
    var remaining := orders.Keys;
    while remaining != {}
      invariant remaining <= orders.Keys
      invariant unable.Keys !! shippable.Keys
      invariant unable.Keys + shippable.Keys == orders.Keys - remaining
      invariant forall n :: n in orders && n !in remaining ==> Placed(orders, excluded, intl, unable, shippable, n)
      decreases |remaining|
    {
      var n :| n in remaining;
      var po := orders[n];
      if !Excluded(po, excluded) {
        shippable := shippable[n := po];
      } else if po.dropshipperId in intl {
        shippable := shippable[n := po.(dropshipperId := intl[po.dropshipperId])];
      } else {
        unable := unable[n := po];
      }
      remaining := remaining - {n};
    }
  }

  /** No order is lost or duplicated: the two results together are as many
      as the orders. */
  lemma SplitSizes(orders: map<string, PO>, unable: map<string, PO>, shippable: map<string, PO>)
    requires unable.Keys !! shippable.Keys
    requires unable.Keys + shippable.Keys == orders.Keys
    ensures |unable| + |shippable| == |orders|
  {
    assert unable.Keys * shippable.Keys == {};
    assert |unable.Keys + shippable.Keys| == |unable.Keys| + |shippable.Keys|;
  }
}
