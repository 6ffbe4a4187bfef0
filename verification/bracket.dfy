/** `IbkrApi.BracketOrder`: a parent limit order bracketed by a take-profit
limit order and a stop-loss stop order on the opposite side. Only the `Order`
fields the wrapper sets are modelled; a field it leaves alone is `None`
("still at `Order()`'s default"). Quantities and prices are passed through
untouched, so they are carried as `real` without arithmetic.
 */
module Bracket {
  import opened Outcome

  datatype Order = Order(
    orderId: int,
    action: string,
    orderType: string,
    totalQuantity: real,
    lmtPrice: Option<real>,
    auxPrice: Option<real>,
    parentId: Option<int>,
    transmit: bool)

  /** The child side: `"SELL" if action == "BUY" else "BUY"`. */
  function ChildAction(action: string): string {
    if action == "BUY" then "SELL" else "BUY"
  }

  /** `BracketOrder(parentOrderId, action, quantity, limitPrice,
      takeProfitLimitPrice, stopLossPrice)`: three linked orders with ids
      `p`, `p + 1`, `p + 2` (not reduced modulo the order-id range); only the
      last one transmits, releasing the whole group. */
  function BracketOrder(parentOrderId: int, action: string, quantity: real,
                        limitPrice: real, takeProfitLimitPrice: real,
                        stopLossPrice: real): (r: seq<Order>)
    ensures |r| == 3
    ensures forall k :: 0 <= k < 3 ==> r[k].orderId == parentOrderId + k
    ensures forall k :: 0 <= k < 3 ==> r[k].totalQuantity == quantity
    ensures r[0].action == action && r[0].parentId.None?
    ensures forall k :: 1 <= k < 3 ==> r[k].parentId == Some(parentOrderId)
    ensures forall k :: 1 <= k < 3 ==> (r[k].action == "SELL" <==> action == "BUY")
    ensures forall k :: 1 <= k < 3 ==> (r[k].action == "BUY" <==> action != "BUY")
    ensures forall k :: 0 <= k < 3 ==> (r[k].transmit <==> k == 2)
    ensures r[0].orderType == "LMT" && r[1].orderType == "LMT" && r[2].orderType == "STP"
    ensures r[0].lmtPrice == Some(limitPrice) && r[1].lmtPrice == Some(takeProfitLimitPrice)
    ensures r[2].auxPrice == Some(stopLossPrice) && r[2].lmtPrice.None?
    ensures r[0].auxPrice.None? && r[1].auxPrice.None?
  {
    var parent := Order(parentOrderId, action, "LMT", quantity, Some(limitPrice), None, None, false);
    var takeProfit := Order(parentOrderId + 1, ChildAction(action), "LMT", quantity,
                            Some(takeProfitLimitPrice), None, Some(parentOrderId), false);
    var stopLoss := Order(parentOrderId + 2, ChildAction(action), "STP", quantity,
                          None, Some(stopLossPrice), Some(parentOrderId), true);
    [parent, takeProfit, stopLoss]
  }

  /** The arguments of a `BracketOrder` call. */
  datatype BracketArgs = BracketArgs(
    parentOrderId: int,
    action: string,
    quantity: real,
    limitPrice: real,
    takeProfitLimitPrice: real,
    stopLossPrice: real)

  /** The shape of a bracket, stated on the orders' fields alone: three
      orders with consecutive ids, types LMT/LMT/STP, only the last one
      transmitting, one quantity, the children attached to the parent and on
      its opposite side, and exactly the price fields `BracketOrder` sets. */
  predicate IsBracket(orders: seq<Order>) {
    && |orders| == 3
    && orders[1].orderId == orders[0].orderId + 1
    && orders[2].orderId == orders[0].orderId + 2
    && orders[0].orderType == "LMT" && orders[1].orderType == "LMT" && orders[2].orderType == "STP"
    && !orders[0].transmit && !orders[1].transmit && orders[2].transmit
    && orders[1].totalQuantity == orders[0].totalQuantity
    && orders[2].totalQuantity == orders[0].totalQuantity
    && orders[0].parentId.None?
    && orders[1].parentId == Some(orders[0].orderId)
    && orders[2].parentId == Some(orders[0].orderId)
    && orders[1].action == ChildAction(orders[0].action)
    && orders[2].action == ChildAction(orders[0].action)
    && orders[0].lmtPrice.Some? && orders[0].auxPrice.None?
    && orders[1].lmtPrice.Some? && orders[1].auxPrice.None?
    && orders[2].lmtPrice.None? && orders[2].auxPrice.Some?
  }

  /** Reads the call's arguments back from a list of orders that has the
      shape of a bracket. */
  function RecoverBracket(orders: seq<Order>): Option<BracketArgs> {
    if IsBracket(orders) then
      Some(BracketArgs(orders[0].orderId, orders[0].action, orders[0].totalQuantity,
                       orders[0].lmtPrice.value, orders[1].lmtPrice.value,
                       orders[2].auxPrice.value))
    else None
  }

  function BracketOf(args: BracketArgs): seq<Order> {
    BracketOrder(args.parentOrderId, args.action, args.quantity, args.limitPrice,
                 args.takeProfitLimitPrice, args.stopLossPrice)
  }

  /** Every bracket gives back the arguments it was built from, so distinct
      calls build distinct brackets. */
  lemma RecoverBracketOrder(args: BracketArgs)
    ensures RecoverBracket(BracketOf(args)) == Some(args)
  {
  }

  /** The field-wise shape is exactly what `BracketOrder` builds: a list has
      it if and only if it is the bracket of the arguments read from its
      fields, and so if and only if some call builds it. */
  lemma BracketOrderRecovered(orders: seq<Order>)
    ensures IsBracket(orders) <==> RecoverBracket(orders).Some? && BracketOf(RecoverBracket(orders).value) == orders
    ensures IsBracket(orders) <==> exists args :: BracketOf(args) == orders
  {
  }

  /** For the two documented sides the children take the opposite side; any
      other action string (for instance lower-case `"buy"`) gives children
      that BUY. */
  lemma ChildrenTakeOppositeSide(action: string)
    ensures action == "BUY" || action == "SELL" ==> ChildAction(action) != action
    ensures action != "BUY" ==> ChildAction(action) == "BUY"
    ensures ChildAction(action) == "BUY" || ChildAction(action) == "SELL"
  {
  }
}
