/** The order history page: one card per order, labelled with the end of its
    id, listing each line with its amount. */
module OrdersPage {
  import opened Opt
  import opened ApiDto
  import Text

  /** `data ?? []`. */
  function OrdersList(data: Option<seq<OrderDto>>): (orders: seq<OrderDto>)
    ensures data.Some? ==> orders == data.value
    ensures data.None? ==> orders == []
  {
    data.GetOr([])
  }

  /** The empty state is shown exactly when there are no orders. */
  predicate ShowsEmptyState(orders: seq<OrderDto>) {
    |orders| == 0
  }

  /** `(item.priceAtOrder ?? 0) * (item.quantity ?? 0)`. */
  function LineAmount(item: OrderItemDto): (a: int)
    ensures item.priceAtOrder.None? || item.quantity.None? ==> a == 0
    ensures item.priceAtOrder.Some? && item.quantity.Some? ==> a == item.priceAtOrder.value * item.quantity.value
  {
    item.priceAtOrder.GetOr(0) * item.quantity.GetOr(0)
  }

  /** `Qty: {item.quantity ?? 0}`. */
  function DisplayQuantity(item: OrderItemDto): (q: int)
    ensures item.quantity.Some? ==> q == item.quantity.value
    ensures item.quantity.None? ==> q == 0
  {
    item.quantity.GetOr(0)
  }

  /** The lines listed for an order: none when `items` is missing. */
  function ItemsShown(order: OrderDto): seq<OrderItemDto> {
    order.items.GetOr([])
  }

  /** The sum of the line amounts of a card. */
  function Amount(items: seq<OrderItemDto>): int {
    if |items| == 0 then 0 else LineAmount(items[0]) + Amount(items[1..])
  }

  /** `s.slice(-8)`: the last eight characters, or all of a shorter string. */
  function LastEight(s: string): (t: string)
    ensures |t| == (if |s| < 8 then |s| else 8)
    ensures t == s[|s| - |t|..]
  {
    if |s| < 8 then s else s[|s| - 8..]
  }

  /** `order._id?.slice(-8).toUpperCase()`: the last eight characters (all of a
      shorter id) upper-cased; nothing when the id is missing. */
  function OrderLabel(id: Option<string>): (tag: string)
    ensures id.None? ==> tag == ""
    ensures id.Some? ==> |tag| == |LastEight(id.value)| && forall i :: 0 <= i < |tag| ==>
              tag[i] == Text.UpperChar(id.value[|id.value| - |tag| + i])
  {
    if id.None? then ""
    else
      var t := LastEight(id.value);
      var u := Text.ToUpper(t);
      assert forall i :: 0 <= i < |t| ==> t[i] == id.value[|id.value| - |t| + i];
      u
  }

  /** The label of an ObjectId is eight upper-case hex digits, and lower-casing
      it gives back the end of the id. */
  lemma LabelOfObjectId(id: string)
    requires |id| == 24 && forall i :: 0 <= i < 24 ==> '0' <= id[i] <= '9' || 'a' <= id[i] <= 'f'
    ensures var tag := OrderLabel(Some(id));
            && |tag| == 8
            && (forall i :: 0 <= i < 8 ==> '0' <= tag[i] <= '9' || 'A' <= tag[i] <= 'F')
            && Text.ToLower(tag) == id[16..]
  {
    var tag := OrderLabel(Some(id));
    forall i | 0 <= i < 8
      ensures ('0' <= tag[i] <= '9' || 'A' <= tag[i] <= 'F') && Text.LowerChar(tag[i]) == id[16 + i]
    {
      assert tag[i] == Text.UpperChar(id[16 + i]);
    }
  }
}
