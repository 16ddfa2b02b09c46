/** The cart page: the lines of the fetched cart, their total, and the
    requests its quantity selectors and remove buttons send. */
module CartPage {
  import opened Opt
  import opened ApiDto

  /** `data?.cart ?? []`. */
  function CartLines(data: Option<CartResponseDto>): (lines: seq<CartItemDto>)
    ensures data.Some? && data.value.cart.Some? ==> lines == data.value.cart.value
    ensures data.None? || data.value.cart.None? ==> lines == []
  {
    if data.Some? && data.value.cart.Some? then data.value.cart.value else []
  }

  /** The empty state is shown exactly when there are no lines. */
  predicate ShowsEmptyState(lines: seq<CartItemDto>) {
    |lines| == 0
  }

  /** `(item.product?.price ?? 0) * (item.quantity ?? 0)`. */
  function LineAmount(item: CartItemDto): (a: int)
    ensures item.product.None? || item.product.value.price.None? || item.quantity.None? ==> a == 0
    ensures item.product.Some? && item.product.value.price.Some? && item.quantity.Some? ==>
              a == item.product.value.price.value * item.quantity.value
  {
    var price := if item.product.Some? then item.product.value.price.GetOr(0) else 0;
    price * item.quantity.GetOr(0)
  }

  /** The sum of the line amounts. */
  function Amount(lines: seq<CartItemDto>): int {
    if |lines| == 0 then 0 else LineAmount(lines[0]) + Amount(lines[1..])
  }

  /** `cart.reduce((sum, item) => sum + price * qty, acc)`. */
  function ReduceTotal(acc: int, lines: seq<CartItemDto>): int
    decreases |lines|
  {
    if |lines| == 0 then acc else ReduceTotal(acc + LineAmount(lines[0]), lines[1..])
  }

  lemma {:induction false} ReduceTotalIsAmount(acc: int, lines: seq<CartItemDto>)
    ensures ReduceTotal(acc, lines) == acc + Amount(lines)
    decreases |lines|
  {
    if |lines| > 0 {
      ReduceTotalIsAmount(acc + LineAmount(lines[0]), lines[1..]);
    }
  }

  /** The page's `total`. */
  function Total(data: Option<CartResponseDto>): (t: int)
    ensures t == Amount(CartLines(data))
    ensures CartLines(data) == [] ==> t == 0
  {
    ReduceTotalIsAmount(0, CartLines(data));
    ReduceTotal(0, CartLines(data))
  }

  /** `handleQuantityChange(id, productId, quantity)`: nothing is sent when the
      product id is missing or empty, or the quantity missing or 0. */
  function QuantityChange(productId: Option<string>, quantity: Option<int>): (r: Option<CartRequest>)
    ensures r.Some? <==> Truthy(productId) && quantity.Some? && quantity.value != 0
    ensures r.Some? ==> r.value == CartRequest(productId.value, quantity.value)
  {
    if !Truthy(productId) || quantity.None? || quantity.value == 0 then None
    else Some(CartRequest(productId.value, quantity.value))
  }

  /** The selector of a line reports `value`: the request names the line's
      product, never the line's own id. */
  function OnQuantityChange(item: CartItemDto, value: int): (r: Option<CartRequest>)
    ensures r.Some? ==> Some(r.value.productId) == ProductIdOf(item) && r.value.quantity == value
    ensures r.Some? <==> Truthy(ProductIdOf(item)) && value != 0
  {
    QuantityChange(ProductIdOf(item), Some(value))
  }

  /** `handleRemove(id)`: the line id to delete, unless missing or empty. */
  function RemoveRequest(item: CartItemDto): (r: Option<string>)
    ensures r.Some? <==> Truthy(item.id)
    ensures r.Some? ==> Some(r.value) == item.id
  {
    if Truthy(item.id) then item.id else None
  }

  /** The value given to a line's selector: `item.quantity ?? 1`. */
  function DisplayQuantity(item: CartItemDto): (q: int)
    ensures item.quantity.Some? ==> q == item.quantity.value
    ensures item.quantity.None? ==> q == 1
  {
    item.quantity.GetOr(1)
  }
}
