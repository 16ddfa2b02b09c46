/** The JSON shapes the frontend reads and writes (`ProductDto`, `CartItemDto`,
    `OrderDto`, ...): every field optional, as declared on the client. Also the
    JSON the backend sends for its documents, and JavaScript's two defaulting
    operators on optional fields. */
module ApiDto {
  import opened Opt
  import opened Records
  import CC = CartController
  import CV = CartValidator

  datatype UserDto = UserDto(id: Option<string>, name: Option<string>, email: Option<string>)

  datatype AuthResponseDto = AuthResponseDto(user: Option<UserDto>, token: Option<string>)

  datatype ProductDto = ProductDto(id: Option<string>, title: Option<string>, price: Option<int>,
                                   description: Option<string>, image: Option<string>)

  datatype CartItemDto = CartItemDto(id: Option<string>, product: Option<ProductDto>, quantity: Option<int>)

  datatype CartResponseDto = CartResponseDto(cart: Option<seq<CartItemDto>>)

  datatype OrderItemDto = OrderItemDto(product: Option<ProductDto>, quantity: Option<int>, priceAtOrder: Option<int>)

  datatype OrderDto = OrderDto(id: Option<string>, user: Option<string>, items: Option<seq<OrderItemDto>>,
                               totalPrice: Option<int>)

  /** The body of a cart request, `{ productId, quantity }`. */
  datatype CartRequest = CartRequest(productId: string, quantity: int)

  // ---------------------------------------------------------------------------
  // JavaScript defaults
  // ---------------------------------------------------------------------------

  /** `x || d` on an optional number: `undefined` and `0` are falsy. */
  function OrElse(x: Option<int>, d: int): (r: int)
    ensures x.Some? && x.value != 0 ==> r == x.value
    ensures x.None? || x.value == 0 ==> r == d
  {
    if x.Some? && x.value != 0 then x.value else d
  }

  /** With default 0 the two operators agree: `x || 0` is `x ?? 0`. */
  lemma OrElseZero(x: Option<int>)
    ensures OrElse(x, 0) == x.GetOr(0)
  {
  }

  /** `!!s` on an optional string: present and non-empty. */
  predicate Truthy(s: Option<string>) {
    s.Some? && s.value != ""
  }

  /** `item.product?._id`. */
  function ProductIdOf(item: CartItemDto): (r: Option<string>)
    ensures item.product.None? ==> r.None?
    ensures item.product.Some? ==> r == item.product.value.id
  {
    if item.product.None? then None else item.product.value.id
  }

  // ---------------------------------------------------------------------------
  // What the backend sends
  // ---------------------------------------------------------------------------

  function ProductJson(p: Product): (d: ProductDto)
    ensures d.id == Some(p.id) && d.price == Some(p.price) && d.title == Some(p.title)
  {
    ProductDto(Some(p.id), Some(p.title), Some(p.price), Some(p.description), Some(p.image))
  }

  /** `{ cart: user.cart }` with the products joined. */
  function CartJson(lines: seq<CC.PopulatedLine>): (d: CartResponseDto)
    ensures d.cart.Some? && |d.cart.value| == |lines|
    ensures forall i :: 0 <= i < |lines| ==>
              && d.cart.value[i].id == Some(lines[i].id)
              && d.cart.value[i].quantity == Some(lines[i].quantity)
              && (d.cart.value[i].product.Some? <==> lines[i].product.Some?)
              && (lines[i].product.Some? ==> d.cart.value[i].product == Some(ProductJson(lines[i].product.value)))
  {
    CartResponseDto(Some(seq(|lines|, i requires 0 <= i < |lines| => LineJson(lines[i]))))
  }

  function LineJson(l: CC.PopulatedLine): CartItemDto {
    CartItemDto(Some(l.id), if l.product.Some? then Some(ProductJson(l.product.value)) else None, Some(l.quantity))
  }

  /** An order as `populate("items.product")` sends it: each line's product
      joined from the catalogue, null when it no longer exists. */
  function OrderJson(o: Order, products: map<Id, Product>): (d: OrderDto)
    ensures d.id == Some(o.id) && d.user == Some(o.user) && d.totalPrice == Some(o.totalPrice)
    ensures d.items.Some? && |d.items.value| == |o.items|
    ensures forall i :: 0 <= i < |o.items| ==>
              && d.items.value[i].quantity == Some(o.items[i].quantity)
              && d.items.value[i].priceAtOrder == Some(o.items[i].priceAtOrder)
              && (d.items.value[i].product.Some? <==> o.items[i].product in products)
  {
    OrderDto(Some(o.id), Some(o.user), Some(seq(|o.items|, i requires 0 <= i < |o.items| => OrderItemJson(o.items[i], products))),
             Some(o.totalPrice))
  }

  function OrderItemJson(item: OrderItem, products: map<Id, Product>): OrderItemDto {
    OrderItemDto(if item.product in products then Some(ProductJson(products[item.product])) else None,
                 Some(item.quantity), Some(item.priceAtOrder))
  }

  /** The body of a cart request as the validator receives it: the product id
      a string and the quantity a finite number. */
  function RequestBody(req: CartRequest): (b: CV.RawCartBody)
    ensures b.productId == Some(req.productId) && b.quantity == CV.JsNumber.Finite(req.quantity as real)
  {
    CV.RawCartBody(Some(req.productId), CV.JsNumber.Finite(req.quantity as real))
  }

  /** A request with a non-empty product id and a quantity of at least 1 passes
      the validator unchanged. */
  lemma RequestAccepted(req: CartRequest)
    requires req.productId != "" && req.quantity >= 1
    ensures CV.Validate(RequestBody(req)) == Ok(CV.CartBody(req.productId, req.quantity))
  {
    assert CV.IsInteger(RequestBody(req).quantity) by {
      assert (req.quantity as real).Floor == req.quantity;
    }
  }
}
