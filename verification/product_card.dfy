/** `ProductCard`: how many of a product the cart already holds, and what the
    add-to-cart button does with it. */
module ProductCard {
  import opened Opt
  import opened ApiDto

  /** `cart.find(item => item.product?._id === productId)`: the first line whose
      product id equals `productId` (two absent ids are equal too). */
  function FindItem(cart: seq<CartItemDto>, productId: Option<string>): (r: Option<nat>)
    ensures r.Some? ==> r.value < |cart| && ProductIdOf(cart[r.value]) == productId
                        && forall j :: 0 <= j < r.value ==> ProductIdOf(cart[j]) != productId
    ensures r.None? <==> forall j :: 0 <= j < |cart| ==> ProductIdOf(cart[j]) != productId
  {
    if |cart| == 0 then None
    else if ProductIdOf(cart[0]) == productId then Some(0)
    else
      match FindItem(cart[1..], productId)
      case None => None
      case Some(j) => Some(j + 1)
  }

  /** `cartItem?.quantity || 0`, over `cartData?.cart`. */
  function QuantityInCart(cartData: Option<CartResponseDto>, productId: Option<string>): (q: int)
    ensures cartData.None? || cartData.value.cart.None? ==> q == 0
    ensures cartData.Some? && cartData.value.cart.Some? ==>
              var cart := cartData.value.cart.value;
              var i := FindItem(cart, productId);
              && (i.None? ==> q == 0)
              && (i.Some? ==> q == OrElse(cart[i.value].quantity, 0))
  {
    if cartData.None? || cartData.value.cart.None? then 0
    else
      var cart := cartData.value.cart.value;
      match FindItem(cart, productId)
      case None => 0
      case Some(i) => OrElse(cart[i].quantity, 0)
  }

  /** What a click on the add-to-cart button does. */
  datatype AddEffect =
    | Ignore                       // the product has no id
    | RedirectToLogin(url: string) // nobody signed in: no request is sent
    | RequestUpsert(req: CartRequest)

  const LoginRedirect: string := "/login?redirect="
  const ProductPath: string := "/products/"

  /** `handleAddToCart`. */
  function AddToCart(product: ProductDto, isAuthenticated: bool, cartData: Option<CartResponseDto>)
    : (e: AddEffect)
    ensures !Truthy(product.id) ==> e == Ignore
    ensures Truthy(product.id) && !isAuthenticated ==> e == RedirectToLogin(LoginRedirect + ProductPath + product.id.value)
    ensures e.RequestUpsert? <==> Truthy(product.id) && isAuthenticated
    ensures e.RequestUpsert? ==>
              e.req == CartRequest(product.id.value, QuantityInCart(cartData, product.id) + 1)
  {
    if !Truthy(product.id) then Ignore
    else if !isAuthenticated then RedirectToLogin(LoginRedirect + ProductPath + product.id.value)
    else RequestUpsert(CartRequest(product.id.value, QuantityInCart(cartData, product.id) + 1))
  }

  /** The "in Cart" badge. */
  predicate ShowsInCartBadge(quantityInCart: int) {
    quantityInCart > 0
  }

  /** The button's label. */
  function ButtonLabel(quantityInCart: int): (s: string)
    ensures s == "Add Another" <==> ShowsInCartBadge(quantityInCart)
    ensures s == "Add to Cart" <==> !ShowsInCartBadge(quantityInCart)
  {
    if quantityInCart > 0 then "Add Another" else "Add to Cart"
  }

  /** The quantity requested is never below 1 while the cart holds no negative
      quantity, so the request passes the validator. */
  lemma RequestIsValid(product: ProductDto, cartData: Option<CartResponseDto>)
    requires Truthy(product.id)
    requires cartData.Some? && cartData.value.cart.Some? ==>
               forall j :: 0 <= j < |cartData.value.cart.value| ==> cartData.value.cart.value[j].quantity.GetOr(0) >= 0
    ensures var e := AddToCart(product, true, cartData);
            e.RequestUpsert? && e.req.productId != "" && e.req.quantity >= 1
  {
    if cartData.Some? && cartData.value.cart.Some? {
      var cart := cartData.value.cart.value;
      var i := FindItem(cart, product.id);
      if i.Some? {
        assert cart[i.value].quantity.GetOr(0) >= 0;
      }
    }
  }
}
