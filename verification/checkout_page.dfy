/** The checkout page: an empty-cart notice, or the order summary with one
    amount per line, the subtotal, free shipping and the total. */
module CheckoutPage {
  import opened Opt
  import opened ApiDto
  import CartPage

  /** `(item.product?.price || 0) * (item.quantity || 0)`. */
  function LineAmount(item: CartItemDto): int {
    OrElse(if item.product.Some? then item.product.value.price else None, 0) * OrElse(item.quantity, 0)
  }

  /** `cart.cart.reduce((acc, item) => acc + LineAmount(item), acc)`. */
  function ReduceSubtotal(acc: int, lines: seq<CartItemDto>): int
    decreases |lines|
  {
    if |lines| == 0 then acc else ReduceSubtotal(acc + LineAmount(lines[0]), lines[1..])
  }

  /** The sum of a sequence of amounts. */
  function Sum(xs: seq<int>): int {
    if |xs| == 0 then 0 else xs[0] + Sum(xs[1..])
  }

  datatype View =
    | EmptyCart
    | Summary(amounts: seq<int>, subtotal: int, shipping: int, total: int)

  const Shipping: int := 0

  /** The page once the cart has loaded. */
  function Checkout(cart: Option<CartResponseDto>): (v: View)
    ensures v.EmptyCart? <==> cart.None? || cart.value.cart.None? || |cart.value.cart.value| == 0
    ensures v.Summary? ==>
              var lines := cart.value.cart.value;
              && |v.amounts| == |lines|
              && (forall i :: 0 <= i < |lines| ==> v.amounts[i] == LineAmount(lines[i]))
              && v.subtotal == Sum(v.amounts)
              && v.shipping == 0 && v.total == v.subtotal
  {
    if cart.None? || cart.value.cart.None? || |cart.value.cart.value| == 0 then EmptyCart
    else
      var lines := cart.value.cart.value;
      var amounts := seq(|lines|, i requires 0 <= i < |lines| => LineAmount(lines[i]));
      var subtotal := ReduceSubtotal(0, lines);
      SubtotalIsSum(0, lines);
      Summary(amounts, subtotal, Shipping, subtotal + Shipping)
  }

  /** The subtotal is the sum of the displayed line amounts. */
  lemma {:induction false} SubtotalIsSum(acc: int, lines: seq<CartItemDto>)
    ensures ReduceSubtotal(acc, lines) == acc + Sum(seq(|lines|, i requires 0 <= i < |lines| => LineAmount(lines[i])))
    decreases |lines|
  {
    var amounts := seq(|lines|, i requires 0 <= i < |lines| => LineAmount(lines[i]));
    if |lines| > 0 {
      SubtotalIsSum(acc + LineAmount(lines[0]), lines[1..]);
      assert amounts[1..] == seq(|lines[1..]|, i requires 0 <= i < |lines[1..]| => LineAmount(lines[1..][i]));
    }
  }

  /** `||` and `??` default to the same 0, so each line's amount, and with them
      the checkout total, agree with the cart page's. */
  lemma {:induction false} AgreesWithCartPage(cart: Option<CartResponseDto>)
    requires cart.Some? && cart.value.cart.Some? && |cart.value.cart.value| > 0
    ensures Checkout(cart).total == CartPage.Total(cart)
  {
    var lines := cart.value.cart.value;
    AmountsAgree(lines);
  }

  lemma {:induction false} AmountsAgree(lines: seq<CartItemDto>)
    ensures Sum(seq(|lines|, i requires 0 <= i < |lines| => LineAmount(lines[i]))) == CartPage.Amount(lines)
  {
    if |lines| > 0 {
      var item := lines[0];
      OrElseZero(item.quantity);
      if item.product.Some? {
        OrElseZero(item.product.value.price);
      }
      assert LineAmount(item) == CartPage.LineAmount(item);
      var amounts := seq(|lines|, i requires 0 <= i < |lines| => LineAmount(lines[i]));
      assert amounts[1..] == seq(|lines[1..]|, i requires 0 <= i < |lines[1..]| => LineAmount(lines[1..][i]));
      AmountsAgree(lines[1..]);
    }
  }
}
