/** How the client and the server fit together: a request the client builds
    passes the validator, one click on "Add to Cart" raises the quantity by
    one, and the totals the pages show are the total the order records. */
module Flows {
  import opened Opt
  import opened Records
  import opened Replies
  import opened ApiDto
  import AM = AuthMiddleware
  import CV = CartValidator
  import CC = CartController
  import OC = OrderController
  import PC = ProductCard
  import QS = QuantitySelector
  import Header
  import CartPage
  import CheckoutPage
  import OrdersPage

  /** Every catalogue product is filed under its own id. */
  predicate SelfKeyed(products: map<Id, Product>) {
    forall k :: k in products ==> products[k].id == k
  }

  /** The cart the client holds after `GET /cart`. */
  function CartData(cart: seq<CartItem>, products: map<Id, Product>): Option<CartResponseDto> {
    Some(CartJson(CC.Populate(cart, products)))
  }

  // ---------------------------------------------------------------------------
  // Validator and upsert
  // ---------------------------------------------------------------------------

  /** A body that passed the validator is upserted, by the handler as written
      and by the corrected one alike, whenever the product and the user exist:
      the validator guarantees the quantity the cart schema demands. */
  lemma ValidatedBodyUpserts(st: Store, auth: Option<AM.AuthUser>, raw: CV.RawCartBody, freshId: Id)
    requires ValidStore(st)
    requires CV.Validate(raw).Ok?
    requires auth.Some? && IsObjectIdText(auth.value.id) && CastId(auth.value.id).value in st.users
    ensures var body := CV.Validate(raw).value;
            IsObjectIdText(body.productId) && CastId(body.productId).value in st.products
            <==> CC.AddOrUpdateCartItemAsWritten(st, auth, body, freshId).outcome.Success?
    ensures var body := CV.Validate(raw).value;
            IsObjectIdText(body.productId) && CastId(body.productId).value in st.products
            <==> CC.AddOrUpdateCartItem(st, auth, body, freshId).outcome.Success?
  {
    CC.AsWrittenSucceeds(st, auth, CV.Validate(raw).value, freshId);
    CC.AddOrUpdateSucceeds(st, auth, CV.Validate(raw).value, freshId);
  }

  // ---------------------------------------------------------------------------
  // Add to cart, end to end
  // ---------------------------------------------------------------------------

  /** A valid store meets the conditions of `AddToCartIncrements` for each of
      its users and products. */
  lemma StoreFacts(st: Store, uid: Id, pid: Id)
    requires ValidStore(st) && uid in st.users && pid in st.products
    ensures ValidCart(st.users[uid].cart) && SelfKeyed(st.products)
    ensures IsCanonicalId(pid) && st.products[pid].id == pid
  {
    assert ValidUser(st.users[uid]);
  }

  /** One more than the quantity of the product's line, or 1 with no line. */
  function NextQuantity(cart: seq<CartItem>, pid: Id): int {
    var i := CC.FindLine(cart, pid);
    (if i >= 0 then cart[i].quantity else 0) + 1
  }

  /** A line of the client's copy names the product exactly when the server's
      line does. */
  lemma LineNamesProduct(cart: seq<CartItem>, products: map<Id, Product>, pid: Id, j: int)
    requires SelfKeyed(products) && pid in products && 0 <= j < |cart|
    ensures ProductIdOf(CartData(cart, products).value.cart.value[j]) == Some(pid) <==> cart[j].product == pid
  {
    var dtos := CartData(cart, products).value.cart.value;
    if cart[j].product in products {
      assert dtos[j].product == Some(ProductJson(products[cart[j].product]));
    }
  }

  /** On the client's copy of the cart, the product card finds the same line
      as the server's line match. */
  lemma FindItemIsFindLine(cart: seq<CartItem>, products: map<Id, Product>, pid: Id)
    requires SelfKeyed(products) && pid in products
    ensures var dtos := CartData(cart, products).value.cart.value;
            var i := CC.FindLine(cart, pid);
            PC.FindItem(dtos, Some(pid)) == (if i >= 0 then Some(i) else None)
  {
    var dtos := CartData(cart, products).value.cart.value;
    forall j | 0 <= j < |cart|
      ensures ProductIdOf(dtos[j]) == Some(pid) <==> cart[j].product == pid
    {
      LineNamesProduct(cart, products, pid, j);
    }
    var i := CC.FindLine(cart, pid);
    if i >= 0 {
      assert ProductIdOf(dtos[i]) == Some(pid);
    }
  }

  /** The request the product card sends: the product's own id and the next
      quantity, which is at least 1. */
  lemma AddToCartRequest(cart: seq<CartItem>, products: map<Id, Product>, pid: Id)
    requires ValidCart(cart) && SelfKeyed(products) && pid in products && pid != ""
    ensures PC.AddToCart(ProductJson(products[pid]), true, CartData(cart, products))
            == PC.RequestUpsert(CartRequest(pid, NextQuantity(cart, pid)))
    ensures NextQuantity(cart, pid) >= 1
  {
    var data := CartData(cart, products);
    FindItemIsFindLine(cart, products, pid);
    var i := CC.FindLine(cart, pid);
    if i >= 0 {
      assert ValidCartItem(cart[i]);
      assert data.value.cart.value[i].quantity == Some(cart[i].quantity);
    }
  }

  /** `after` is `cart` with the quantity of the product's line raised by one,
      or, with no such line, with a line `(freshId, pid, 1)` appended. */
  predicate Incremented(cart: seq<CartItem>, pid: Id, freshId: Id, after: seq<CartItem>) {
    var i := CC.FindLine(cart, pid);
    && (i >= 0 ==> after == cart[i := cart[i].(quantity := cart[i].quantity + 1)])
    && (i < 0 ==> after == cart + [CartItem(freshId, pid, 1)])
  }

  /** The cart edit of one click increments, and the cart stays valid. */
  lemma NextQuantityUpsert(cart: seq<CartItem>, pid: Id, freshId: Id)
    requires ValidCart(cart) && IsCanonicalId(pid)
    ensures var u := CC.UpsertLine(cart, pid, NextQuantity(cart, pid), freshId, pid);
            ValidCart(u) && Incremented(cart, pid, freshId, u)
  {
    var i := CC.FindLine(cart, pid);
    if i >= 0 {
      assert ValidCartItem(cart[i]);
    }
    CC.UpsertKeepsValidCart(cart, pid, NextQuantity(cart, pid), freshId, pid);
  }

  /** The server side of one click: the upsert of the next quantity succeeds,
      and the handler as written gives the same reply as the corrected one
      because the card sends the product's own id. */
  lemma UpsertOfNextQuantity(st: Store, uid: Id, email: string, pid: Id, freshId: Id)
    requires IsCanonicalId(uid) && uid in st.users && ValidCart(st.users[uid].cart)
    requires IsCanonicalId(pid) && pid in st.products && st.products[pid].id == pid
    ensures var cart := st.users[uid].cart;
            var auth := Some(AM.AuthUser(uid, email));
            var body := CV.CartBody(pid, NextQuantity(cart, pid));
            var r := CC.AddOrUpdateCartItemAsWritten(st, auth, body, freshId);
            && r.outcome == Success(CC.UpsertLine(cart, pid, NextQuantity(cart, pid), freshId, pid))
            && r.store == WithCart(st, uid, r.outcome.body)
            && r == CC.AddOrUpdateCartItem(st, auth, body, freshId)
  {
    var cart := st.users[uid].cart;
    var auth := Some(AM.AuthUser(uid, email));
    var body := CV.CartBody(pid, NextQuantity(cart, pid));
    assert CastId(uid) == Some(uid) && CastId(pid) == Some(pid);
    CC.AddOrUpdateFound(st, auth, body, freshId, true, st.products[pid], st.users[uid]);
    NextQuantityUpsert(cart, pid, freshId);
    CC.AsWrittenAgreesOnCanonical(st, auth, body, freshId);
  }

  /** One click on "Add to Cart" by a signed-in user, carried through: the
      card's effect, the validator, and the upsert as the server is written.
      Nothing reaches the server when the card sends no request or the
      validator refuses it. */
  function Click(st: Store, auth: Option<AM.AuthUser>, product: ProductDto, freshId: Id): (r: Option<Reply<seq<CartItem>>>)
    ensures r.Some? <==> (var e := PC.AddToCart(product, true, GetCart(st, auth));
                          e.RequestUpsert? && CV.Validate(RequestBody(e.req)).Ok?)
  {
    var e := PC.AddToCart(product, true, GetCart(st, auth));
    if e.RequestUpsert? then
      match CV.Validate(RequestBody(e.req))
      case Ok(body) => Some(CC.AddOrUpdateCartItemAsWritten(st, auth, body, freshId))
      case Err(_) => None
    else None
  }

  /** The client's copy of the cart: the reply of `GET /cart`, or nothing. */
  function GetCart(st: Store, auth: Option<AM.AuthUser>): Option<CartResponseDto> {
    var o := CC.GetCart(st, auth);
    if o.Success? then Some(CartJson(o.body)) else None
  }

  /** "Add to Cart" on a catalogue product, by a signed-in user whose cart the
      client has loaded, reaches the server, and the upsert then raises the
      quantity of the product's line by one or appends a line with quantity 1. */
  lemma AddToCartIncrements(st: Store, uid: Id, email: string, pid: Id, freshId: Id)
    requires IsCanonicalId(uid) && uid in st.users && ValidCart(st.users[uid].cart)
    requires SelfKeyed(st.products) && IsCanonicalId(pid) && pid in st.products
    ensures var cart := st.users[uid].cart;
            var r := Click(st, Some(AM.AuthUser(uid, email)), ProductJson(st.products[pid]), freshId);
            && r.Some? && r.value.outcome.Success?
            && Incremented(cart, pid, freshId, r.value.outcome.body)
  {
    var cart := st.users[uid].cart;
    var u := CC.UpsertLine(cart, pid, NextQuantity(cart, pid), freshId, pid);
    ClickUpserts(st, uid, email, pid, freshId);
    var r := Click(st, Some(AM.AuthUser(uid, email)), ProductJson(st.products[pid]), freshId);
    assert r.value.outcome.body == u;
    NextQuantityUpsert(cart, pid, freshId);
  }

  /** The click reaches the server with the next quantity. */
  lemma ClickUpserts(st: Store, uid: Id, email: string, pid: Id, freshId: Id)
    requires IsCanonicalId(uid) && uid in st.users && ValidCart(st.users[uid].cart)
    requires SelfKeyed(st.products) && IsCanonicalId(pid) && pid in st.products
    ensures var cart := st.users[uid].cart;
            Click(st, Some(AM.AuthUser(uid, email)), ProductJson(st.products[pid]), freshId)
            == Some(Reply(Success(CC.UpsertLine(cart, pid, NextQuantity(cart, pid), freshId, pid)),
                          WithCart(st, uid, CC.UpsertLine(cart, pid, NextQuantity(cart, pid), freshId, pid))))
  {
    var auth := Some(AM.AuthUser(uid, email));
    var cart := st.users[uid].cart;
    var q := NextQuantity(cart, pid);
    assert |pid| == 24;
    ClientCart(st, uid, email);
    AddToCartRequest(cart, st.products, pid);
    RequestAccepted(CartRequest(pid, q));
    assert Click(st, auth, ProductJson(st.products[pid]), freshId)
           == Some(CC.AddOrUpdateCartItemAsWritten(st, auth, CV.CartBody(pid, q), freshId));
    UpsertOfNextQuantity(st, uid, email, pid, freshId);
  }

  /** A signed-in user whose document exists gets their cart. */
  lemma ClientCart(st: Store, uid: Id, email: string)
    requires IsCanonicalId(uid) && uid in st.users
    ensures GetCart(st, Some(AM.AuthUser(uid, email))) == CartData(st.users[uid].cart, st.products)
  {
    assert CastId(uid) == Some(uid);
  }

  // ---------------------------------------------------------------------------
  // Totals
  // ---------------------------------------------------------------------------

  /** A sequence of cart-page amounts that match order lines one for one sums
      to the order lines' total. */
  lemma {:induction false} CartAmountIsItemsTotal(lines: seq<CartItemDto>, items: seq<OrderItem>)
    requires |lines| == |items|
    requires forall i :: 0 <= i < |lines| ==> CartPage.LineAmount(lines[i]) == items[i].priceAtOrder * items[i].quantity
    ensures CartPage.Amount(lines) == ItemsTotal(items)
  {
    if |lines| > 0 {
      CartAmountIsItemsTotal(lines[1..], items[1..]);
    }
  }

  /** With catalogue prices unchanged between the page and the order, the cart
      page's total, the checkout total and the placed order's `totalPrice` are
      one number. */
  lemma CheckoutMatchesOrder(st: Store, auth: Option<AM.AuthUser>, orderId: Id)
    requires ValidStore(st)
    requires auth.Some? && IsObjectIdText(auth.value.id)
    requires CastId(auth.value.id).value in st.users
    requires var cart := st.users[CastId(auth.value.id).value].cart;
             cart != [] && OC.AllInCatalogue(cart, st.products)
    ensures var data := CartData(st.users[CastId(auth.value.id).value].cart, st.products);
            var r := OC.PlaceOrder(st, auth, orderId);
            && r.outcome.Success?
            && CheckoutPage.Checkout(data).total == CartPage.Total(data) == r.outcome.body.totalPrice
  {
    var uid := CastId(auth.value.id).value;
    var cart := st.users[uid].cart;
    var data := CartData(cart, st.products);
    OC.PlaceOrderSucceeds(st, auth, orderId);
    var r := OC.PlaceOrder(st, auth, orderId);
    var lines := data.value.cart.value;
    var items := r.outcome.body.items;
    forall i | 0 <= i < |lines|
      ensures CartPage.LineAmount(lines[i]) == items[i].priceAtOrder * items[i].quantity
    {
      assert lines[i].product == Some(ProductJson(st.products[cart[i].product]));
    }
    CartAmountIsItemsTotal(lines, items);
    CheckoutPage.AgreesWithCartPage(data);
  }

  /** Order-page amounts that match order lines one for one sum to their total. */
  lemma {:induction false} OrderAmountIsItemsTotal(lines: seq<OrderItemDto>, items: seq<OrderItem>)
    requires |lines| == |items|
    requires forall i :: 0 <= i < |lines| ==> OrdersPage.LineAmount(lines[i]) == items[i].priceAtOrder * items[i].quantity
    ensures OrdersPage.Amount(lines) == ItemsTotal(items)
  {
    if |lines| > 0 {
      OrderAmountIsItemsTotal(lines[1..], items[1..]);
    }
  }

  /** The amounts the order history lists for a stored order add up to the
      total the order records. */
  lemma OrdersPageMatchesTotal(o: Order, products: map<Id, Product>)
    requires TotalConsistent(o)
    ensures OrdersPage.Amount(OrdersPage.ItemsShown(OrderJson(o, products))) == o.totalPrice
  {
    var lines := OrdersPage.ItemsShown(OrderJson(o, products));
    OrderAmountIsItemsTotal(lines, o.items);
  }

  // ---------------------------------------------------------------------------
  // Header badge
  // ---------------------------------------------------------------------------

  lemma {:induction false} ItemCountAtLeastLines(items: seq<CartItemDto>)
    requires forall i :: 0 <= i < |items| ==> items[i].quantity.Some? && items[i].quantity.value >= 1
    ensures Header.ItemCount(items) >= |items|
  {
    if |items| > 0 {
      ItemCountAtLeastLines(items[1..]);
    }
  }

  /** For a valid cart the header counts at least one item per line, so a
      signed-in user sees the badge exactly when the cart has a line. */
  lemma HeaderBadgeForCart(cart: seq<CartItem>, products: map<Id, Product>)
    requires ValidCart(cart)
    ensures Header.CartCount(CartData(cart, products)) >= |cart|
    ensures Header.ShowsBadge(true, Header.CartCount(CartData(cart, products))) <==> |cart| > 0
  {
    var dtos := CartData(cart, products).value.cart.value;
    assert forall i :: 0 <= i < |dtos| ==> dtos[i].quantity == Some(cart[i].quantity);
    ItemCountAtLeastLines(dtos);
  }

  // ---------------------------------------------------------------------------
  // Quantity changes on the cart page
  // ---------------------------------------------------------------------------

  /** A value the cart page's selector emits on blur, for a line whose product
      is known, becomes a request the validator accepts. */
  lemma SelectorBlurRequestAccepted(item: CartItemDto, text: string)
    requires Truthy(ProductIdOf(item))
    ensures var p := QS.WithDefaults(CartPage.DisplayQuantity(item), None, None, None);
            var b := QS.Blur(p, text);
            b.emitted.Some? ==>
              var r := CartPage.OnQuantityChange(item, b.emitted.value);
              && r.Some?
              && CV.Validate(RequestBody(r.value)) == Ok(CV.CartBody(ProductIdOf(item).value, b.emitted.value))
  {
    var p := QS.WithDefaults(CartPage.DisplayQuantity(item), None, None, None);
    var b := QS.Blur(p, text);
    if b.emitted.Some? {
      var r := CartPage.OnQuantityChange(item, b.emitted.value);
      RequestAccepted(r.value);
    }
  }
}
