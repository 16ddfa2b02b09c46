/** The order controller: placing an order from the requester's cart (a price
    snapshot of every line, the total, then the cart cleared) and the
    requester's order history. */
module OrderController {
  import opened Opt
  import opened Records
  import opened Replies
  import AM = AuthMiddleware

  // ---------------------------------------------------------------------------
  // Snapshot and total
  // ---------------------------------------------------------------------------

  /** The order line made from a cart line whose product is `p`. */
  function SnapshotLine(item: CartItem, p: Product): (o: OrderItem)
    ensures o.product == p.id && o.quantity == item.quantity && o.priceAtOrder == p.price
  {
    OrderItem(p.id, item.quantity, p.price)
  }

  /** Every product a cart refers to is in the catalogue. */
  predicate AllInCatalogue(cart: seq<CartItem>, products: map<Id, Product>) {
    forall i :: 0 <= i < |cart| ==> cart[i].product in products
  }

  /** `user.cart.map(...)` over the populated cart: each line becomes an order
      line carrying the catalogue price of its product. A line whose product is
      gone populates to null and reading its price throws: no lines at all. */
  function Snapshot(cart: seq<CartItem>, products: map<Id, Product>): (r: Option<seq<OrderItem>>)
    ensures r.Some? <==> AllInCatalogue(cart, products)
    ensures r.Some? ==> |r.value| == |cart|
    ensures r.Some? ==> forall i :: 0 <= i < |cart| ==>
              && r.value[i].product == products[cart[i].product].id
              && r.value[i].quantity == cart[i].quantity
              && r.value[i].priceAtOrder == products[cart[i].product].price
  {
    if |cart| == 0 then Some([])
    else if cart[0].product !in products then None
    else
      match Snapshot(cart[1..], products)
      case None =>
        assert !AllInCatalogue(cart[1..], products);
        None
      case Some(rest) =>
        assert forall i :: 1 <= i < |cart| ==> cart[i] == cart[1..][i - 1];
        Some([SnapshotLine(cart[0], products[cart[0].product])] + rest)
  }

  /** `items.reduce((sum, item) => sum + item.priceAtOrder * item.quantity, acc)`:
      a fold from the left. */
  function ReduceTotal(acc: int, items: seq<OrderItem>): int
    decreases |items|
  {
    if |items| == 0 then acc
    else ReduceTotal(acc + items[0].priceAtOrder * items[0].quantity, items[1..])
  }

  /** The left fold from 0 is the sum over the lines. */
  lemma {:induction false} ReduceTotalIsSum(acc: int, items: seq<OrderItem>)
    ensures ReduceTotal(acc, items) == acc + ItemsTotal(items)
    decreases |items|
  {
    if |items| > 0 {
      ReduceTotalIsSum(acc + items[0].priceAtOrder * items[0].quantity, items[1..]);
    }
  }

  /** The sum over lines splits over concatenation. */
  lemma {:induction false} ItemsTotalAppend(a: seq<OrderItem>, b: seq<OrderItem>)
    ensures ItemsTotal(a + b) == ItemsTotal(a) + ItemsTotal(b)
  {
    if |a| == 0 {
      assert a + b == b;
    } else {
      assert (a + b)[1..] == a[1..] + b;
      ItemsTotalAppend(a[1..], b);
    }
  }

  // ---------------------------------------------------------------------------
  // Placing an order
  // ---------------------------------------------------------------------------

  /** `placeOrder`: after the user lookup and the empty-cart check, the lines are
      snapshot, the total is folded, `Order.create` validates and stores the
      order (a validation failure goes to the error handler), and the cart is
      cleared. The reply is 201 with the created order. */
  function PlaceOrder(st: Store, auth: Option<AM.AuthUser>, orderId: Id): (r: Reply<Order>)
    ensures !r.outcome.Success? ==> r.store == st
    ensures auth.None? ==> r.outcome == Unauthorized
    ensures auth.Some? && !IsObjectIdText(auth.value.id) ==> r.outcome == ServerError
    ensures auth.Some? && IsObjectIdText(auth.value.id) ==>
              (r.outcome == NotFound(UserMissing) <==> CastId(auth.value.id).value !in st.users)
    ensures auth.Some? && IsObjectIdText(auth.value.id) && CastId(auth.value.id).value in st.users ==>
              (r.outcome == CartEmpty <==> st.users[CastId(auth.value.id).value].cart == [])
    ensures auth.Some? && IsObjectIdText(auth.value.id) && CastId(auth.value.id).value in st.users
            && !AllInCatalogue(st.users[CastId(auth.value.id).value].cart, st.products)
            ==> r == Reply(ServerError, st)
    ensures auth.Some? ==> r.outcome != Unauthorized
    ensures r.outcome.Success? ==>
              && auth.Some? && IsObjectIdText(auth.value.id)
              && var uid := CastId(auth.value.id).value;
                 && uid in st.users
                 && var cart := st.users[uid].cart;
                    var o := r.outcome.body;
                    && cart != [] && AllInCatalogue(cart, st.products)
                    && o.id == orderId && o.user == st.users[uid].id
                    && |o.items| == |cart|
                    && (forall i :: 0 <= i < |cart| ==>
                          && o.items[i].product == st.products[cart[i].product].id
                          && o.items[i].quantity == cart[i].quantity
                          && o.items[i].priceAtOrder == st.products[cart[i].product].price)
                    && o.totalPrice == ItemsTotal(o.items)
                    && ValidOrder(o)
                    && r.store == WithCart(st, uid, []).(orders := st.orders + [o])
  {
    if auth.None? then Reply(Unauthorized, st)
    else
      match FindById(st.users, auth.value.id)
      case CastFailed => Reply(ServerError, st)
      case Absent => Reply(NotFound(UserMissing), st)
      case Found(user) =>
        if user.cart == [] then Reply(CartEmpty, st)
        else
          match Snapshot(user.cart, st.products)
          case None => Reply(ServerError, st)
          case Some(items) =>
            var total := ReduceTotal(0, items);
            var order := Order(orderId, user.id, items, total);
            if !ValidOrder(order) then Reply(ServerError, st)
            else
              ReduceTotalIsSum(0, items);
              var uid := CastId(auth.value.id).value;
              Reply(Success(order), WithCart(st, uid, []).(orders := st.orders + [order]))
  }

  /** On a valid store the order is placed exactly when the user exists, the
      cart is not empty and every product in it is still in the catalogue. */
  lemma PlaceOrderSucceeds(st: Store, auth: Option<AM.AuthUser>, orderId: Id)
    requires ValidStore(st)
    ensures PlaceOrder(st, auth, orderId).outcome.Success? <==>
              && auth.Some? && IsObjectIdText(auth.value.id)
              && CastId(auth.value.id).value in st.users
              && st.users[CastId(auth.value.id).value].cart != []
              && AllInCatalogue(st.users[CastId(auth.value.id).value].cart, st.products)
  {
    if auth.Some? && IsObjectIdText(auth.value.id) {
      var uid := CastId(auth.value.id).value;
      if uid in st.users && st.users[uid].cart != [] && AllInCatalogue(st.users[uid].cart, st.products) {
        var user := st.users[uid];
        var items := Snapshot(user.cart, st.products).value;
        assert ValidUser(user);
        assert forall i :: 0 <= i < |items| ==> ValidOrderItem(items[i]) by {
          forall i | 0 <= i < |items| ensures ValidOrderItem(items[i]) {
            assert ValidCartItem(user.cart[i]);
          }
        }
        assert ValidOrder(Order(orderId, user.id, items, ReduceTotal(0, items)));
      }
    }
  }

  /** Placing an order keeps every store invariant, and one line per product. */
  lemma PlaceOrderKeepsStore(st: Store, auth: Option<AM.AuthUser>, orderId: Id)
    requires ValidStore(st) && CartsAreSets(st)
    ensures ValidStore(PlaceOrder(st, auth, orderId).store) && CartsAreSets(PlaceOrder(st, auth, orderId).store)
  {
    var r := PlaceOrder(st, auth, orderId);
    if r.outcome.Success? {
      var uid := CastId(auth.value.id).value;
      WithCartKeepsStore(st, uid, []);
      AddOrderKeepsStore(WithCart(st, uid, []), r.outcome.body);
    }
  }

  // ---------------------------------------------------------------------------
  // Order history
  // ---------------------------------------------------------------------------

  /** The orders owned by `uid`, in store order. */
  function OrdersOf(orders: seq<Order>, uid: Id): (r: seq<Order>)
    ensures |r| <= |orders|
    ensures forall i :: 0 <= i < |r| ==> r[i].user == uid && r[i] in orders
  {
    if |orders| == 0 then []
    else if orders[0].user == uid then [orders[0]] + OrdersOf(orders[1..], uid)
    else OrdersOf(orders[1..], uid)
  }

  /** Exactly the owner's orders are kept. */
  lemma {:induction false} OrdersOfMembers(orders: seq<Order>, uid: Id, o: Order)
    ensures o in OrdersOf(orders, uid) <==> o in orders && o.user == uid
  {
    if |orders| > 0 {
      OrdersOfMembers(orders[1..], uid, o);
      assert orders == [orders[0]] + orders[1..];
    }
  }

  /** Filtering splits over concatenation, so store order is kept. */
  lemma {:induction false} OrdersOfAppend(a: seq<Order>, b: seq<Order>, uid: Id)
    ensures OrdersOf(a + b, uid) == OrdersOf(a, uid) + OrdersOf(b, uid)
  {
    if |a| == 0 {
      assert a + b == b;
    } else {
      assert (a + b)[1..] == a[1..] + b;
      OrdersOfAppend(a[1..], b, uid);
    }
  }

  /** `getUserOrders`: `Order.find({ user: req.user.id })`. The id is cast for
      the query (a CastError goes to the error handler); the user need not exist. */
  function GetUserOrders(st: Store, auth: Option<AM.AuthUser>): (o: Outcome<seq<Order>>)
    ensures auth.None? ==> o == Unauthorized
    ensures auth.Some? ==> (o.ServerError? <==> !IsObjectIdText(auth.value.id))
    ensures o.Success? ==> auth.Some? && IsObjectIdText(auth.value.id)
                           && o.body == OrdersOf(st.orders, CastId(auth.value.id).value)
    ensures auth.Some? && IsObjectIdText(auth.value.id) ==> o == Success(OrdersOf(st.orders, CastId(auth.value.id).value))
    ensures !o.NotFound? && !o.CartEmpty?
  {
    if auth.None? then Unauthorized
    else
      match CastId(auth.value.id)
      case None => ServerError
      case Some(uid) => Success(OrdersOf(st.orders, uid))
  }

  /** After a successful placement the requester's history is the old history
      followed by the new order, and nobody else's history changes. */
  lemma PlaceOrderExtendsHistory(st: Store, auth: Option<AM.AuthUser>, orderId: Id, other: Option<AM.AuthUser>)
    requires ValidStore(st)
    requires PlaceOrder(st, auth, orderId).outcome.Success?
    ensures var r := PlaceOrder(st, auth, orderId);
            && GetUserOrders(r.store, auth) == Success(GetUserOrders(st, auth).body + [r.outcome.body])
            && (other.Some? && IsObjectIdText(other.value.id)
                && CastId(other.value.id) != CastId(auth.value.id) ==>
                  GetUserOrders(r.store, other) == GetUserOrders(st, other))
  {
    var r := PlaceOrder(st, auth, orderId);
    var uid := CastId(auth.value.id).value;
    var o := r.outcome.body;
    assert o.user == uid;
    OrdersOfAppend(st.orders, [o], uid);
    assert OrdersOf([o], uid) == [o];
    if other.Some? && IsObjectIdText(other.value.id) && CastId(other.value.id) != CastId(auth.value.id) {
      var vid := CastId(other.value.id).value;
      OrdersOfAppend(st.orders, [o], vid);
      assert [o][1..] == [];
      assert OrdersOf([o], vid) == [];
      assert OrdersOf(r.store.orders, vid) == OrdersOf(st.orders, vid) + [];
      assert OrdersOf(st.orders, vid) + [] == OrdersOf(st.orders, vid);
    }
  }
}
