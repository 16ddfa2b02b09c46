/** The documents of the backend's store (the Mongoose models `User`, `Order`
    and `Product`), the constraints their schemas put on them, and the store
    itself as maps from ids to documents plus the collection of orders. */
module Records {
  import opened Opt
  import Text

  /** A document id (a Mongo ObjectId in its string form). */
  type Id = string

  predicate IsHexDigit(c: char) {
    '0' <= c <= '9' || 'a' <= c <= 'f' || 'A' <= c <= 'F'
  }

  /** Text Mongoose accepts where an ObjectId is expected: 24 hex digits in
      either case. */
  predicate IsObjectIdText(s: string) {
    |s| == 24 && forall i :: 0 <= i < |s| ==> IsHexDigit(s[i])
  }

  /** The form an ObjectId prints in (`toString()`): 24 lower-case hex digits. */
  predicate IsCanonicalId(s: string) {
    IsObjectIdText(s) && Text.IsLowerCased(s)
  }

  /** Casting request text to an ObjectId: the canonical form of the same id,
      or nothing when the text is not an ObjectId (Mongoose's CastError). */
  function CastId(s: string): (r: Option<Id>)
    ensures r.Some? <==> IsObjectIdText(s)
    ensures r.Some? ==> IsCanonicalId(r.value) && r.value == Text.ToLower(s)
    ensures IsCanonicalId(s) ==> r == Some(s)
  {
    if IsObjectIdText(s) then
      var c := Text.ToLower(s);
      assert forall i :: 0 <= i < |s| ==> IsHexDigit(c[i]);
      assert Text.IsLowerCased(s) ==> c == s;
      Some(c)
    else None
  }

  /** `Model.findById(text)` against a collection keyed by canonical id. */
  datatype Lookup<+T> = CastFailed | Absent | Found(doc: T)

  function FindById<T>(docs: map<Id, T>, text: string): (r: Lookup<T>)
    ensures r.CastFailed? <==> !IsObjectIdText(text)
    ensures r.Absent? <==> (IsObjectIdText(text) && CastId(text).value !in docs)
    ensures r.Found? ==> CastId(text).value in docs && r.doc == docs[CastId(text).value]
  {
    match CastId(text)
    case None => CastFailed
    case Some(id) => if id in docs then Found(docs[id]) else Absent
  }

  /** A catalogue product. Prices are whole cents. */
  datatype Product = Product(id: Id, title: string, price: int, description: string, image: string)

  /** A line of a user's cart: it has an id of its own, generated when the line
      is created and independent of the product it refers to. */
  datatype CartItem = CartItem(id: Id, product: Id, quantity: int)

  /** A user; the password is not part of this model. */
  datatype User = User(id: Id, name: string, email: string, cart: seq<CartItem>)

  /** A line of an order: a snapshot of a cart line with the price paid. Unlike a
      cart line it has no id of its own. */
  datatype OrderItem = OrderItem(product: Id, quantity: int, priceAtOrder: int)

  datatype Order = Order(id: Id, user: Id, items: seq<OrderItem>, totalPrice: int)

  // ---------------------------------------------------------------------------
  // Schema constraints
  // ---------------------------------------------------------------------------

  /** `cartItemSchema`: a product reference (an ObjectId) is required and
      quantity is at least 1. */
  predicate ValidCartItem(item: CartItem) {
    IsCanonicalId(item.product) && item.quantity >= 1
  }

  predicate ValidCart(cart: seq<CartItem>) {
    forall i :: 0 <= i < |cart| ==> ValidCartItem(cart[i])
  }

  /** Every line carries its own id, distinct from the other lines' ids. */
  predicate LineIdsUnique(cart: seq<CartItem>) {
    forall i, j :: 0 <= i < j < |cart| ==> cart[i].id != cart[j].id
  }

  /** Every line id is an ObjectId Mongoose generated, so it prints canonically. */
  predicate LineIdsCanonical(cart: seq<CartItem>) {
    forall i :: 0 <= i < |cart| ==> IsCanonicalId(cart[i].id)
  }

  /** The property the cart is meant to have but that no schema enforces: at
      most one line per product. */
  predicate AtMostOneLinePerProduct(cart: seq<CartItem>) {
    forall i, j :: 0 <= i < j < |cart| ==> cart[i].product != cart[j].product
  }

  /** The form `email` is stored in: lower-cased, then trimmed. */
  function NormalizeEmail(email: string): (e: string)
    ensures Text.IsTrimmed(e) && Text.IsLowerCased(e)
  {
    Text.TrimKeepsLowerCased(Text.ToLower(email));
    Text.Trim(Text.ToLower(email))
  }

  /** The stored email is the lower-cased address with exactly its surrounding
      white space cut off: a slice of `ToLower(email)` whose borders in
      `email` are white space. */
  lemma NormalizeEmailCutsSpace(email: string)
    ensures exists i, j :: 0 <= i <= j <= |email| && NormalizeEmail(email) == Text.ToLower(email)[i..j]
                          && (forall k :: 0 <= k < i ==> Text.IsSpace(email[k]))
                          && (forall k :: j <= k < |email| ==> Text.IsSpace(email[k]))
  {
    Text.LowerKeepsSpace(email);
    Text.TrimBordersCarry(email, Text.ToLower(email));
  }

  /** Padding an address with white space does not change the stored email, so
      `" Ann@X.org "` and `"ann@x.org"` are the same address to the uniqueness
      check. */
  lemma NormalizeEmailOfPadded(pre: string, t: string, post: string)
    requires forall k :: 0 <= k < |pre| ==> Text.IsSpace(pre[k])
    requires forall k :: 0 <= k < |post| ==> Text.IsSpace(post[k])
    requires Text.IsTrimmed(t)
    ensures NormalizeEmail(pre + t + post) == Text.ToLower(t)
  {
    var lp, lt, lq := Text.ToLower(pre), Text.ToLower(t), Text.ToLower(post);
    Text.LowerAppend(pre + t, post);
    Text.LowerAppend(pre, t);
    Text.LowerKeepsSpace(pre);
    Text.LowerKeepsSpace(post);
    Text.LowerKeepsTrimmed(t);
    Text.TrimOfPadded(lp, lt, lq);
  }

  /** `userSchema`: a non-empty trimmed name, a non-empty trimmed lower-case
      email, and valid cart lines with distinct, generated ids. */
  predicate ValidUser(u: User) {
    && IsCanonicalId(u.id)
    && u.name != "" && Text.IsTrimmed(u.name)
    && u.email != "" && Text.IsTrimmed(u.email) && Text.IsLowerCased(u.email)
    && ValidCart(u.cart)
    && LineIdsUnique(u.cart)
    && LineIdsCanonical(u.cart)
  }

  /** `orderItemSchema`: a product reference (an ObjectId) is required and
      quantity is at least 1; `priceAtOrder` is required, which every `int` is. */
  predicate ValidOrderItem(item: OrderItem) {
    IsCanonicalId(item.product) && item.quantity >= 1
  }

  /** `orderSchema`: an owner (an ObjectId) is required, and every line is valid.
      `items` and `totalPrice` are present in every `Order` value. */
  predicate ValidOrder(o: Order) {
    IsCanonicalId(o.user) && forall i :: 0 <= i < |o.items| ==> ValidOrderItem(o.items[i])
  }

  /** The sum over the lines of price paid times quantity. */
  function ItemsTotal(items: seq<OrderItem>): int {
    if |items| == 0 then 0
    else items[0].priceAtOrder * items[0].quantity + ItemsTotal(items[1..])
  }

  /** The total of an order is the sum of its lines. */
  predicate TotalConsistent(o: Order) {
    o.totalPrice == ItemsTotal(o.items)
  }

  // ---------------------------------------------------------------------------
  // The store
  // ---------------------------------------------------------------------------

  datatype Store = Store(users: map<Id, User>, products: map<Id, Product>, orders: seq<Order>)

  /** The unique index on `email`. */
  predicate EmailsUnique(users: map<Id, User>) {
    forall a, b :: a in users && b in users && a != b ==> users[a].email != users[b].email
  }

  /** Every document the store can hold: documents are filed under their own id,
      users satisfy their schema, emails are unique, and orders satisfy their
      schema with a consistent total. */
  predicate ValidStore(st: Store) {
    && (forall k :: k in st.users ==> st.users[k].id == k && ValidUser(st.users[k]))
    && (forall k :: k in st.products ==> st.products[k].id == k && IsCanonicalId(k))
    && EmailsUnique(st.users)
    && (forall i :: 0 <= i < |st.orders| ==> ValidOrder(st.orders[i]) && TotalConsistent(st.orders[i]))
  }

  /** Every user's cart has at most one line per product. */
  predicate CartsAreSets(st: Store) {
    forall k :: k in st.users ==> AtMostOneLinePerProduct(st.users[k].cart)
  }

  /** The store after replacing the cart of user `uid`. */
  function WithCart(st: Store, uid: Id, cart: seq<CartItem>): (st': Store)
    requires uid in st.users
    ensures st'.products == st.products && st'.orders == st.orders
    ensures st'.users.Keys == st.users.Keys
    ensures st'.users[uid] == st.users[uid].(cart := cart)
    ensures forall k :: k in st.users && k != uid ==> st'.users[k] == st.users[k]
  {
    st.(users := st.users[uid := st.users[uid].(cart := cart)])
  }

  /** Replacing a user's cart by a valid one with distinct, generated line ids keeps the
      store valid; with at most one line per product it keeps carts sets. */
  lemma WithCartKeepsStore(st: Store, uid: Id, cart: seq<CartItem>)
    requires ValidStore(st) && uid in st.users
    requires ValidCart(cart) && LineIdsUnique(cart) && LineIdsCanonical(cart)
    ensures ValidStore(WithCart(st, uid, cart))
    ensures CartsAreSets(st) && AtMostOneLinePerProduct(cart) ==> CartsAreSets(WithCart(st, uid, cart))
  {
    var st' := WithCart(st, uid, cart);
    assert ValidUser(st'.users[uid]) by {
      assert ValidUser(st.users[uid]);
    }
    assert EmailsUnique(st'.users) by {
      forall a, b | a in st'.users && b in st'.users && a != b
        ensures st'.users[a].email != st'.users[b].email
      {
        assert st'.users[a].email == st.users[a].email && st'.users[b].email == st.users[b].email;
      }
    }
  }

  /** Filing a valid order with a consistent total keeps the store valid. */
  lemma AddOrderKeepsStore(st: Store, o: Order)
    requires ValidStore(st) && ValidOrder(o) && TotalConsistent(o)
    ensures ValidStore(st.(orders := st.orders + [o]))
    ensures CartsAreSets(st) ==> CartsAreSets(st.(orders := st.orders + [o]))
  {
    var orders := st.orders + [o];
    assert forall i :: 0 <= i < |st.orders| ==> orders[i] == st.orders[i];
  }

  // ---------------------------------------------------------------------------
  // Creating a user document
  // ---------------------------------------------------------------------------

  datatype SchemaError = NameRequired | EmailRequired | DuplicateEmail

  /** A new user document as the schema builds it: `name` trimmed, `email`
      lower-cased and trimmed, the cart defaulting to empty; then the required
      and unique validators. */
  function NewUser(users: map<Id, User>, id: Id, name: string, email: string): (r: Result<User, SchemaError>)
    ensures r.Ok? <==> (Text.Trim(name) != "" && NormalizeEmail(email) != ""
                        && forall k :: k in users ==> users[k].email != NormalizeEmail(email))
    ensures r.Ok? ==> r.value.id == id && r.value.cart == []
                      && r.value.name == Text.Trim(name) && r.value.email == NormalizeEmail(email)
    ensures r.Err? && r.error == DuplicateEmail ==> exists k :: k in users && users[k].email == NormalizeEmail(email)
  {
    var n := Text.Trim(name);
    var e := NormalizeEmail(email);
    if n == "" then Err(NameRequired)
    else if e == "" then Err(EmailRequired)
    else if exists k :: k in users && users[k].email == e then Err(DuplicateEmail)
    else Ok(User(id, n, e, []))
  }

  /** Filing a newly created user under a fresh id keeps the store valid. */
  lemma NewUserKeepsStoreValid(st: Store, id: Id, name: string, email: string)
    requires ValidStore(st) && CartsAreSets(st)
    requires IsCanonicalId(id) && id !in st.users
    requires NewUser(st.users, id, name, email).Ok?
    ensures var u := NewUser(st.users, id, name, email).value;
            var st' := st.(users := st.users[id := u]);
            ValidStore(st') && CartsAreSets(st')
  {
    var u := NewUser(st.users, id, name, email).value;
    assert ValidUser(u);
    AddUserKeepsStore(st, u);
  }

  /** Filing a valid user with an empty cart and an email no other user has,
      under its own fresh id, keeps the store valid and carts sets. */
  lemma AddUserKeepsStore(st: Store, u: User)
    requires ValidStore(st) && CartsAreSets(st)
    requires ValidUser(u) && u.cart == [] && u.id !in st.users
    requires forall k :: k in st.users ==> st.users[k].email != u.email
    ensures var st' := st.(users := st.users[u.id := u]);
            ValidStore(st') && CartsAreSets(st')
  {
    var users' := st.users[u.id := u];
    forall a, b | a in users' && b in users' && a != b
      ensures users'[a].email != users'[b].email
    {
      if a == u.id {
        assert b in st.users;
      } else if b == u.id {
        assert a in st.users;
      }
    }
  }
}
