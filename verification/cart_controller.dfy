/** The cart controller: reading the cart, the add-or-update upsert keyed by
    product, and removal of a line by its own id. Every handler first refuses a
    request without an authenticated user, touching nothing. */
module CartController {
  import opened Opt
  import opened Records
  import opened Replies
  import AM = AuthMiddleware
  import CV = CartValidator

  // ---------------------------------------------------------------------------
  // Reading the cart
  // ---------------------------------------------------------------------------

  /** A cart line as `populate("cart.product")` yields it: the product document,
      or null when the product no longer exists. */
  datatype PopulatedLine = PopulatedLine(id: Id, product: Option<Product>, quantity: int)

  /** The populate join, as a catalogue lookup per line. */
  function Populate(cart: seq<CartItem>, products: map<Id, Product>): (lines: seq<PopulatedLine>)
    ensures |lines| == |cart|
    ensures forall i :: 0 <= i < |cart| ==>
              && lines[i].id == cart[i].id && lines[i].quantity == cart[i].quantity
              && (lines[i].product.Some? <==> cart[i].product in products)
              && (lines[i].product.Some? ==> lines[i].product.value == products[cart[i].product])
  {
    seq(|cart|, i requires 0 <= i < |cart| =>
      var ref := cart[i].product;
      PopulatedLine(cart[i].id, if ref in products then Some(products[ref]) else None, cart[i].quantity))
  }

  /** `getCart`: the requester's cart with products joined. It writes nothing. */
  function GetCart(st: Store, auth: Option<AM.AuthUser>): (o: Outcome<seq<PopulatedLine>>)
    ensures auth.None? ==> o == Unauthorized
    ensures auth.Some? ==> (o.ServerError? <==> !IsObjectIdText(auth.value.id))
    ensures auth.Some? && IsObjectIdText(auth.value.id) ==>
              (o == NotFound(UserMissing) <==> CastId(auth.value.id).value !in st.users)
    ensures o.Success? ==> auth.Some? && CastId(auth.value.id).value in st.users
                           && o.body == Populate(st.users[CastId(auth.value.id).value].cart, st.products)
    ensures auth.Some? && IsObjectIdText(auth.value.id) && CastId(auth.value.id).value in st.users
            ==> o == Success(Populate(st.users[CastId(auth.value.id).value].cart, st.products))
    ensures o.CartEmpty? == false
  {
    if auth.None? then Unauthorized
    else
      match FindById(st.users, auth.value.id)
      case CastFailed => ServerError
      case Absent => NotFound(UserMissing)
      case Found(u) => Success(Populate(u.cart, st.products))
  }

  // ---------------------------------------------------------------------------
  // Upsert
  // ---------------------------------------------------------------------------

  /** `cart.findIndex(item => item.product.toString() === key)`. */
  function FindLine(cart: seq<CartItem>, key: Id): (i: int)
    ensures -1 <= i < |cart|
    ensures i >= 0 ==> cart[i].product == key && forall j :: 0 <= j < i ==> cart[j].product != key
    ensures i < 0 <==> forall j :: 0 <= j < |cart| ==> cart[j].product != key
  {
    if |cart| == 0 then -1
    else if cart[0].product == key then 0
    else
      var j := FindLine(cart[1..], key);
      if j < 0 then -1 else j + 1
  }

  /** The number of lines of `cart` for product `key`. */
  function CountLines(cart: seq<CartItem>, key: Id): (n: nat)
    ensures n <= |cart|
    ensures n == 0 <==> forall j :: 0 <= j < |cart| ==> cart[j].product != key
  {
    if |cart| == 0 then 0
    else (if cart[0].product == key then 1 else 0) + CountLines(cart[1..], key)
  }

  /** The cart edit of the upsert: the first line whose product is `key` gets
      quantity `q` (overwritten, not added to); with no such line, a new line
      `(freshId, ref, q)` is appended. */
  function UpsertLine(cart: seq<CartItem>, key: Id, q: int, freshId: Id, ref: Id): (r: seq<CartItem>)
    ensures FindLine(cart, key) >= 0 ==>
              && |r| == |cart|
              && r[FindLine(cart, key)] == cart[FindLine(cart, key)].(quantity := q)
              && forall j :: 0 <= j < |cart| && j != FindLine(cart, key) ==> r[j] == cart[j]
    ensures FindLine(cart, key) < 0 ==> |r| == |cart| + 1 && r[..|cart|] == cart && r[|cart|] == CartItem(freshId, ref, q)
  {
    var i := FindLine(cart, key);
    if i >= 0 then cart[i := cart[i].(quantity := q)] else cart + [CartItem(freshId, ref, q)]
  }

  /** `user.save()` of a changed cart: Mongoose validates the lines first and
      a failure goes to the error handler, leaving the store as it was. */
  function SaveCart(st: Store, uid: Id, cart: seq<CartItem>): (r: Reply<seq<CartItem>>)
    requires uid in st.users
    ensures r.outcome.Success? <==> ValidCart(cart)
    ensures r.outcome.Success? ==> r.outcome.body == cart && r.store == WithCart(st, uid, cart)
    ensures !r.outcome.Success? ==> r == Reply(ServerError, st)
  {
    if ValidCart(cart) then Reply(Success(cart), WithCart(st, uid, cart)) else Reply(ServerError, st)
  }

  /** The handler with the line match keyed by `matchRaw ? body.productId : product._id`. */
  function AddOrUpdate(st: Store, auth: Option<AM.AuthUser>, body: CV.CartBody, freshId: Id, matchRaw: bool)
    : (r: Reply<seq<CartItem>>)
    ensures !r.outcome.Success? ==> r.store == st
    ensures auth.None? ==> r.outcome == Unauthorized
    ensures auth.Some? && !IsObjectIdText(body.productId) ==> r.outcome == ServerError
    ensures auth.Some? && IsObjectIdText(body.productId) && CastId(body.productId).value !in st.products
            ==> r.outcome == NotFound(ProductMissing)
    ensures auth.Some? && IsObjectIdText(body.productId) && CastId(body.productId).value in st.products
            && IsObjectIdText(auth.value.id) && CastId(auth.value.id).value !in st.users
            ==> r.outcome == NotFound(UserMissing)
    ensures auth.Some? ==> r.outcome != Unauthorized
    ensures auth.Some? && IsObjectIdText(body.productId) && CastId(body.productId).value in st.products
            && !IsObjectIdText(auth.value.id)
            ==> r.outcome == ServerError
    ensures auth.Some? && IsObjectIdText(body.productId) && IsObjectIdText(auth.value.id)
            && CastId(body.productId).value in st.products && CastId(auth.value.id).value in st.users
            ==> var ref := st.products[CastId(body.productId).value].id;
                var cart := UpsertLine(st.users[CastId(auth.value.id).value].cart,
                                       if matchRaw then body.productId else ref, body.quantity, freshId, ref);
                (r.outcome.Success? <==> ValidCart(cart)) && (!ValidCart(cart) ==> r.outcome == ServerError)
    ensures r.outcome.Success? ==>
              && auth.Some? && IsObjectIdText(body.productId) && IsObjectIdText(auth.value.id)
              && var pid := CastId(body.productId).value;
                 var uid := CastId(auth.value.id).value;
                 && pid in st.products && uid in st.users
                 && var ref := st.products[pid].id;
                    && r.outcome.body == UpsertLine(st.users[uid].cart, if matchRaw then body.productId else ref,
                                                    body.quantity, freshId, ref)
                    && r.store == WithCart(st, uid, r.outcome.body)
  {
    if auth.None? then Reply(Unauthorized, st)
    else
      match FindById(st.products, body.productId)
      case CastFailed => Reply(ServerError, st)
      case Absent => Reply(NotFound(ProductMissing), st)
      case Found(product) =>
        match FindById(st.users, auth.value.id)
        case CastFailed => Reply(ServerError, st)
        case Absent => Reply(NotFound(UserMissing), st)
        case Found(user) =>
          var key := if matchRaw then body.productId else product.id;
          SaveCart(st, CastId(auth.value.id).value, UpsertLine(user.cart, key, body.quantity, freshId, product.id))
  }

  /** `addOrUpdateCartItem` as written: the existing line is looked for with the
      request's text of the product id, while a new line stores the product's
      own id. */
  function AddOrUpdateCartItemAsWritten(st: Store, auth: Option<AM.AuthUser>, body: CV.CartBody, freshId: Id)
    : (r: Reply<seq<CartItem>>)
    ensures auth.None? ==> r == Reply(Unauthorized, st)
    ensures auth.Some? && !IsObjectIdText(body.productId) ==> r == Reply(ServerError, st)
    ensures auth.Some? && IsObjectIdText(body.productId) && CastId(body.productId).value !in st.products
            ==> r == Reply(NotFound(ProductMissing), st)
    ensures auth.Some? && IsObjectIdText(body.productId) && CastId(body.productId).value in st.products
            && IsObjectIdText(auth.value.id) && CastId(auth.value.id).value !in st.users
            ==> r == Reply(NotFound(UserMissing), st)
    ensures auth.Some? ==> r.outcome != Unauthorized
    ensures auth.Some? && IsObjectIdText(body.productId) && CastId(body.productId).value in st.products
            && !IsObjectIdText(auth.value.id)
            ==> r == Reply(ServerError, st)
    ensures auth.Some? && IsObjectIdText(body.productId) && IsObjectIdText(auth.value.id)
            && CastId(body.productId).value in st.products && CastId(auth.value.id).value in st.users
            ==> var ref := st.products[CastId(body.productId).value].id;
                var cart := UpsertLine(st.users[CastId(auth.value.id).value].cart, body.productId, body.quantity, freshId, ref);
                (r.outcome.Success? <==> ValidCart(cart)) && (!ValidCart(cart) ==> r == Reply(ServerError, st))
    ensures !r.outcome.Success? ==> r.store == st
    ensures r.outcome.Success? ==>
              && auth.Some? && IsObjectIdText(body.productId) && IsObjectIdText(auth.value.id)
              && var uid := CastId(auth.value.id).value;
                 var pid := CastId(body.productId).value;
                 && uid in st.users && pid in st.products
                 && r.outcome.body == UpsertLine(st.users[uid].cart, body.productId, body.quantity, freshId,
                                                 st.products[pid].id)
                 && r.store == WithCart(st, uid, r.outcome.body)
  {
    AddOrUpdate(st, auth, body, freshId, true)
  }

  /** `addOrUpdateCartItem` with the line match keyed by the product's own id, so
      that every spelling of the same ObjectId finds the same line. The product
      is looked up before the user; nothing is saved unless the reply succeeds. */
  function AddOrUpdateCartItem(st: Store, auth: Option<AM.AuthUser>, body: CV.CartBody, freshId: Id)
    : (r: Reply<seq<CartItem>>)
    ensures auth.None? ==> r == Reply(Unauthorized, st)
    ensures auth.Some? && !IsObjectIdText(body.productId) ==> r == Reply(ServerError, st)
    ensures auth.Some? && IsObjectIdText(body.productId) && CastId(body.productId).value !in st.products
            ==> r == Reply(NotFound(ProductMissing), st)
    ensures auth.Some? && IsObjectIdText(body.productId) && CastId(body.productId).value in st.products
            && IsObjectIdText(auth.value.id) && CastId(auth.value.id).value !in st.users
            ==> r == Reply(NotFound(UserMissing), st)
    ensures auth.Some? ==> r.outcome != Unauthorized
    ensures auth.Some? && IsObjectIdText(body.productId) && CastId(body.productId).value in st.products
            && !IsObjectIdText(auth.value.id)
            ==> r == Reply(ServerError, st)
    ensures auth.Some? && IsObjectIdText(body.productId) && IsObjectIdText(auth.value.id)
            && CastId(body.productId).value in st.products && CastId(auth.value.id).value in st.users
            ==> var ref := st.products[CastId(body.productId).value].id;
                var cart := UpsertLine(st.users[CastId(auth.value.id).value].cart, ref, body.quantity, freshId, ref);
                (r.outcome.Success? <==> ValidCart(cart)) && (!ValidCart(cart) ==> r == Reply(ServerError, st))
    ensures !r.outcome.Success? ==> r.store == st
    ensures r.outcome.Success? ==>
              && auth.Some? && IsObjectIdText(body.productId) && IsObjectIdText(auth.value.id)
              && var pid := CastId(body.productId).value;
                 var uid := CastId(auth.value.id).value;
                 && pid in st.products && uid in st.users
                 && r.outcome.body == UpsertLine(st.users[uid].cart, st.products[pid].id, body.quantity, freshId,
                                                 st.products[pid].id)
                 && r.store == WithCart(st, uid, r.outcome.body)
  {
    AddOrUpdate(st, auth, body, freshId, false)
  }

  /** On a valid store the upsert succeeds exactly when the product and the
      user exist and the quantity is at least 1, and then the line written is
      keyed by the canonical product id. */
  lemma AddOrUpdateSucceeds(st: Store, auth: Option<AM.AuthUser>, body: CV.CartBody, freshId: Id)
    requires ValidStore(st)
    ensures var r := AddOrUpdateCartItem(st, auth, body, freshId);
            && (r.outcome.Success? <==>
                  && auth.Some? && IsObjectIdText(body.productId) && IsObjectIdText(auth.value.id)
                  && CastId(body.productId).value in st.products && CastId(auth.value.id).value in st.users
                  && body.quantity >= 1)
            && (r.outcome.Success? ==>
                  var pid := CastId(body.productId).value;
                  var uid := CastId(auth.value.id).value;
                  r.outcome.body == UpsertLine(st.users[uid].cart, pid, body.quantity, freshId, pid))
  {
    if auth.Some? && IsObjectIdText(body.productId) && IsObjectIdText(auth.value.id) {
      var pid := CastId(body.productId).value;
      var uid := CastId(auth.value.id).value;
      if pid in st.products && uid in st.users {
        UpsertKeepsValidCart(st.users[uid].cart, pid, body.quantity, freshId, pid);
      }
    }
  }

  // ---------------------------------------------------------------------------
  // Properties of the upsert
  // ---------------------------------------------------------------------------

  /** A valid cart stays valid when the quantity written is at least 1 and a
      new line refers to an ObjectId; with quantity below 1 the result is
      invalid. This holds whatever text the line match uses. */
  lemma UpsertKeepsValidCart(cart: seq<CartItem>, key: Id, q: int, freshId: Id, ref: Id)
    requires ValidCart(cart) && IsCanonicalId(ref)
    ensures ValidCart(UpsertLine(cart, key, q, freshId, ref)) <==> q >= 1
  {
    var r := UpsertLine(cart, key, q, freshId, ref);
    var i := FindLine(cart, key);
    if i >= 0 {
      assert r[i].quantity == q;
    } else {
      assert r[|cart|].quantity == q;
    }
  }

  /** The upsert keeps at most one line per product. */
  lemma UpsertKeepsAtMostOne(cart: seq<CartItem>, pid: Id, q: int, freshId: Id)
    requires AtMostOneLinePerProduct(cart)
    ensures AtMostOneLinePerProduct(UpsertLine(cart, pid, q, freshId, pid))
  {
  }

  /** A new line gets an id no other line has, so line ids stay distinct. */
  lemma UpsertKeepsLineIdsUnique(cart: seq<CartItem>, pid: Id, q: int, freshId: Id, ref: Id)
    requires LineIdsUnique(cart)
    requires forall j :: 0 <= j < |cart| ==> cart[j].id != freshId
    ensures LineIdsUnique(UpsertLine(cart, pid, q, freshId, ref))
  {
  }

  /** A new line gets the generated id, so every line id stays an ObjectId. */
  lemma UpsertKeepsLineIdsCanonical(cart: seq<CartItem>, key: Id, q: int, freshId: Id, ref: Id)
    requires LineIdsCanonical(cart) && IsCanonicalId(freshId)
    ensures LineIdsCanonical(UpsertLine(cart, key, q, freshId, ref))
  {
  }

  /** Applying the same upsert twice is the same as applying it once. */
  lemma UpsertIdempotent(cart: seq<CartItem>, pid: Id, q: int, freshId: Id, freshId2: Id)
    ensures var once := UpsertLine(cart, pid, q, freshId, pid);
            UpsertLine(once, pid, q, freshId2, pid) == once
  {
    var once := UpsertLine(cart, pid, q, freshId, pid);
    var i := FindLine(cart, pid);
    if i < 0 {
      assert once[|cart|].product == pid;
      assert FindLine(once, pid) == |cart|;
    } else {
      assert FindLine(once, pid) == i;
    }
  }

  /** Overwrite, not add: after upserts with `q1` and then `q2`, the cart holds
      exactly one line for the product, with quantity `q2`. */
  lemma UpsertOverwrites(cart: seq<CartItem>, pid: Id, q1: int, q2: int, f1: Id, f2: Id)
    requires AtMostOneLinePerProduct(cart)
    ensures var r := UpsertLine(UpsertLine(cart, pid, q1, f1, pid), pid, q2, f2, pid);
            CountLines(r, pid) == 1 && r[FindLine(r, pid)].quantity == q2
  {
    var once := UpsertLine(cart, pid, q1, f1, pid);
    UpsertKeepsAtMostOne(cart, pid, q1, f1);
    assert FindLine(once, pid) >= 0;
    var r := UpsertLine(once, pid, q2, f2, pid);
    UpsertKeepsAtMostOne(once, pid, q2, f2);
    var k := FindLine(r, pid);
    assert k >= 0;
    SingleLine(r, pid, k);
  }

  /** In a cart with at most one line per product, a line for `pid` is the only one. */
  lemma {:induction false} SingleLine(cart: seq<CartItem>, pid: Id, k: nat)
    requires AtMostOneLinePerProduct(cart)
    requires k < |cart| && cart[k].product == pid
    ensures CountLines(cart, pid) == 1
  {
    if k == 0 {
      assert forall j :: 0 <= j < |cart[1..]| ==> cart[1..][j].product != pid by {
        forall j | 0 <= j < |cart[1..]| ensures cart[1..][j].product != pid {
          assert cart[1..][j] == cart[j + 1];
        }
      }
    } else {
      assert cart[0].product != pid;
      SingleLine(cart[1..], pid, k - 1);
    }
  }

  /** The corrected handler keeps every store invariant, and one line per
      product, when the generated line id is new to the cart. */
  lemma AddOrUpdateKeepsStore(st: Store, auth: Option<AM.AuthUser>, body: CV.CartBody, freshId: Id)
    requires ValidStore(st) && CartsAreSets(st) && IsCanonicalId(freshId)
    requires auth.Some? && IsObjectIdText(auth.value.id) && CastId(auth.value.id).value in st.users
    requires forall j :: 0 <= j < |st.users[CastId(auth.value.id).value].cart| ==>
               st.users[CastId(auth.value.id).value].cart[j].id != freshId
    ensures var r := AddOrUpdateCartItem(st, auth, body, freshId);
            ValidStore(r.store) && CartsAreSets(r.store)
  {
    var r := AddOrUpdateCartItem(st, auth, body, freshId);
    AddOrUpdateSucceeds(st, auth, body, freshId);
    if r.outcome.Success? {
      var pid := CastId(body.productId).value;
      var uid := CastId(auth.value.id).value;
      var cart := st.users[uid].cart;
      UpsertKeepsAtMostOne(cart, pid, body.quantity, freshId);
      UpsertKeepsLineIdsUnique(cart, pid, body.quantity, freshId, pid);
      assert ValidUser(st.users[uid]);
      UpsertKeepsLineIdsCanonical(cart, pid, body.quantity, freshId, pid);
      UpsertKeepsValidCart(cart, pid, body.quantity, freshId, pid);
      WithCartKeepsStore(st, uid, r.outcome.body);
    }
  }

  // ---------------------------------------------------------------------------
  // The line match as written and as corrected
  // ---------------------------------------------------------------------------

  /** When the request spells the product id canonically, as the client does,
      and the product is filed under its own id, the handler as written and the
      corrected one give the same reply. */
  lemma AsWrittenAgreesOnCanonical(st: Store, auth: Option<AM.AuthUser>, body: CV.CartBody, freshId: Id)
    requires IsCanonicalId(body.productId)
    requires body.productId in st.products ==> st.products[body.productId].id == body.productId
    ensures AddOrUpdateCartItemAsWritten(st, auth, body, freshId) == AddOrUpdateCartItem(st, auth, body, freshId)
  {
    if auth.Some? && body.productId in st.products {
      assert CastId(body.productId) == Some(body.productId);
      if IsObjectIdText(auth.value.id) && CastId(auth.value.id).value in st.users {
        var p, u := st.products[body.productId], st.users[CastId(auth.value.id).value];
        AddOrUpdateFound(st, auth, body, freshId, true, p, u);
        AddOrUpdateFound(st, auth, body, freshId, false, p, u);
      }
    }
  }

  /** The handler as written succeeds on exactly the requests the corrected
      one does; only the line it writes differs, being matched by the request's
      text. */
  lemma AsWrittenSucceeds(st: Store, auth: Option<AM.AuthUser>, body: CV.CartBody, freshId: Id)
    requires ValidStore(st)
    ensures var r := AddOrUpdateCartItemAsWritten(st, auth, body, freshId);
            && (r.outcome.Success? <==>
                  && auth.Some? && IsObjectIdText(body.productId) && IsObjectIdText(auth.value.id)
                  && CastId(body.productId).value in st.products && CastId(auth.value.id).value in st.users
                  && body.quantity >= 1)
            && (r.outcome.Success? ==>
                  var pid := CastId(body.productId).value;
                  var uid := CastId(auth.value.id).value;
                  r.outcome.body == UpsertLine(st.users[uid].cart, body.productId, body.quantity, freshId, pid))
  {
    if auth.Some? && IsObjectIdText(body.productId) && IsObjectIdText(auth.value.id) {
      var pid := CastId(body.productId).value;
      var uid := CastId(auth.value.id).value;
      if pid in st.products && uid in st.users {
        UpsertKeepsValidCart(st.users[uid].cart, body.productId, body.quantity, freshId, pid);
      }
    }
  }

  /** The handler as written keeps every schema invariant of the store when the
      generated line id is new to the cart; what it can break is the one line
      per product no schema enforces (`AsWrittenDuplicatesLine`). */
  lemma AsWrittenKeepsStoreValid(st: Store, auth: Option<AM.AuthUser>, body: CV.CartBody, freshId: Id)
    requires ValidStore(st) && IsCanonicalId(freshId)
    requires auth.Some? && IsObjectIdText(auth.value.id) && CastId(auth.value.id).value in st.users
    requires forall j :: 0 <= j < |st.users[CastId(auth.value.id).value].cart| ==>
               st.users[CastId(auth.value.id).value].cart[j].id != freshId
    ensures ValidStore(AddOrUpdateCartItemAsWritten(st, auth, body, freshId).store)
  {
    var r := AddOrUpdateCartItemAsWritten(st, auth, body, freshId);
    AsWrittenSucceeds(st, auth, body, freshId);
    if r.outcome.Success? {
      var pid := CastId(body.productId).value;
      var uid := CastId(auth.value.id).value;
      var cart := st.users[uid].cart;
      UpsertKeepsLineIdsUnique(cart, body.productId, body.quantity, freshId, pid);
      assert ValidUser(st.users[uid]);
      UpsertKeepsLineIdsCanonical(cart, body.productId, body.quantity, freshId, pid);
      UpsertKeepsValidCart(cart, body.productId, body.quantity, freshId, pid);
      WithCartKeepsStore(st, uid, r.outcome.body);
    }
  }

  /** Once the product and the user are found, the handler saves the upserted cart. */
  lemma AddOrUpdateFound(st: Store, auth: Option<AM.AuthUser>, body: CV.CartBody, freshId: Id, matchRaw: bool,
                         p: Product, u: User)
    requires auth.Some?
    requires FindById(st.products, body.productId) == Found(p)
    requires FindById(st.users, auth.value.id) == Found(u)
    ensures CastId(auth.value.id).Some? && CastId(auth.value.id).value in st.users
    ensures AddOrUpdate(st, auth, body, freshId, matchRaw)
            == SaveCart(st, CastId(auth.value.id).value,
                        UpsertLine(u.cart, if matchRaw then body.productId else p.id, body.quantity, freshId, p.id))
  {
  }

  /** A cart line never matches a spelling of an id that is not canonical. */
  lemma NoLineForRawSpelling(cart: seq<CartItem>, text: string)
    requires ValidCart(cart)
    requires IsObjectIdText(text) && !IsCanonicalId(text)
    ensures FindLine(cart, text) == -1
  {
    forall j | 0 <= j < |cart| ensures cart[j].product != text {
      assert ValidCartItem(cart[j]);
    }
  }

  /** The line match as written compares the request's text, not the id it
      casts to. When the product id is sent in a spelling other than the
      canonical one (upper-case hex digits, say) and the cart already has a
      line for the product, the product is found but the line is not, and a
      second line for the same product is appended. */
  lemma AsWrittenDuplicatesLine(st: Store, uid: Id, email: string, text: string, q: int, freshId: Id)
    requires ValidStore(st)
    requires IsCanonicalId(uid) && uid in st.users
    requires IsObjectIdText(text) && !IsCanonicalId(text) && CastId(text).value in st.products
    requires FindLine(st.users[uid].cart, CastId(text).value) >= 0
    requires q >= 1
    ensures var r := AddOrUpdateCartItemAsWritten(st, Some(AM.AuthUser(uid, email)), CV.CartBody(text, q), freshId);
            var pid := CastId(text).value;
            var cart := st.users[uid].cart;
            && r.outcome == Success(cart + [CartItem(freshId, pid, q)])
            && !AtMostOneLinePerProduct(r.outcome.body)
            && !CartsAreSets(r.store)
  {
    var auth := Some(AM.AuthUser(uid, email));
    var body := CV.CartBody(text, q);
    var pid := CastId(text).value;
    var user := st.users[uid];
    var cart := user.cart;
    assert ValidUser(user);
    NoLineForRawSpelling(cart, text);
    var p := st.products[pid];
    assert p.id == pid;
    var cart' := UpsertLine(cart, text, q, freshId, pid);
    assert cart' == cart + [CartItem(freshId, pid, q)];
    assert ValidCart(cart') by {
      assert forall j :: 0 <= j < |cart| ==> cart'[j] == cart[j];
    }
    AddOrUpdateFound(st, auth, body, freshId, true, p, user);
    var i := FindLine(cart, pid);
    assert cart'[i].product == cart'[|cart|].product;
  }

  /** On the same requests the corrected handler overwrites the existing line
      and keeps one line per product. */
  lemma CorrectedOverwritesLine(st: Store, uid: Id, email: string, text: string, q: int, freshId: Id)
    requires ValidStore(st) && CartsAreSets(st)
    requires IsCanonicalId(uid) && uid in st.users
    requires IsObjectIdText(text) && CastId(text).value in st.products
    requires FindLine(st.users[uid].cart, CastId(text).value) >= 0
    requires q >= 1
    ensures var r := AddOrUpdateCartItem(st, Some(AM.AuthUser(uid, email)), CV.CartBody(text, q), freshId);
            var pid := CastId(text).value;
            var cart := st.users[uid].cart;
            var i := FindLine(cart, pid);
            && r.outcome == Success(cart[i := cart[i].(quantity := q)])
            && CartsAreSets(r.store)
  {
    var auth := Some(AM.AuthUser(uid, email));
    var body := CV.CartBody(text, q);
    var pid := CastId(text).value;
    var user := st.users[uid];
    var p := st.products[pid];
    assert p.id == pid;
    AddOrUpdateSucceeds(st, auth, body, freshId);
    UpsertKeepsAtMostOne(user.cart, pid, q, freshId);
  }

  // An ObjectId and the same id spelt in upper case: the spelling the line
  // match as written misses.
  const SampleProduct: Id := Repeat('a', 24)
  const SampleProductUpper: string := Repeat('A', 24)

  function Repeat(c: char, n: nat): (s: string)
    ensures |s| == n && forall i :: 0 <= i < n ==> s[i] == c
  {
    if n == 0 then [] else [c] + Repeat(c, n - 1)
  }

  /** The upper-case spelling names the same product and is not canonical, so
      it meets the conditions of `AsWrittenDuplicatesLine`. */
  lemma UpperCaseSpelling()
    ensures IsCanonicalId(SampleProduct)
    ensures IsObjectIdText(SampleProductUpper) && !IsCanonicalId(SampleProductUpper)
    ensures CastId(SampleProductUpper) == Some(SampleProduct)
  {
    assert Text.IsAsciiUpper(SampleProductUpper[0]);
    var l := Text.ToLower(SampleProductUpper);
    assert forall i :: 0 <= i < 24 ==> l[i] == SampleProduct[i];
    assert l == SampleProduct;
  }

  // ---------------------------------------------------------------------------
  // Removal
  // ---------------------------------------------------------------------------

  /** `cart.filter(item => item._id?.toString() !== id)`. */
  function RemoveLine(cart: seq<CartItem>, id: Id): (r: seq<CartItem>)
    ensures |r| <= |cart|
    ensures forall k :: 0 <= k < |r| ==> r[k].id != id && r[k] in cart
    ensures forall k :: 0 <= k < |cart| && cart[k].id != id ==> cart[k] in r
    ensures |r| == |cart| <==> forall k :: 0 <= k < |cart| ==> cart[k].id != id
  {
    if |cart| == 0 then []
    else if cart[0].id == id then RemoveLine(cart[1..], id)
    else
      var rest := RemoveLine(cart[1..], id);
      assert forall k :: 1 <= k < |cart| ==> cart[k] == cart[1..][k - 1];
      [cart[0]] + rest
  }

  /** Removal keeps the surviving lines in their original order: it distributes
      over concatenation. */
  lemma {:induction false} RemoveLineAppend(a: seq<CartItem>, b: seq<CartItem>, id: Id)
    ensures RemoveLine(a + b, id) == RemoveLine(a, id) + RemoveLine(b, id)
  {
    if |a| > 0 {
      assert (a + b)[1..] == a[1..] + b;
      RemoveLineAppend(a[1..], b, id);
    } else {
      assert a + b == b;
    }
  }

  /** When nothing matches, removal returns the cart unchanged. */
  lemma {:induction false} RemoveLineNoMatch(cart: seq<CartItem>, id: Id)
    requires forall k :: 0 <= k < |cart| ==> cart[k].id != id
    ensures RemoveLine(cart, id) == cart
  {
    if |cart| > 0 {
      RemoveLineNoMatch(cart[1..], id);
    }
  }

  /** With distinct line ids, removing the id of line `k` drops exactly that line. */
  lemma RemoveUniqueLine(cart: seq<CartItem>, k: nat, id: Id)
    requires LineIdsUnique(cart)
    requires k < |cart| && cart[k].id == id
    ensures RemoveLine(cart, id) == cart[..k] + cart[k + 1..]
  {
    assert cart == cart[..k] + ([cart[k]] + cart[k + 1..]);
    RemoveLineAppend(cart[..k], [cart[k]] + cart[k + 1..], id);
    RemoveLineAppend([cart[k]], cart[k + 1..], id);
    RemoveLineNoMatch(cart[..k], id);
    RemoveLineNoMatch(cart[k + 1..], id);
  }

  /** Removal keeps a valid cart valid. */
  lemma RemoveLineKeepsValid(cart: seq<CartItem>, id: Id)
    requires ValidCart(cart)
    ensures ValidCart(RemoveLine(cart, id))
  {
  }

  /** Removal keeps line ids distinct. */
  lemma {:induction false} RemoveLineKeepsIdsUnique(cart: seq<CartItem>, id: Id)
    requires LineIdsUnique(cart)
    ensures LineIdsUnique(RemoveLine(cart, id))
  {
    if |cart| > 0 {
      var rest := cart[1..];
      assert LineIdsUnique(rest) by {
        forall i, j | 0 <= i < j < |rest| ensures rest[i].id != rest[j].id {
          assert rest[i] == cart[i + 1] && rest[j] == cart[j + 1];
        }
      }
      RemoveLineKeepsIdsUnique(rest, id);
      assert forall k :: 0 <= k < |rest| ==> rest[k].id != cart[0].id;
    }
  }

  /** Removal keeps at most one line per product. */
  lemma {:induction false} RemoveLineKeepsAtMostOne(cart: seq<CartItem>, id: Id)
    requires AtMostOneLinePerProduct(cart)
    ensures AtMostOneLinePerProduct(RemoveLine(cart, id))
  {
    if |cart| > 0 {
      var rest := cart[1..];
      assert AtMostOneLinePerProduct(rest) by {
        forall i, j | 0 <= i < j < |rest| ensures rest[i].product != rest[j].product {
          assert rest[i] == cart[i + 1] && rest[j] == cart[j + 1];
        }
      }
      RemoveLineKeepsAtMostOne(rest, id);
      assert forall k :: 0 <= k < |rest| ==> rest[k].product != cart[0].product;
    }
  }

  /** `removeCartItem`: 404 when no line has the id, and then nothing is saved. */
  function RemoveCartItem(st: Store, auth: Option<AM.AuthUser>, lineId: Id): (r: Reply<seq<CartItem>>)
    requires ValidStore(st)
    ensures auth.None? ==> r == Reply(Unauthorized, st)
    ensures !r.outcome.Success? ==> r.store == st
    ensures auth.Some? ==> r.outcome != Unauthorized
    ensures r.outcome.ServerError? <==> auth.Some? && !IsObjectIdText(auth.value.id)
    ensures auth.Some? && IsObjectIdText(auth.value.id) && CastId(auth.value.id).value !in st.users
            ==> r == Reply(NotFound(UserMissing), st)
    ensures auth.Some? && IsObjectIdText(auth.value.id) && CastId(auth.value.id).value in st.users ==>
              var cart := st.users[CastId(auth.value.id).value].cart;
              (r.outcome == NotFound(LineMissing) <==> forall k :: 0 <= k < |cart| ==> cart[k].id != lineId)
    ensures r.outcome.Success? ==>
              && auth.Some? && IsObjectIdText(auth.value.id)
              && var uid := CastId(auth.value.id).value;
                 && uid in st.users
                 && r.outcome.body == RemoveLine(st.users[uid].cart, lineId)
                 && |r.outcome.body| < |st.users[uid].cart|
                 && r.store == WithCart(st, uid, r.outcome.body)
  {
    if auth.None? then Reply(Unauthorized, st)
    else
      match FindById(st.users, auth.value.id)
      case CastFailed => Reply(ServerError, st)
      case Absent => Reply(NotFound(UserMissing), st)
      case Found(user) =>
        var kept := RemoveLine(user.cart, lineId);
        if |kept| == |user.cart| then Reply(NotFound(LineMissing), st)
        else
          RemoveLineKeepsValid(user.cart, lineId);
          SaveCart(st, CastId(auth.value.id).value, kept)
  }

  /** Removal keeps every store invariant and one line per product. */
  lemma RemoveKeepsStore(st: Store, auth: Option<AM.AuthUser>, lineId: Id)
    requires ValidStore(st) && CartsAreSets(st)
    ensures var r := RemoveCartItem(st, auth, lineId);
            ValidStore(r.store) && CartsAreSets(r.store)
  {
    var r := RemoveCartItem(st, auth, lineId);
    if r.outcome.Success? {
      var uid := CastId(auth.value.id).value;
      assert ValidUser(st.users[uid]);
      RemoveLineKeepsValid(st.users[uid].cart, lineId);
      RemoveLineKeepsIdsUnique(st.users[uid].cart, lineId);
      RemoveLineKeepsAtMostOne(st.users[uid].cart, lineId);
      WithCartKeepsStore(st, uid, r.outcome.body);
    }
  }
}
