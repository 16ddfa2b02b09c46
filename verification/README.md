# Cart and order core of a small web shop

The shop has an Express/Mongoose backend and a Next.js client. This project models its cart-and-order logic in Dafny and proves properties of that model.

**Backend**
- The three cart handlers: `getCart`, the add-or-update upsert keyed by product, and removal of a line by its own id.
- The two order handlers: `placeOrder` and `getUserOrders`. `placeOrder` snapshots the price of every line, totals the order and clears the cart.
- The `User` and `Order` schemas, read as invariants of the store.
- The zod validator of a cart request body.
- The bearer-token middleware. It follows the `Authorization: Bearer` form of section 2.1 of RFC 6750, matched as the case-sensitive prefix `"Bearer "` and a split on single spaces.

**Client**
- The authentication reducer.
- The quantity selector.
- The product card's "add one more" button.
- The header's cart badge and navigation links.
- The totals of the cart, checkout and order-history pages.

**Modelling choices**
- The database is a `Store`: users and products are maps from canonical ObjectId text to documents, and orders are a sequence in insertion order.
- `findById(text)` casts its argument. Text that is not 24 hex digits fails with a CastError. Any other text is lower-cased to the canonical id and looked up.
- `populate` is a catalogue lookup per line.
- Each handler returns a `Reply`: an outcome plus the store after the request. The outcome is a success body, 401, 404 (user, product or line), 400 "Cart is empty", or 500. A 500 stands for an exception handed to `next`.
- Generated ids are parameters: the `_id` of a new cart line and of a new order. So is the token verifier.
- Prices are whole cents.
- The client's optional JSON fields are `Option`s. JavaScript's `x || d` and `x ?? d` are modelled separately, and are proved to agree for the default 0.
- `parseInt`, `String(n)`, `trim`, `split`, `toUpperCase` and `slice(-8)` are written out in the `Text` module.
- `placeOrder` reads the price of each populated product. A cart line whose product no longer exists populates to `null`, and reading its price throws. The model follows the code and answers 500 for such a cart, rather than requiring every product to exist.

The modules follow the source files:
- `Records` holds the documents, schemas and store.
- `CartController`, `OrderController`, `CartValidator` and `AuthMiddleware` are the backend.
- `ApiDto`, `AuthSlice`, `QuantitySelector`, `ProductCard`, `Header`, `CartPage`, `CheckoutPage` and `OrdersPage` are the client.
- `Flows` holds the properties that join client and server.

## Model

| member | source | states |
|---|---|---|
| Records.CastId | backend/src/controllers/cart.controller.ts:40-45 | Text is accepted as an ObjectId exactly when it is 24 hex digits. The id it names is the canonical, lower-case spelling of the same digits. A canonical id casts to itself. |
| Records.FindById | backend/src/controllers/cart.controller.ts:40-48 | `findById` fails with a cast error exactly on non-ObjectId text. Otherwise it finds the document filed under the cast id, or reports it absent. |
| Records.NormalizeEmail | backend/src/models/User.ts:29-35 | A stored email is trimmed and has no upper-case letters. |
| Records.NormalizeEmailCutsSpace | backend/src/models/User.ts:29-35 | The stored email is the lower-cased address with its surrounding white space cut off, and nothing else removed: a slice of the lower-cased text whose cut-off borders are white space in the original. |
| Records.NormalizeEmailOfPadded | backend/src/models/User.ts:29-35 | An address padded with white space on either side is stored as the lower-cased address itself. So padding cannot get past the unique email index. |
| Records.NewUser | backend/src/models/User.ts:26-37 | A user document is created exactly when the trimmed name is non-empty, the normalised email is non-empty, and no stored user has that email. A new user has the trimmed name, the normalised email and an empty cart. A duplicate-email error names an existing holder of the email. |
| Records.NewUserKeepsStoreValid | backend/src/models/User.ts:26-37 | Filing a newly created user under a fresh id keeps every schema invariant and the unique email index. |
| Records.AddUserKeepsStore | backend/src/models/User.ts:28-37 | Adding a valid user with an empty cart and an unused email keeps the store valid and every cart free of repeated products. |
| Records.WithCart | backend/src/controllers/cart.controller.ts:60 | Saving one user's cart changes that user's cart and nothing else: no other user, no product and no order. |
| Records.WithCartKeepsStore | backend/src/models/User.ts:18-37 | Saving a cart whose lines satisfy `cartItemSchema` and have distinct, generated ObjectId line ids keeps the store valid. Emails stay unique because saving a cart does not touch them. |
| Records.AddOrderKeepsStore | backend/src/models/Order.ts:17-33 | Storing an order that satisfies `orderSchema`, with a total equal to the sum of its lines, keeps every stored order valid. |
| Replies.Status | backend/src/controllers/order.controller.ts:12-49 | A success carries the route's own status. A missing user on the request gives 401, a missing document 404, an empty cart 400, and an exception 500. |
| Replies.Message | backend/src/middleware/errorHandler.ts:8-13 | Every error the controllers answer themselves carries its own message. An exception's reply carries the exception's own message, which the model does not hold. |
| Replies.ErrorRepliesDistinct | backend/src/controllers/cart.controller.ts:14-89 | Two error replies other than an exception's 500 with the same status and the same message are the same error. So a client can tell every handled error apart. |
| AuthMiddleware.BearerToken | backend/src/middleware/authMiddleware.ts:22 | The token is the run of non-space characters right after `"Bearer "`. It ends at the end of the header or at the next space. |
| AuthMiddleware.RequireAuth | backend/src/middleware/authMiddleware.ts:16-30 | A missing header, an empty header, or one not starting with the exact text `"Bearer "` is refused with "Authorization token missing". A request proceeds exactly when the verifier accepts the bearer token. It then carries `{id: userId, email}` from the payload. A header with the scheme whose token the verifier rejects is refused with "Invalid or expired token". Every refusal has one of the two 401 messages. |
| AuthMiddleware.BareSchemeGivesEmptyToken | backend/src/middleware/authMiddleware.ts:22 | The header `"Bearer "` alone hands the empty token to verification. |
| AuthMiddleware.TokenIsRemainder | backend/src/middleware/authMiddleware.ts:22 | When the rest of the header holds no space, the token is all of it. |
| Text.JoinSplit | backend/src/middleware/authMiddleware.ts:22 | Joining the pieces of `split` with the separator rebuilds the text. So `split` loses nothing but the separators. |
| Text.SplitJoin | backend/src/middleware/authMiddleware.ts:22 | Splitting a join of separator-free pieces gives back exactly those pieces. |
| Text.Split | backend/src/middleware/authMiddleware.ts:22 | `split(" ")` always yields at least one piece, and no piece contains the separator. |
| Text.SecondPiece | backend/src/middleware/authMiddleware.ts:22 | For text of the form prefix, separator, rest, with no separator in the prefix: the first piece is the prefix, and the second piece is the first piece of the rest. |
| Text.IntToString | frontend/src/components/Header.tsx:25 | `String(n)` is the canonical decimal spelling of `n`: a minus sign exactly for a negative number, then at least one digit with no leading zero, whose value is the magnitude of `n`. |
| Text.NumeralIsRendering | frontend/src/components/Header.tsx:25 | A natural number has exactly one canonical numeral, the one `String` renders. |
| Text.DecimalIsRendering | frontend/src/components/Header.tsx:25 | An integer has exactly one canonical decimal spelling, the one `String` renders. |
| Text.ParseIntOfDecimal | frontend/src/components/ui/QuantitySelector.tsx:50-58 | `parseInt` reads every canonical decimal spelling back as the number it spells. |
| Text.ParseIntRoundTrip | frontend/src/components/ui/QuantitySelector.tsx:50-58 | `parseInt(String(n), 10)` is `n` for every integer, negative ones included. |
| Text.ParseInt | frontend/src/components/ui/QuantitySelector.tsx:50 | `parseInt(s, 10)` is NaN exactly when, after leading white space and one optional sign, no decimal digit follows. |
| Text.NatToStringShort | frontend/src/components/Header.tsx:25 | Counts below 100 render in at most two characters, and below 1000 in at most three. |
| Text.Trim | backend/src/models/User.ts:28 | The result is a slice of the input with no white space at either end. Everything cut off before and after it is white space. It is non-empty whenever the input has a character that is not white space. |
| Text.TrimKeepsMiddle | backend/src/models/User.ts:28 | For text made of white space, then a trimmed middle, then white space, trimming gives exactly the middle. |
| Text.TrimOfPadded | backend/src/models/User.ts:28 | Trimming white-space padding off a trimmed text gives back that text. |
| Text.TrimIdempotent | backend/src/models/User.ts:28-34 | Trimming a trimmed string changes nothing. |
| Text.ToLower | backend/src/models/User.ts:33 | Lower-casing maps each character on its own and keeps the length. |
| Text.ToUpper | frontend/app/orders/page.tsx:106 | Upper-casing maps each character on its own and keeps the length. |
| CartValidator.Validate | backend/src/validators/cart.validator.ts:5-6 | A body is accepted exactly when `productId` is a non-empty string and `quantity` is a whole number at least 1. The accepted body keeps both values. A rejection lists at least one issue. It names the `productId` issue exactly when that field is missing or empty, and names "too small" and "not an integer" whenever those hold. |
| CartController.Populate | backend/src/controllers/cart.controller.ts:17-22 | Each line keeps its id and quantity. Its product is the catalogue document, or null exactly when the product is gone. |
| CartController.GetCart | backend/src/controllers/cart.controller.ts:7-26 | 401 without a user. 500 exactly for an id that does not cast. 404 exactly when no such user exists. Otherwise 200 with the user's own cart, populated, for an id in either case of hex digits. It never answers "Cart is empty". |
| CartController.FindLine | backend/src/controllers/cart.controller.ts:50-52 | The index of the first line for the key, or -1 exactly when no line has that product. |
| CartController.CountLines | backend/src/controllers/cart.controller.ts:50-58 | The number of lines for a product is at most the cart's length. It is 0 exactly when no line has that product. |
| CartController.UpsertLine | backend/src/controllers/cart.controller.ts:50-58 | With a line for the product, only that line changes: its quantity is overwritten. Otherwise exactly one line is appended at the end, and the old lines keep their order. |
| CartController.SaveCart | backend/src/controllers/cart.controller.ts:60-64 | The save succeeds exactly when every line satisfies `cartItemSchema`. A failed save answers 500 and leaves the store unchanged. |
| CartController.AddOrUpdate | backend/src/controllers/cart.controller.ts:34-62 | 401 exactly without a user. 500 for a product id that does not cast. 404 "Product not found" before the user is looked up. Once the product is found: 500 for a requester id that does not cast, 404 for a missing user, and for an existing user success exactly when the upserted cart passes `cartItemSchema`, 500 otherwise. Nothing is saved unless the reply succeeds. A success holds the upserted cart of the requester, and the store holds it too. |
| CartController.AddOrUpdateCartItemAsWritten | backend/src/controllers/cart.controller.ts:34-62 | Every reply of the handler as written. 401 exactly without a user. 500 for a product id that does not cast. 404 for a missing product. Once the product is found: 500 for a requester id that does not cast, 404 for a missing user, and for an existing user a 500 exactly when the upserted cart fails `cartItemSchema` (quantity below 1). Nothing is saved unless the reply succeeds. On success the existing line is searched for with the request's raw `productId` text, a new line stores the product's own id, and the store holds the upserted cart. |
| CartController.AddOrUpdateCartItem | backend/src/controllers/cart.controller.ts:34-62 | Every reply of the handler, with the line match keyed by the product's id. 401 exactly without a user. 500 for a product id that does not cast. 404 for a missing product. Once the product is found: 500 for a requester id that does not cast, 404 for a missing user, and for an existing user a 500 exactly when the upserted cart fails `cartItemSchema`. Failures touch nothing. A success holds the upserted cart, and the store holds it too. |
| CartController.AddOrUpdateSucceeds | backend/src/controllers/cart.controller.ts:40-62 | On a valid store the upsert succeeds exactly when the user and the product exist and the quantity is at least 1. The line written is keyed by the canonical product id. |
| CartController.UpsertKeepsValidCart | backend/src/models/User.ts:18-24 | The upserted cart satisfies `cartItemSchema` exactly when the requested quantity is at least 1, whatever text the line match uses. |
| CartController.UpsertKeepsAtMostOne | backend/src/controllers/cart.controller.ts:50-58 | A cart with at most one line per product still has at most one after an upsert. |
| CartController.UpsertKeepsLineIdsUnique | backend/src/controllers/cart.controller.ts:56-58 | A new line gets an id that no other line has, so line ids stay distinct. |
| CartController.UpsertKeepsLineIdsCanonical | backend/src/models/User.ts:18-24 | A new line gets the generated ObjectId, so every line id stays a canonical ObjectId. |
| CartController.UpsertIdempotent | backend/src/controllers/cart.controller.ts:50-58 | Repeating the same upsert leaves the cart as the first one did. |
| CartController.UpsertOverwrites | backend/src/controllers/cart.controller.ts:54-55 | After upserts with q1 and then q2, exactly one line has the product, and its quantity is q2: overwrite, not add. |
| CartController.SingleLine | backend/src/controllers/cart.controller.ts:54-55 | In a cart with at most one line per product, a product that has a line has exactly one. |
| CartController.AddOrUpdateKeepsStore | backend/src/controllers/cart.controller.ts:50-60 | The corrected upsert keeps every schema invariant of the store and one line per product in every cart. This holds when the new line's generated id is an ObjectId new to the cart. |
| CartController.AsWrittenAgreesOnCanonical | backend/src/controllers/cart.controller.ts:34-62 | When the request spells the product id canonically and the product is filed under its own id, the handler as written and the corrected one give the same reply. |
| CartController.AsWrittenSucceeds | backend/src/controllers/cart.controller.ts:40-62 | On a valid store the handler as written succeeds exactly when the user and the product exist and the quantity is at least 1. The line written is matched by the request's text. |
| CartController.AsWrittenKeepsStoreValid | backend/src/controllers/cart.controller.ts:50-60 | The handler as written keeps every schema invariant of the store when the generated line id is an ObjectId new to the cart. It does not keep one line per product; see `AsWrittenDuplicatesLine`. |
| CartController.NoLineForRawSpelling | backend/src/controllers/cart.controller.ts:50-52 | A stored cart line never matches a non-canonical spelling of an ObjectId. |
| CartController.AsWrittenDuplicatesLine | backend/src/controllers/cart.controller.ts:50-58 | As written: a product id sent in a non-canonical spelling finds the product but misses its existing line. A second line for the same product is appended, and the saved cart has a repeated product. |
| CartController.CorrectedOverwritesLine | backend/src/controllers/cart.controller.ts:50-58 | Corrected: on the same requests the existing line's quantity is overwritten, and every cart keeps one line per product. |
| CartController.UpperCaseSpelling | backend/src/controllers/cart.controller.ts:40-51 | Twenty-four `A`s are not canonical, yet they cast to the canonical id of twenty-four `a`s. So an input for the duplicate exists. |
| CartController.Repeat | backend/src/controllers/cart.controller.ts:40-51 | `n` copies of one character, which spell the sample ids used for the duplicate-line witness. |
| CartController.RemoveLine | backend/src/controllers/cart.controller.ts:86 | Removal keeps exactly the lines whose id differs. The length is unchanged exactly when no line has the id. |
| CartController.RemoveLineAppend | backend/src/controllers/cart.controller.ts:86 | The filter distributes over concatenation, so surviving lines keep their original order. |
| CartController.RemoveLineNoMatch | backend/src/controllers/cart.controller.ts:85-90 | With no line carrying the id, the cart is unchanged. |
| CartController.RemoveUniqueLine | backend/src/controllers/cart.controller.ts:86 | With distinct line ids, removing line k's id drops exactly line k. Everything before and after it stays in order. |
| CartController.RemoveLineKeepsValid | backend/src/models/User.ts:18-24 | The lines left by a removal still satisfy `cartItemSchema`. |
| CartController.RemoveLineKeepsIdsUnique | backend/src/controllers/cart.controller.ts:86 | The lines left by a removal still have distinct ids. |
| CartController.RemoveLineKeepsAtMostOne | backend/src/controllers/cart.controller.ts:86 | The lines left by a removal still have at most one line per product. |
| CartController.RemoveCartItem | backend/src/controllers/cart.controller.ts:74-94 | 401 exactly without a user. 500 exactly for an id that does not cast. 404 "User not found" for a requester who does not exist. "Cart item not found" exactly when no line has the id. Failures change nothing. A success holds the shorter, filtered cart, and the store holds it too. The contract assumes a valid store, which every handler keeps valid (the keeps-store lemmas). |
| CartController.RemoveKeepsStore | backend/src/controllers/cart.controller.ts:85-94 | Removal keeps every store invariant and one line per product. |
| OrderController.SnapshotLine | backend/src/controllers/order.controller.ts:25-33 | An order line carries the product's id, the cart quantity and the catalogue price. |
| OrderController.Snapshot | backend/src/controllers/order.controller.ts:25-33 | There are lines exactly when every cart product is in the catalogue. They correspond one for one and in order with the cart lines. Each has the same product and quantity, and the product's current price as `priceAtOrder`. |
| OrderController.ReduceTotalIsSum | backend/src/controllers/order.controller.ts:35-38 | The `reduce` from 0 equals the sum over the lines of `priceAtOrder * quantity`. |
| OrderController.ItemsTotalAppend | backend/src/controllers/order.controller.ts:35-38 | The order total of a concatenation is the sum of the totals of its parts. |
| OrderController.PlaceOrder | backend/src/controllers/order.controller.ts:12-49 | 401 without a user, and 404 exactly for a missing user. "Cart is empty" exactly for an empty cart. 500 while a cart product is gone, and a signed-in requester never gets 401. Failures leave the store unchanged. A success is an order owned by the requester with lines matching the cart, a total equal to their sum, and `orderSchema` satisfied. Afterwards the cart is empty and this one order has been appended. |
| OrderController.PlaceOrderSucceeds | backend/src/controllers/order.controller.ts:12-49 | On a valid store, placement succeeds exactly when the user exists and has a non-empty cart whose products are all in the catalogue. |
| OrderController.PlaceOrderKeepsStore | backend/src/controllers/order.controller.ts:40-47 | Placing an order keeps every store invariant and one line per product in every cart. |
| OrderController.OrdersOf | backend/src/controllers/order.controller.ts:65-67 | The history contains only stored orders of the requester. |
| OrderController.OrdersOfMembers | backend/src/controllers/order.controller.ts:65-67 | An order is in the history exactly when it is stored and owned by the requester. |
| OrderController.OrdersOfAppend | backend/src/controllers/order.controller.ts:65-67 | The filter splits over concatenation, so the history keeps store order. |
| OrderController.GetUserOrders | backend/src/controllers/order.controller.ts:61-69 | 401 without a user, and 500 exactly for an id that does not cast. Otherwise the reply is 200 with the requester's orders, whether or not the user still exists. It never answers 404. |
| OrderController.PlaceOrderExtendsHistory | backend/src/controllers/order.controller.ts:40-69 | After a placement the requester's history is the old one followed by the new order. Every other user's history is unchanged. |
| ApiDto.OrElse | frontend/app/checkout/page.tsx:48 | The logical-or default gives the value when it is present and not 0, and the default otherwise. |
| ApiDto.OrElseZero | frontend/app/checkout/page.tsx:48 | With default 0, the logical-or default and the nullish default `??` agree. |
| ApiDto.ProductIdOf | frontend/src/components/ProductCard.tsx:24 | `item.product?._id`: absent when the product is absent. |
| ApiDto.ProductJson | backend/src/controllers/cart.controller.ts:17-22 | A product's JSON carries its id, title and price. |
| ApiDto.CartJson | backend/src/controllers/cart.controller.ts:22 | `{cart}` has one entry per line, in order, with the line's id and quantity. It has the product's JSON exactly when the product populated. |
| ApiDto.OrderJson | backend/src/controllers/order.controller.ts:65-69 | An order's JSON keeps its id, owner, total and each line's quantity and price. A line's product is present exactly when it is still in the catalogue. |
| ApiDto.RequestBody | backend/src/validators/cart.validator.ts:5-6 | The client's request reaches the validator as a string id and a finite number. |
| ApiDto.RequestAccepted | backend/src/validators/cart.validator.ts:5-6 | A request with a non-empty product id and a quantity of at least 1 passes the validator unchanged. |
| AuthSlice.Reduce | frontend/src/features/auth/authSlice.ts:22-37 | Every action hydrates. `setCredentials` stores user and token verbatim, and is authenticated exactly when the token is non-empty. `logout` clears both and signs out. `setHydrated` changes nothing else. |
| AuthSlice.InitialState | frontend/src/features/auth/authSlice.ts:11-16 | The initial state has no user, no token, no sign-in, and is not hydrated. |
| AuthSlice.ReduceKeepsInv | frontend/src/features/auth/authSlice.ts:22-37 | Every transition keeps the rule that signed-in means a non-empty token. |
| AuthSlice.RunKeepsInv | frontend/src/features/auth/authSlice.ts:22-37 | Any sequence of transitions keeps that rule. |
| AuthSlice.ReachableInv | frontend/src/features/auth/authSlice.ts:11-37 | Every state reachable from the initial one is signed in only with a non-empty token. |
| AuthSlice.HydratedStays | frontend/src/features/auth/authSlice.ts:27-36 | Once hydrated, the state stays hydrated, and any one action hydrates. |
| AuthSlice.LogoutThenLogin | frontend/src/features/auth/authSlice.ts:22-33 | After any history, `logout` leaves nobody signed in. A following `setCredentials` is stored verbatim. |
| AuthSlice.RunAppend | frontend/src/features/auth/authSlice.ts:22-37 | Dispatching two batches in turn is dispatching their concatenation. |
| QuantitySelector.WithDefaults | frontend/src/components/ui/QuantitySelector.tsx:20-24 | Omitted props default to min 1, max 99 and enabled. Given props are kept. |
| QuantitySelector.Increment | frontend/src/components/ui/QuantitySelector.tsx:33-37 | Emits exactly when `value < max`, and then emits `value + 1`, which is at most max. |
| QuantitySelector.Decrement | frontend/src/components/ui/QuantitySelector.tsx:39-43 | Emits exactly when `value > min`, and then emits `value - 1`, which is at least min. |
| QuantitySelector.ButtonsMatchHandlers | frontend/src/components/ui/QuantitySelector.tsx:77-99 | On an enabled selector, each button is enabled exactly when its handler would emit. |
| QuantitySelector.Clamp | frontend/src/components/ui/QuantitySelector.tsx:52-56 | Unparseable text or a value below min gives min, and above max gives max. A value in range is kept. With min <= max the result is always in range. |
| QuantitySelector.Blur | frontend/src/components/ui/QuantitySelector.tsx:49-62 | The field's text is reset to the canonical decimal spelling of the clamped value, which parses back to it. `onChange` fires exactly when that value differs from the current one, and then carries it. |
| QuantitySelector.KeyDown | frontend/src/components/ui/QuantitySelector.tsx:64-68 | Enter behaves exactly as blur, and any other key does nothing. |
| QuantitySelector.BlurStable | frontend/src/components/ui/QuantitySelector.tsx:49-62 | Once the emitted value is taken up, blurring the text it wrote back emits nothing and keeps the text. |
| QuantitySelector.BlurKeepsInRange | frontend/src/components/ui/QuantitySelector.tsx:49-62 | An in-range value whose own text is blurred emits nothing. |
| QuantitySelector.DefaultsEmitQuantities | frontend/src/components/ui/QuantitySelector.tsx:20-62 | With the default bounds, a blur emits only quantities from 1 to 99. Decrement never emits below 1, and increment from a non-negative value emits 1 to 99. |
| ProductCard.FindItem | frontend/src/components/ProductCard.tsx:24 | The first line whose product id equals the card's, or none exactly when no line matches. |
| ProductCard.QuantityInCart | frontend/src/components/ProductCard.tsx:24-25 | The found line's quantity, with a missing or 0 quantity counting 0. No cart data, or no matching line, also gives 0. |
| ProductCard.AddToCart | frontend/src/components/ProductCard.tsx:31-45 | Without a product id, nothing happens. Signed out, the card redirects to `/login?redirect=/products/<id>` and sends no request. Signed in, it requests the product's id with `quantityInCart + 1`. |
| ProductCard.ButtonLabel | frontend/src/components/ProductCard.tsx:119-144 | "Add Another" exactly when the "in Cart" badge shows (`ShowsInCartBadge`: `quantityInCart > 0`, ProductCard.tsx:119), and "Add to Cart" otherwise. |
| ProductCard.RequestIsValid | frontend/src/components/ProductCard.tsx:42-45 | While no cart quantity is negative, the requested quantity is at least 1 and the id is non-empty. |
| Header.SumQuantitiesIsCount | frontend/src/components/Header.tsx:24 | The left `reduce` of the quantities, each defaulted to 0 by logical or, equals the sum of the quantities, a missing one counting 0. |
| Header.CartCount | frontend/src/components/Header.tsx:24 | No cart data counts 0. Otherwise the count is the number of items in the cart. |
| Header.DisplayCartCount | frontend/src/components/Header.tsx:25 | Above 99 the badge reads "99+". Otherwise it reads the count's canonical decimal spelling, which parses back to the count and is one to three characters for a count that is not negative. |
| Header.VisibleLinks | frontend/src/components/Header.tsx:76 | A link shows exactly when it needs no sign-in or the user is signed in. |
| Header.NavLinksByState | frontend/src/components/Header.tsx:184-185 | For the links array `NavLinks` of Header.tsx:47-51: signed in, all three links show in order. Signed out, only "Products" shows. |
| Header.VisibleAll | frontend/src/components/Header.tsx:185 | Signed in, the filter keeps every link in order. |
| CartPage.CartLines | frontend/app/cart/page.tsx:21 | An absent cart is treated as empty. |
| CartPage.LineAmount | frontend/app/cart/page.tsx:42-44 | A line's amount is price times quantity, and 0 when either is missing. |
| CartPage.ReduceTotalIsAmount | frontend/app/cart/page.tsx:41-45 | The page's `reduce` equals the sum of the line amounts. |
| CartPage.Total | frontend/app/cart/page.tsx:21-45 | The total is the sum of the line amounts, and 0 for an absent or empty cart. |
| CartPage.QuantityChange | frontend/app/cart/page.tsx:23-26 | A request is sent exactly when the product id is non-empty and the quantity is present and not 0. It carries both values. |
| CartPage.OnQuantityChange | frontend/app/cart/page.tsx:179-182 | A line's selector sends the line's product id, never the line's own id, with the new value. |
| CartPage.RemoveRequest | frontend/app/cart/page.tsx:32-35 | A removal is sent exactly when the line id is non-empty, and it carries that id. |
| CartPage.DisplayQuantity | frontend/app/cart/page.tsx:180 | The selector shows the line's quantity, and 1 when it is missing. |
| CheckoutPage.Checkout | frontend/app/checkout/page.tsx:39-52 | A missing or empty cart shows the empty branch. Otherwise there is one amount per line, a subtotal equal to their sum, shipping 0, and a total equal to the subtotal. |
| CheckoutPage.SubtotalIsSum | frontend/app/checkout/page.tsx:47-50 | The subtotal `reduce` equals the sum of the amounts shown per line. |
| CheckoutPage.AmountsAgree | frontend/app/checkout/page.tsx:139 | Line by line, the checkout's amounts (defaults by logical or) sum to the cart page's amounts (defaults by `??`). |
| CheckoutPage.AgreesWithCartPage | frontend/app/checkout/page.tsx:47-52 | The checkout total equals the cart page total for the same cart. |
| OrdersPage.OrdersList | frontend/app/orders/page.tsx:29 | Absent data is treated as no orders. |
| OrdersPage.LineAmount | frontend/app/orders/page.tsx:148 | A line's amount is `priceAtOrder` times quantity, and 0 when either is missing. |
| OrdersPage.DisplayQuantity | frontend/app/orders/page.tsx:142 | A missing quantity is shown as 0. |
| OrdersPage.LastEight | frontend/app/orders/page.tsx:106 | The last eight characters, or the whole id when it is shorter. |
| OrdersPage.OrderLabel | frontend/app/orders/page.tsx:106 | The label is the upper-cased last min(8, length) characters of the id, and empty for a missing id. |
| OrdersPage.LabelOfObjectId | frontend/app/orders/page.tsx:106 | For an ObjectId the label is eight upper-case hex digits. Lower-casing it gives back the id's last eight digits. |
| Flows.ValidatedBodyUpserts | backend/src/validators/cart.validator.ts:5-6 | A validated body for an existing user is upserted exactly when its product id names a catalogue product, by the handler as written and by the corrected one. The validator leaves no other way to fail. |
| Flows.FindItemIsFindLine | frontend/src/components/ProductCard.tsx:24 | On the client's copy of the cart, the product card finds the same line as the server's line match. |
| Flows.AddToCartRequest | frontend/src/components/ProductCard.tsx:42-45 | The card requests the product's own id with one more than the quantity of its line, or 1 when it has none. |
| Flows.NextQuantityUpsert | backend/src/controllers/cart.controller.ts:50-58 | Upserting the next quantity raises the product's line by one, or appends a line with quantity 1, and keeps the cart valid. |
| Flows.UpsertOfNextQuantity | backend/src/controllers/cart.controller.ts:34-62 | The handler as written accepts that request and saves exactly the upserted cart, the same reply the corrected handler gives. |
| Flows.Click | frontend/src/components/ProductCard.tsx:42-45 | A click reaches the server's handler, as written, exactly when the card sends a request and the validator accepts it. |
| Flows.ClickUpserts | frontend/src/components/ProductCard.tsx:42-45 | A signed-in click on a catalogue product makes the handler as written save the cart upserted with the next quantity. |
| Flows.AddToCartIncrements | frontend/src/components/ProductCard.tsx:42-45 | One "Add to Cart", end to end, raises the product's cart quantity by exactly one, or creates its line with quantity 1. |
| Flows.ClientCart | backend/src/controllers/cart.controller.ts:17-22 | A signed-in user whose document exists receives their own populated cart. |
| Flows.CheckoutMatchesOrder | frontend/app/checkout/page.tsx:47-52 | With catalogue prices unchanged, the cart page total, the checkout total and the placed order's `totalPrice` are equal. |
| Flows.OrdersPageMatchesTotal | frontend/app/orders/page.tsx:148 | The amounts the history lists for a stored order add up to its `totalPrice`. |
| Flows.HeaderBadgeForCart | frontend/src/components/Header.tsx:113 | For a valid cart the header counts at least one item per line. A signed-in user sees the badge (`ShowsBadge`: signed in and `cartCount > 0`) exactly when the cart has a line. |
| Flows.SelectorBlurRequestAccepted | frontend/app/cart/page.tsx:179-182 | A value the cart page's selector emits on blur becomes a request the validator accepts unchanged. |

## Left out

- Persistence: connection handling, the Mongoose query and populate machinery, and timestamps (`createdAt`, `updatedAt`). The store is a value, and populate is a catalogue lookup.
- Passwords and their hashing, and the register and login handlers. `NewUser` covers only the schema's name, email and cart rules.
- Concurrency. Requests run one at a time, so two racing placements and the gap between `Order.create` and `user.save` are not modelled. The clearing save after an order can therefore not fail in the model.
- JWT signing and verification. The verifier is a function parameter.
- Floating-point prices and `toFixed(2)`. Prices and amounts are integer cents.
- zod's coercion of strings to numbers. The validator receives the quantity already coerced, as NaN, an infinity or a finite real.
- Unicode beyond ASCII. Case mapping covers only ASCII letters. White space for `trim` and `parseInt` is the ASCII set plus the no-break space, the byte-order mark and the line and paragraph separators.
- React rendering, router navigation, toasts, `localStorage`, and the loading, error and skeleton branches.
- The selector's `useEffect` that copies `value` into the text field. Blur is modelled on whatever text the field holds.
- The header's "skip the query when signed out" switch. The cart data is a parameter.
- The RTK Query endpoint configuration and the bare setter slices. Only the JSON shapes the pages read are modelled, as `ApiDto`.
- CartController.AddOrUpdateKeepsStore: requires the generated line id to be an ObjectId new to the cart. Mongo generates unique ObjectIds, so this holds of the real system and is not proved from it.
- CartController.AsWrittenKeepsStoreValid: requires the same of the generated line id, for the same reason.
- Replies.Message: the message of a 500 is the exception's own message, or "Internal Server Error" when it has none. Exceptions are not modelled, so the model leaves this message out.
- The cast rule of `Records.CastId` is that of bson 5 and later: only 24 hex digits cast. bson 4 also accepted any 12-character string as a 12-byte id. The model assumes the newer rule.
- `Order.find` has no sort, so MongoDB promises no order for the history. The model returns stored orders in insertion order, the order a plain collection scan usually gives. `OrdersOfAppend` is about that model, not a promise of the database.
- OrderController.PlaceOrder: a cart product missing from the catalogue gives a 500. This is how the code behaves, since reading `price` from a null populated product throws. It is not a precondition of the handler.

## Findings

| source | as written | input that shows it | evidently intended | confidence | as-written member | corrected member |
|---|---|---|---|---|---|---|
| backend/src/controllers/cart.controller.ts:50-58 | The existing line is looked for by comparing each line's product id text with the raw `productId` of the request. The product itself is found by casting that text, which accepts either case of hex digit. | `productId` is an existing product's id written in upper-case hex (twenty-four `A`s for the product `aaaa…a`), and the cart already has a line for it. The product is found, no line matches, and a second line for the same product is appended. | Match on the product's own id, so that every spelling of an ObjectId updates the one line for that product. The client always sends the canonical spelling, so it never triggers this. | not executed | CartController.AsWrittenDuplicatesLine | CartController.CorrectedOverwritesLine |
