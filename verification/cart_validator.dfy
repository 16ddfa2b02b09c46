/** `addOrUpdateCartSchema`: the zod schema a cart request body must pass before
    the upsert runs. Failing bodies are answered 400 "Validation error" with the
    list of issues. */
module CartValidator {
  import opened Opt

  /** A JavaScript number, as `z.coerce.number()` yields it. */
  datatype JsNumber = NaN | PosInfinity | NegInfinity | Finite(r: real)

  /** The body as received: `productId` is absent when it is not a string. */
  datatype RawCartBody = RawCartBody(productId: Option<string>, quantity: JsNumber)

  /** The body the upsert receives. */
  datatype CartBody = CartBody(productId: string, quantity: int)

  datatype Issue =
    | ProductIdNotString   // "Required" / expected string
    | ProductIdEmpty       // "productId is required"
    | QuantityNaN          // expected number, received nan
    | QuantityNotInteger   // expected integer
    | QuantityTooSmall     // "quantity must be at least 1"

  predicate IsInteger(n: JsNumber) {
    n.Finite? && n.r.Floor as real == n.r
  }

  /** At least 1; +Infinity passes this check, -Infinity does not. */
  predicate AtLeastOne(n: JsNumber) {
    n.PosInfinity? || (n.Finite? && n.r >= 1.0)
  }

  function ProductIdIssues(p: Option<string>): seq<Issue> {
    if p.None? then [ProductIdNotString] else if p.value == "" then [ProductIdEmpty] else []
  }

  /** zod runs every check of a number field; NaN stops at the type check. */
  function QuantityIssues(q: JsNumber): seq<Issue> {
    if q.NaN? then [QuantityNaN]
    else (if IsInteger(q) then [] else [QuantityNotInteger]) + (if AtLeastOne(q) then [] else [QuantityTooSmall])
  }

  /** The schema: accepted exactly when `productId` is a non-empty string and
      `quantity` a whole number at least 1; every failing check is reported. */
  function Validate(b: RawCartBody): (r: Result<CartBody, seq<Issue>>)
    ensures r.Ok? <==> (b.productId.Some? && b.productId.value != "" && IsInteger(b.quantity) && b.quantity.r >= 1.0)
    ensures r.Ok? ==> r.value.productId == b.productId.value && r.value.quantity as real == b.quantity.r
    ensures r.Ok? ==> r.value.productId != "" && r.value.quantity >= 1
    ensures r.Err? ==> |r.error| > 0
    ensures r.Err? ==> ((b.productId.None? || b.productId.value == "") <==> (ProductIdNotString in r.error || ProductIdEmpty in r.error))
    ensures r.Err? && b.quantity.Finite? && b.quantity.r < 1.0 ==> QuantityTooSmall in r.error
    ensures r.Err? && b.quantity.Finite? && !IsInteger(b.quantity) ==> QuantityNotInteger in r.error
  {
    var issues := ProductIdIssues(b.productId) + QuantityIssues(b.quantity);
    if |issues| == 0 then Ok(CartBody(b.productId.value, b.quantity.r.Floor)) else Err(issues)
  }
}
