/** What a controller answers: a success carrying the JSON body, or one of the
    error replies the controllers send, with its HTTP status and message. */
module Replies {
  import opened Opt
  import Records

  /** Which document a 404 reply is about. */
  datatype Missing = UserMissing | ProductMissing | LineMissing

  datatype Outcome<+T> =
    | Success(body: T)
    | Unauthorized            // no authenticated user on the request
    | NotFound(what: Missing)
    | CartEmpty               // placing an order from an empty cart
    | ServerError             // an exception handed to `next`, answered by the error handler

  /** The HTTP status of a reply: the route's own on success (200 or 201),
      401 without a user, 404 for a missing document, 400 for an empty cart,
      and 500 for an exception (none of them sets a status of its own). */
  function Status<T>(o: Outcome<T>, successStatus: int): (code: int)
    ensures o.Success? ==> code == successStatus
    ensures o.Unauthorized? ==> code == 401
    ensures o.NotFound? ==> code == 404
    ensures o.CartEmpty? ==> code == 400
    ensures o.ServerError? ==> code == 500
  {
    match o
    case Success(_) => successStatus
    case Unauthorized => 401
    case NotFound(_) => 404
    case CartEmpty => 400
    case ServerError => 500
  }

  /** The `message` field of an error reply. The controllers write their own
      for every error they answer; for an exception the error handler sends the
      exception's own message, which this model does not carry (`None`). */
  function Message<T>(o: Outcome<T>): (m: Option<string>)
    requires !o.Success?
    ensures m.None? <==> o.ServerError?
  {
    match o
    case Unauthorized => Some("Unauthorized")
    case NotFound(UserMissing) => Some("User not found")
    case NotFound(ProductMissing) => Some("Product not found")
    case NotFound(LineMissing) => Some("Cart item not found")
    case CartEmpty => Some("Cart is empty")
    case ServerError => None
  }

  /** A client can tell every error apart: the status separates the kinds and
      the message separates the three missing documents. */
  lemma ErrorRepliesDistinct<T>(a: Outcome<T>, b: Outcome<T>, successStatus: int)
    requires !a.Success? && !b.Success? && !a.ServerError?
    requires Status(a, successStatus) == Status(b, successStatus) && Message(a) == Message(b)
    ensures a == b
  {
  }

  /** A reply together with the store as it stands once the request is done. */
  datatype Reply<+T> = Reply(outcome: Outcome<T>, store: Records.Store)
}
