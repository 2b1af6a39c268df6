/** Outcomes of a request handler: a value, or the error that ends the request. */
module Results {

  datatype Option<+T> = None | Some(value: T)

  /** What the handlers throw. The first two are thrown by the controllers after
      they set the response status themselves; the last two come out of the
      document store when it refuses a write. */
  datatype Error =
    | BadRequest(message: string)   // res.status(400), a missing body field or a duplicate friend
    | NotFound(resource: string)    // res.status(404), an id that resolves to nothing
    | ValidationFailed              // a schema validator rejected the document
    | DuplicateKey                  // a unique index rejected the write

  datatype Result<+T> = Ok(value: T) | Err(error: Error)

  /** The HTTP status the request ends with. The controllers set 400 and 404
      before throwing; for a store error the status is still 200 when the error
      is thrown, and the request ends with 500. */
  function Status(e: Error): (code: nat)
    ensures code == 400 <==> e.BadRequest?
    ensures code == 404 <==> e.NotFound?
    ensures code == 500 <==> e.ValidationFailed? || e.DuplicateKey?
  {
    match e
    case BadRequest(_) => 400
    case NotFound(_) => 404
    case ValidationFailed => 500
    case DuplicateKey => 500
  }

  /** A request-body field as `!field` sees it: given when present and not
      the empty string (which JavaScript treats as false). */
  predicate Given(v: Option<string>)
  {
    v.Some? && v.value != []
  }

  /** The `notFound` helper of both controllers: the resource name inside a
      fixed sentence. */
  function NotFoundMessage(resource: string): (m: string)
    ensures |m| == |resource| + 26
    ensures m[..3] == "No " && m[3..3 + |resource|] == resource
  {
    "No " + resource + " was found with this id"
  }

  /** The `message` of the `Error` a controller throws after setting the
      status. A store error carries the library's own text, which is not
      modelled (None). */
  function ThrownMessage(e: Error): (m: Option<string>)
    ensures e.BadRequest? ==> m == Some(e.message)
    ensures e.NotFound? ==> m == Some(NotFoundMessage(e.resource))
    ensures m.None? <==> e.ValidationFailed? || e.DuplicateKey?
  {
    match e
    case BadRequest(message) => Some(message)
    case NotFound(resource) => Some(NotFoundMessage(resource))
    case ValidationFailed => None
    case DuplicateKey => None
  }

  /** Two 404 errors carry the same message only when they name the same
      resource, so the message tells the client which id resolved to nothing. */
  lemma NotFoundMessageInjective(a: Error, b: Error)
    requires a.NotFound? && b.NotFound? && ThrownMessage(a) == ThrownMessage(b)
    ensures a == b
  {
    var m := NotFoundMessage(a.resource);
    assert a.resource == m[3..3 + |a.resource|];
    assert b.resource == NotFoundMessage(b.resource)[3..3 + |b.resource|];
  }
}
