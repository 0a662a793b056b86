/** The outcome of a request handler: a value, or the error response it returns instead. */
module Http {
  import opened Models

  datatype Method = Get | Post | Other

  /** The role sets the views admit: table service (waiters and admins) and the kitchen (cooks and admins). */
  predicate ServesTables(role: string) {
    role == "garzon" || role == "admin"
  }

  predicate WorksKitchen(role: string) {
    role == "cocinero" || role == "admin"
  }

  /**
   The error responses of the views: a JSON 403, a redirect to the landing
   page (page views guard roles that way), a form re-rendered with a message,
   a JSON 400 with a message, a 404, a JSON 405 and a JSON 500.
   */
  datatype Failure =
    | Forbidden
    | RedirectHome
    | FormError(message: string)
    | BadRequest(message: string)
    | NotFound
    | MethodNotAllowed
    | ServerError

  datatype Reply<+T> = Ok(value: T) | Fail(failure: Failure)

  /** A handler's effect: the store after the request and the reply. */
  datatype Step<+T> = Step(store: Store, reply: Reply<T>)
}
