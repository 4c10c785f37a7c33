/** The HTTP outcomes the handlers produce (Spring's ResponseEntity and ResponseStatusException). */
module Http {
  import opened Wrappers

  datatype Status =
    | OK | CREATED | FORBIDDEN | NOT_FOUND | UNAUTHORIZED | CONFLICT
      /** An exception no handler maps to a status, such as a refused merge. */
    | INTERNAL_SERVER_ERROR

  /** A status together with an optional body. */
  datatype Response<T> = Response(status: Status, body: Option<T>)

  function Failure<T>(s: Status): Response<T> {
    Response(s, None)
  }
}
