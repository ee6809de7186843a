/** What the controllers receive from the web framework and the libraries
    they call: HTTP status codes, the answer of the authentication manager,
    the authenticated principal, and the opaque helpers (email format check,
    password encoder, session-token generator). */
module Framework {
  import opened Entities
  import opened Persistence

  const Ok: int := 200
  const Created: int := 201
  const Accepted: int := 202
  const BadRequest: int := 400
  const Unauthorized: int := 401
  const Forbidden: int := 403
  const NotFound: int := 404
  const Conflict: int := 409
  const Gone: int := 410
  /** What an unhandled null dereference surfaces as. */
  const InternalServerError: int := 500

  /** How `authenticationManager.authenticate` ends: an authentication that
      is or is not authenticated, a DisabledException (the user's email is
      not verified), or any other AuthenticationException. */
  datatype AuthOutcome = Authenticated | Unauthenticated | Disabled | Rejected

  /** The principal the security context holds for an authenticated request. */
  datatype Principal = Principal(name: string, enabled: bool)

  /** The library code the controllers call, as uninterpreted functions. */
  datatype Collaborators = Collaborators(
    checkEmail: string -> bool,
    encode: string -> string,
    generateToken: string -> string)

  /** A response that may carry a session token. */
  datatype TokenReply = TokenReply(status: int, token: Option<string>)

  /** A status code and the store after the request. */
  datatype Outcome = Outcome(status: int, db: Db)
}
