/** Identifiers, optional values and the error kinds the resolvers raise. */
module Common {

  /** Record identifiers. The store hands them out in increasing order, so the
      smallest id of a set of records is the one created first. */
  type Id = nat

  datatype Option<T> = None | Some(value: T)

  /** The failures a resolver reports in place of the source's thrown errors. */
  datatype ErrorKind =
    | Unauthenticated   // no identity in the request context
    | InvalidArgument   // an argument that trims to the empty string
    | Conflict          // username or email already registered
    | NotFound          // missing user, post or comment
    | Forbidden         // the caller does not own the record
    | InternalError     // a delete that returned nothing
    | BadPassword       // password verification failed

  datatype Result<T> = Ok(value: T) | Err(error: ErrorKind)
}
