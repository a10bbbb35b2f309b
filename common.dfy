/** Shared wrappers and the error taxonomy of the services. */
module Common {

  datatype Option<T> = None | Some(value: T)

  /** The entity whose lookup failed (each service's findById names it in its message). */
  datatype Entity = UserEntity | ItemEntity | BookingEntity | RequestEntity

  /** The business rule a BadRequest reports; each is a distinct message in the source. */
  datatype Fault = ItemUnavailable | DatesCoincide | StartAfterEnd | BookingNotFinished

  /** NotFound, BadRequest, Forbidden and Duplicate exceptions; Unhandled is any other failure. */
  datatype Error =
    | NotFound(entity: Entity)
    | BadRequest(fault: Fault)
    | Forbidden
    | Duplicate
    | Unhandled

  datatype Result<T> = Ok(value: T) | Err(error: Error)

  /** The value of an optional field of a partial update, or the existing value when it is null. */
  function OrElse<T>(o: Option<T>, existing: T): (r: T)
    ensures o.None? ==> r == existing
    ensures o.Some? ==> r == o.value
  {
    match o
    case None => existing
    case Some(v) => v
  }
}
