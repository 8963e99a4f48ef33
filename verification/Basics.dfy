/** Value types shared by every component of the model. */
module Basics {

  /** A UUID or row key. The services order ids by their canonical text, whose
      lexicographic order is the order of the 128-bit number it spells. */
  type Id = nat

  /** The all-zero UUID. */
  const NIL_ID: Id := 0

  /** An instant; only order and differences matter to the services. */
  type Time = int

  datatype Option<+T> = None | Some(value: T)

  /** The error kinds the services distinguish. */
  datatype Error =
    | Validation
    | NotFound
    | Conflict
    | InvalidState
    | StaleVersion
    | Forbidden
    | Unauthenticated
    | Internal

  datatype Result<+T> = Ok(value: T) | Err(error: Error)

  datatype AdvertStatus =
    | Draft | PendingReview | ChangesRequested | Published | Rejected | Suspended | Sold | Archived

  function Min(a: int, b: int): int {
    if a <= b then a else b
  }
}
