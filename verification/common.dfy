/** Identifiers, the failure-carrying result type and the error taxonomy
    shared by every route of the slot-swap backend. */
module Common {

  /** Users, slots and swap requests are identified by opaque ids; the model
      only ever compares them for equality. */
  type UserId = nat
  type SlotId = nat
  type RequestId = nat

  datatype Option<+T> = None | Some(value: T)

  /** Why a swap-state precondition refused an operation. */
  datatype Rule =
    | SelfSwap            // the target slot belongs to the caller
    | OfferedNotSwappable // the caller's own slot is not SWAPPABLE
    | TargetNotSwappable  // the other user's slot is not SWAPPABLE
    | AlreadyProcessed    // the request is no longer PENDING
    | InPendingSwap       // the slot is pinned by a pending swap

  /** Inputs a validation failure can point at. `Interval` stands for the
      schema rule that the end must come strictly after the start. */
  datatype Field = TitleField | StartField | EndField | StatusField | Interval

  /** The typed failures of the routes: 404, 403, 400 (a broken state rule,
      or malformed input) and 500. */
  datatype Error =
    | NotFound
    | Forbidden
    | InvalidOperation(rule: Rule)
    | Validation(fields: set<Field>)
    | ServerError

  /** A route either produces its value (a new state, possibly with an id)
      or fails with an error, in which case nothing is written. */
  datatype Result<+T> = Ok(value: T) | Err(error: Error)
}
