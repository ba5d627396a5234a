/** Shared value types of the authority store model. */
module Common {

  datatype Option<+T> = None | Some(value: T)

  /** The store's error values, as far as the modelled operations tell them apart. */
  datatype Error =
    | ErrInvalidProof
    | ErrInvalidStore
    | ErrConflict
    | ErrFenced
    | ErrPending
    | ErrNotOwner
    | ErrNotFound
    | ErrExists
    | ErrPrefixMismatch
    | ErrResourceLimit
    | ErrOpenBracket
    | ErrUniqueIndex
    | ErrRejected

  datatype Result<+T> = Ok(value: T) | Err(error: Error)

  /** Node, Repo, command and gate identities. */
  type Id = string

  /** An event identity. Event ids are ULIDs compared as strings; the Ulid module
      proves that order agrees with the order of the 128-bit values, so the value
      itself stands for the id. 0 is the missing id. */
  type EventId = nat
}
