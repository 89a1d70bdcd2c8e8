/** Shared result and failure types of the jump-list tool. */
module Errors {

  datatype Option<T> = None | Some(value: T)

  /** The failures the list engine reports; the variants that only wrap an I/O error are not modelled. */
  datatype Error =
    | InvalidPosValue(id: nat, length: nat)   // a position outside the saved list
    | PathIsNotDir(path: string)              // a path that is not an existing directory
    | IdenticalPathPos(path: string)          // a move of a path onto its own position
    | PathLimitReached                        // a fresh save into a full list
    | NoPathFile                              // the backing file does not exist
    | NoPathArg                               // save was called without the current directory

  /** The only warning the engine raises: a listing length larger than the list. */
  datatype Warn = InvalidLengthValue(requested: nat, available: nat)

  datatype Result<T> = Ok(value: T) | Err(error: Error)
}
