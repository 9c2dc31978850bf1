/** Option and Result, plus the Python exceptions the modelled code can raise. */
module Wrappers {

  datatype Option<+T> = None | Some(value: T)

  datatype Result<+T, +E> = Ok(value: T) | Err(error: E)

  /** The exceptions app.py lets escape from its helpers (nothing catches them). */
  datatype Raised =
    | KeyError(key: string)    // `mode_dict[mode]` with a mode outside the table
    | IndexError               // `features[0]` of an empty list
    | UnpackError(arity: nat)  // `x, y = coords` on a list whose length is not 2
}
