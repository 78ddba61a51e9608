/** The optional-value datatype used throughout the model for the source's
    `undefined` (an unset field, an absent match, an absent notice). */
module Wrappers {

  datatype Option<+T> = None | Some(value: T)
}
