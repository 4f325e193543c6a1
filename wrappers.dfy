/** Optional values and results shared by every module of the model. */
module Wrappers {

  /** A value that may be missing: pandas' NaN / Python's None. */
  datatype Option<+T> = None | Some(value: T)

  /** The Python exception classes the modelled code can raise. */
  datatype PyError =
    | ValueError  // int()/float() of a malformed string, or tuple unpacking of the wrong size
    | KeyError    // a missing DataFrame column or dict key
    | IndexError  // indexing past the end of a list
    | TypeError   // a string operation applied to a missing (NaN) value

  /** Either a value or the exception that interrupted its computation. */
  datatype Result<+T> = Ok(value: T) | Err(error: PyError)

  /** Python truthiness of an optional text (a dropdown value): None and ""
      are false. */
  predicate Truthy(s: Option<string>) {
    s.Some? && s.value != ""
  }
}
