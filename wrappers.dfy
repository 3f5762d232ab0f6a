/** Option and Result, used for the source's null returns and exceptions. */
module Wrappers {

  /** `None` stands for a Java `null`. */
  datatype Option<+T> = None | Some(value: T)
  {
    /** The value, or `default` in place of null. */
    function GetOr(default: T): T
    {
      if Some? then value else default
    }
  }

  /** `Err` stands for an exception that leaves the method. */
  datatype Result<+T, +E> = Ok(value: T) | Err(error: E)
}
