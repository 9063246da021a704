/** The SQL NULL, shared by every module of the model. */
module Basics {

  /** A value that may be NULL (None). */
  datatype Option<T> = None | Some(value: T)
  {
    /** The value, or `default` when NULL. */
    function GetOr(default: T): T
    {
      match this
      case Some(v) => v
      case None => default
    }
  }
}
