/** The failure-carrying result shape used across the model. */
module Maybe {

  /** A value that may be missing: a dictionary `.get` that found nothing, or a parse that failed. */
  datatype Option<T> = None | Some(value: T)
  {
    function GetOr(default: T): T
    {
      if Some? then value else default
    }
  }
}
