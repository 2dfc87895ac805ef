/** Query parameters shared by the list and map handlers. */
module Params {
  import opened Text

  /** A page size: the default when absent, capped, and an error when not a positive number. */
  function ParseLimitParam(value: string, defaultVal: int, max: int): Option<int> {
    if value == "" then Some(defaultVal)
    else match Atoi(value)
      case None => None
      case Some(n) => if n <= 0 then None else if n > max then Some(max) else Some(n)
  }
}
