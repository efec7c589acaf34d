/** Small helpers shared by every module of the crawler model. */
module Common {

  /** A value that may be absent; Python's `None` on the absent side. */
  datatype Option<+T> = None | Some(value: T)

  function Min(a: int, b: int): int
  {
    if a <= b then a else b
  }
}
