/** What every module may need. */
module Wrappers {

  datatype Option<+T> = None | Some(value: T)

  function Max(x: int, y: int): int { if x > y then x else y }
}
