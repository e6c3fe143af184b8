/** Small shared vocabulary: the optional value and the outcome of an operation that may be refused. */
module Prelude {
  /** A nullable database column or an absent JSON field. */
  datatype Option<+T> = None | Some(value: T) {
    function GetOr(default: T): T {
      match this
      case Some(v) => v
      case None => default
    }
  }

  function Max(a: int, b: int): int { if a >= b then a else b }

  function Min(a: int, b: int): int { if a <= b then a else b }
}
