/** Small shared definitions: an optional value and the absolute value used by the drift checks. */
module Basics {

  datatype Option<+T> = None | Some(value: T)

  /** Math.abs on integers. */
  function Abs(x: int): (r: nat)
    ensures r == x || r == -x
  {
    if x < 0 then -x else x
  }
}
