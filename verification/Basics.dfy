/** Definitions that several parts of the model share. */
module Basics {

  datatype Option<T> = None | Some(value: T)

  type pos = x: nat | x > 0 witness 1

  /** The number of values of a 32-bit word. */
  const U32: nat := 0x1_0000_0000

  function Repeat<T>(n: nat, x: T): (r: seq<T>)
    ensures |r| == n
  {
    seq(n, _ => x)
  }
}
