/** Shapes shared by the other modules. */
module Common {

  datatype Option<+T> = None | Some(value: T)

  /** How a call of user code ends. */
  datatype Outcome<+T, +E> = Value(value: T) | Error(error: E)

  // ----- 32-bit integers, unchecked

  const TWO31: int := 0x8000_0000
  const TWO32: int := 0x1_0000_0000

  predicate IsInt32(n: int) {
    -TWO31 <= n < TWO31
  }

  /** What a 32-bit counter that started at 0 shows after n increments. */
  function Wrap(n: nat): (w: int)
    requires n <= TWO32
    ensures IsInt32(w) && (w - n) % TWO32 == 0
  {
    if n < TWO31 then n else n - TWO32
  }

  function Increment(n: int): (m: int)
    requires IsInt32(n)
    ensures IsInt32(m) && (m - n - 1) % TWO32 == 0
  {
    if n + 1 == TWO31 then -TWO31 else n + 1
  }

  /** The number of increments after which a counter that started at 0 first shows n. */
  function Unwrap(n: int): (k: nat)
    requires IsInt32(n)
    ensures k < TWO32 && Wrap(k) == n
  {
    if n >= 0 then n else n + TWO32
  }
}
