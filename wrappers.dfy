/** Option and Result, used for values that may be missing and for the
    exceptions the modelled TypeScript code throws. */
module Wrappers {

  datatype Option<+T> = None | Some(value: T)

  datatype Result<+R, +E> = Ok(value: R) | Err(error: E)
}

/** JavaScript numbers as the model sees them.

    A `Coord` is a numeric field of a JavaScript object that may be
    `undefined` (an absent optional field, or NaN after arithmetic on an
    absent field).  `None` stands for that value: arithmetic on it yields
    `None` and every comparison with it is false, as with NaN. */
module JsNumber {
  import opened Wrappers

  type Coord = Option<real>

  /** `a - b` on possibly-undefined numbers. */
  function Sub(a: Coord, b: Coord): (r: Coord)
    ensures r.Some? <==> a.Some? && b.Some?
    ensures r.Some? ==> r.value + b.value == a.value
  {
    if a.Some? && b.Some? then Some(a.value - b.value) else None
  }

  const TwoTo32: int := 0x1_0000_0000
  const TwoTo31: int := 0x8000_0000

  /** ECMAScript ToInt32 on an integral number: wrap modulo 2^32 into the
      signed 32-bit range. */
  function ToInt32(n: int): (r: int)
    ensures -TwoTo31 <= r < TwoTo31
    ensures (n - r) % TwoTo32 == 0
    ensures -TwoTo31 <= n < TwoTo31 ==> r == n
  {
    var m := n % TwoTo32;
    if m < TwoTo31 then m else m - TwoTo32
  }

  /** JavaScript `%` on integers: the remainder of division truncated toward
      zero, so it takes the sign of the dividend. */
  function TruncRem(a: int, b: int): (r: int)
    requires b > 0
    ensures a >= 0 ==> 0 <= r < b && r == a % b
    ensures a < 0 ==> -b < r <= 0 && -r == (-a) % b
  {
    if a >= 0 then a % b else -((-a) % b)
  }
}
