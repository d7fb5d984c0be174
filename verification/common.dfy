/** Small shared vocabulary: an optional value and Python's `round` on
    non-negative reals (round half to even). */
module Common {

  /** One octet of a byte string. */
  type Byte = b: int | 0 <= b < 256

  /** Python's `None` / a present value. */
  datatype Option<+T> = None | Some(value: T) {

    /** Returns the value or a default, as Python's `x or default` does for
        values that are never falsy. */
    function GetOr(default: T): T {
      match this
      case Some(v) => v
      case None => default
    }
  }

  /** Python 3 `round(x)` for `x >= 0`: nearest integer, ties go to the even
      neighbour. */
  function RoundHalfEven(x: real): (r: int)
    requires x >= 0.0
    ensures r >= 0
    ensures (r as real) - 0.5 <= x <= (r as real) + 0.5
    ensures x == (r as real) - 0.5 || x == (r as real) + 0.5 ==> r % 2 == 0
  {
    var f := x.Floor;
    var d := x - f as real;
    if d < 0.5 then f
    else if d > 0.5 then f + 1
    else if f % 2 == 0 then f
    else f + 1
  }
}
