/** Shared value types: optional results and a `double` that may be NaN or infinite. */
module Basics {

  datatype Option<+T> = None | Some(value: T)

  /** Only finiteness is observable; a finite `double` is an exact real. */
  datatype Double = Finite(value: real) | NotFinite

  function Abs(x: real): real {
    if x < 0.0 then -x else x
  }

  function Min(x: real, y: real): real {
    if y < x then y else x
  }

  function Max(x: real, y: real): real {
    if x < y then y else x
  }

  /** `std::clamp`. */
  function Clamp(x: real, low: real, high: real): real {
    if x < low then low else if high < x then high else x
  }

  /** `std::lround`: to the nearest integer, halves away from zero. */
  function RoundHalfAway(x: real): int {
    if x >= 0.0 then (x + 0.5).Floor else -((0.5 - x).Floor)
  }

  /** `math.sqrt` on exact reals. */
  ghost predicate IsSqrt(sqrt: real -> real) {
    forall x: real :: x >= 0.0 ==> sqrt(x) >= 0.0 && sqrt(x) * sqrt(x) == x
  }
}
