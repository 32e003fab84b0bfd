/** Python's `round` on reals, and the clamp of `app/analysis/risk.py`. */
module Rounding {

  /** Nearest integer, ties to the even one. */
  function Round(x: real): int {
    var f := x.Floor;
    var d := x - f as real;
    if d < 0.5 then f
    else if d > 0.5 then f + 1
    else if f % 2 == 0 then f else f + 1
  }

  lemma RoundBounds(x: real, lo: int, hi: int)
    ensures lo as real <= x ==> lo <= Round(x)
    ensures x <= hi as real ==> Round(x) <= hi
    ensures lo as real - 0.5 < x ==> lo <= Round(x)
  {
  }

  function ClampReal(value: real, low: real, high: real): real {
    var capped := if high < value then high else value;
    if low > capped then low else capped
  }

  /** `int(round(max(low, min(high, value))))` with the default bounds. */
  function Clamp(value: real): int {
    Round(ClampReal(value, 0.0, 100.0))
  }

  lemma ClampMonotone(x: real, y: real)
    requires x <= y
    ensures Clamp(x) <= Clamp(y)
  {
  }

  lemma ClampRange(x: real)
    ensures 0 <= Clamp(x) <= 100
  {
  }
}
