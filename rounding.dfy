/** The rounding of .NET's `Math.Round(double)`: to the nearest integer,
    with a value exactly halfway between two integers going to the even one. */
module Rounding {

  /** `n` is a correct result of rounding `r` to the nearest integer, ties to even. */
  predicate RoundsTo(r: real, n: int) {
    -0.5 <= n as real - r <= 0.5 &&
    ((n as real - r == 0.5 || r - n as real == 0.5) ==> n % 2 == 0)
  }

  function Round(r: real): (n: int)
    ensures RoundsTo(r, n)
  {
    var f := r.Floor;
    var d := r - f as real;
    if d < 0.5 then f
    else if d > 0.5 then f + 1
    else if f % 2 == 0 then f
    else f + 1
  }

  /** `RoundsTo` admits one integer only, so it is a complete specification
      of `Round`. */
  lemma RoundUnique(r: real, n: int)
    requires RoundsTo(r, n)
    ensures n == Round(r)
  {
  }

  /** An integer is its own rounding. */
  lemma RoundInt(k: int)
    ensures Round(k as real) == k
  {
    RoundUnique(k as real, k);
  }

  /** Rounding never reverses an order. */
  lemma RoundMonotone(a: real, b: real)
    requires a <= b
    ensures Round(a) <= Round(b)
  {
  }
}
