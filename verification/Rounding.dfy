/** Python's `round` with digits, on exact values: halves go to the even neighbour. */
module Rounding {
  function Nearest(x: real): int
  {
    var rest := x - x.Floor as real;
    if rest < 0.5 || (rest == 0.5 && x.Floor % 2 == 0) then x.Floor else x.Floor + 1
  }

  /** Rounded to multiples of 1 / `unit`. */
  function Rounded(x: real, unit: nat): real
    requires unit > 0
  {
    Nearest(x * unit as real) as real / unit as real
  }

  /** `n` is nearest to `x`, and even if two numbers are equally near. */
  predicate IsNearest(x: real, n: int)
  {
    && n as real - 0.5 <= x <= n as real + 0.5
    && (n % 2 != 0 ==> n as real - 0.5 < x < n as real + 0.5)
  }

  /** `r` is a whole number of units, the nearest to `x`. */
  ghost predicate IsRounded(x: real, unit: nat, r: real)
  {
    exists n: int :: InUnits(r, unit, n) && IsNearest(x * unit as real, n)
  }

  predicate InUnits(r: real, unit: nat, n: int) { r * unit as real == n as real }

  lemma NearestIff(x: real, n: int)
    ensures n == Nearest(x) <==> IsNearest(x, n)
  {
  }

  lemma RoundedIff(x: real, unit: nat, r: real)
    requires unit > 0
    ensures r == Rounded(x, unit) <==> IsRounded(x, unit, r)
  {
    var n := Nearest(x * unit as real);
    NearestIff(x * unit as real, n);
    Scaled(Rounded(x, unit), unit, n);
    assert InUnits(Rounded(x, unit), unit, n);
    if IsRounded(x, unit, r) {
      var m: int :| InUnits(r, unit, m) && IsNearest(x * unit as real, m);
      NearestIff(x * unit as real, m);
      SameScaled(r, Rounded(x, unit), unit);
    }
  }

  lemma Scaled(r: real, unit: nat, n: int)
    requires unit > 0 && r == n as real / unit as real
    ensures r * unit as real == n as real
  {
  }

  lemma SameScaled(a: real, b: real, unit: nat)
    requires unit > 0 && a * unit as real == b * unit as real
    ensures a == b
  {
    assert (a - b) * unit as real == 0.0;
  }
}
