/** Python's rounding on exact rationals: to nearest, ties to even, at a decimal scale. */
module Rounding {

  function RoundInt(z: real): int {
    var f := z.Floor;
    var d := z - f as real;
    if d < 0.5 || (d == 0.5 && f % 2 == 0) then f else f + 1
  }

  /** To four digits. */
  function Round4(x: real): real {
    RoundInt(x * 10000.0) as real / 10000.0
  }

  /** To three digits. */
  function Round3(x: real): real {
    RoundInt(x * 1000.0) as real / 1000.0
  }

  /** To six digits. */
  function Round6(x: real): real {
    RoundInt(x * 1000000.0) as real / 1000000.0
  }

  /** The nearest integer, and the even one of two that are equally near. */
  ghost predicate Nearest(z: real, k: int) {
    var d := z - k as real;
    -0.5 < d < 0.5 || ((d == 0.5 || d == -0.5) && k % 2 == 0)
  }

  lemma RoundIntIff(z: real, k: int)
    ensures RoundInt(z) == k <==> Nearest(z, k)
  {
  }

  /** To three, four and six digits: a number of thousandths, ten-thousandths or millionths, the nearest one. */
  lemma RoundedIff(x: real, k: int)
    ensures Round3(x) == k as real / 1000.0 <==> Nearest(x * 1000.0, k)
    ensures Round4(x) == k as real / 10000.0 <==> Nearest(x * 10000.0, k)
    ensures Round6(x) == k as real / 1000000.0 <==> Nearest(x * 1000000.0, k)
  {
    hide RoundInt, Nearest;
    RoundIntIff(x * 1000.0, k);
    RoundIntIff(x * 10000.0, k);
    RoundIntIff(x * 1000000.0, k);
  }

  lemma RoundIntMonotone(y: real, z: real)
    requires y <= z
    ensures RoundInt(y) <= RoundInt(z)
  {
    if z.Floor > y.Floor { assert RoundInt(z) >= z.Floor; }
  }

  lemma RoundIntOfInt(k: int)
    ensures RoundInt(k as real) == k
  {
  }

  /** Reflecting in an even integer commutes with rounding: the ties land on the same parity. */
  lemma RoundIntReflect(z: real, n: int)
    requires n % 2 == 0
    ensures RoundInt(n as real - z) == n - RoundInt(z)
  {
    var f := z.Floor;
    var d := z - f as real;
    var w := n as real - z;
    if d == 0.0 {
      assert w.Floor == n - f;
    } else {
      assert (n - f - 1) as real < w < (n - f) as real;
      assert w.Floor == n - f - 1;
      assert w - w.Floor as real == 1.0 - d;
    }
  }

  /** Rounded to four digits, a rate and its complement still add up to exactly one. */
  lemma Round4Complement(x: real)
    ensures Round4(1.0 - x) == 1.0 - Round4(x)
  {
    RoundIntReflect(x * 10000.0, 10000);
  }

  lemma Round3Monotone(x: real, y: real)
    requires x <= y
    ensures Round3(x) <= Round3(y)
  {
    RoundIntMonotone(x * 1000.0, y * 1000.0);
  }

  lemma Round6Monotone(x: real, y: real)
    requires x <= y
    ensures Round6(x) <= Round6(y)
  {
    RoundIntMonotone(x * 1000000.0, y * 1000000.0);
  }

  lemma Round3OfInt(k: int)
    ensures Round3(k as real) == k as real
  {
    assert k as real * 1000.0 == (k * 1000) as real;
    RoundIntOfInt(k * 1000);
  }

  lemma Round4Unit(x: real)
    requires 0.0 <= x <= 1.0
    ensures 0.0 <= Round4(x) <= 1.0
  {
    RoundIntMonotone(0.0, x * 10000.0);
    RoundIntMonotone(x * 10000.0, 10000.0);
    RoundIntOfInt(0);
    RoundIntOfInt(10000);
  }
}
