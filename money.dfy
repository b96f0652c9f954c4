/**
 * Money in exact integer cents.
 *
 * The bot keeps amounts in binary floats and rounds with Python's
 * `round(x, 2)`.  Here an amount is a whole number of cents, a rate is an
 * exact rational (`real`), and `Round2` turns a rational amount of currency
 * units into cents: to the nearest cent, ties to the even cent.
 */
module Money {

  /** The value of `c` cents in currency units. */
  function Units(c: int): real
  {
    c as real / 100.0
  }

  /** `round(x, 2)` on an exact value, in cents: nearest cent, ties to even. */
  function Round2(x: real): int
  {
    var y := x * 100.0;
    var f := y.Floor;
    var d := y - f as real;
    if d < 0.5 then f
    else if d > 0.5 then f + 1
    else if f % 2 == 0 then f
    else f + 1
  }

  /** `Round2` is round-to-nearest: within half a cent of the exact value,
      and on an exact tie the even cent. */
  lemma Round2Nearest(x: real)
    ensures -0.5 <= Round2(x) as real - x * 100.0 <= 0.5
    ensures (Round2(x) as real - x * 100.0 == 0.5 || Round2(x) as real - x * 100.0 == -0.5) ==> Round2(x) % 2 == 0
  {
  }

  /** Rounding an amount that is already whole cents changes nothing. */
  lemma Round2Units(c: int)
    ensures Round2(Units(c)) == c
  {
    assert Units(c) * 100.0 == c as real;
  }

  /** Sums and differences of whole-cent amounts stay whole cents. */
  lemma Round2Sum(a: int, b: int)
    ensures Round2(Units(a) + Units(b)) == a + b
    ensures Round2(Units(a) - Units(b)) == a - b
  {
    assert Units(a) + Units(b) == Units(a + b);
    assert Units(a) - Units(b) == Units(a - b);
    Round2Units(a + b);
    Round2Units(a - b);
  }

  /** Rounding keeps order: a larger amount never rounds to fewer cents. */
  lemma Round2Monotone(x: real, y: real)
    requires x <= y
    ensures Round2(x) <= Round2(y)
  {
    var fx, fy := (x * 100.0).Floor, (y * 100.0).Floor;
    assert fx <= fy;
    if fx < fy {
      assert Round2(x) <= fx + 1 <= fy <= Round2(y);
    } else {
      assert x * 100.0 - fx as real <= y * 100.0 - fy as real;
    }
  }

  /** Zero rounds to zero. */
  lemma Round2Zero()
    ensures Round2(0.0) == 0
  {
    Round2Units(0);
  }

  function Max(a: int, b: int): (m: int)
    ensures m >= a && m >= b && (m == a || m == b)
  {
    if a >= b then a else b
  }
}
