/**
 * `Number(x.toFixed(2))` on exact values: Number.prototype.toFixed in ECMA-262
 * rounds |x| to the nearest multiple of 1/100, picking the larger one on a tie,
 * and puts the sign back; reading the two-decimal string back gives that value.
 */
module Numbers {

  /** The value of Number(x.toFixed(2)): x rounded half away from zero to hundredths. */
  function ToFixed2(x: real): (r: real)
    ensures -0.005 <= r - x <= 0.005
    ensures (r * 100.0).Floor as real == r * 100.0
  {
    var m := if x >= 0.0 then x else -x;
    var n := RoundHalfUp(m * 100.0);
    var k := if x >= 0.0 then n else -n;
    assert k as real * 0.01 - x <= 0.005 && x - k as real * 0.01 <= 0.005;
    assert (k as real * 0.01 * 100.0) == k as real;
    k as real * 0.01
  }

  /** The integer nearest to y, taking the larger one on a tie. */
  function RoundHalfUp(y: real): (n: int)
    ensures y - 0.5 < n as real <= y + 0.5
  {
    (y + 0.5).Floor
  }

  /** Rounding never reverses an order. */
  lemma ToFixed2Monotone(x: real, y: real)
    requires x <= y
    ensures ToFixed2(x) <= ToFixed2(y)
  {
    if 0.0 <= x {
      RoundHalfUpMonotone(x * 100.0, y * 100.0);
    } else if y < 0.0 {
      RoundHalfUpMonotone(-y * 100.0, -x * 100.0);
    }
  }

  /** A value that already has at most two decimals is left as it is. */
  lemma ToFixed2Hundredths(k: int)
    ensures ToFixed2(k as real / 100.0) == k as real / 100.0
  {
    var x := k as real / 100.0;
    if k >= 0 {
      assert x * 100.0 + 0.5 == k as real + 0.5;
      assert (x * 100.0 + 0.5).Floor == k;
    } else {
      assert -x * 100.0 + 0.5 == (-k) as real + 0.5;
      assert (-x * 100.0 + 0.5).Floor == -k;
    }
  }

  lemma RoundHalfUpMonotone(a: real, b: real)
    requires a <= b
    ensures RoundHalfUp(a) <= RoundHalfUp(b)
  {
  }
}
