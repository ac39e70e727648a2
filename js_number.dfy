/**
 * `parseFloat(x.toFixed(2))` on exact reals. `toFixed(2)` picks the multiple of
 * 0.01 nearest to x, the larger one in magnitude on a tie (the sign is handled
 * apart), and `parseFloat` reads it back.
 */
module JsNumber {

  /** r is a whole number of hundredths. */
  predicate IsHundredths(r: real) {
    (r * 100.0).Floor as real == r * 100.0
  }

  function Max(a: real, b: real): real {
    if a >= b then a else b
  }

  /** The number of hundredths nearest to a non-negative x, the larger one on a tie. */
  function NearestHundredths(x: real): (k: int)
    requires x >= 0.0
    ensures k >= 0
    ensures x * 100.0 - 0.5 < k as real <= x * 100.0 + 0.5
  {
    (x * 100.0 + 0.5).Floor
  }

  lemma {:induction false} WholeHundredths(k: int)
    ensures IsHundredths(k as real / 100.0)
  {
    assert k as real / 100.0 * 100.0 == k as real;
  }

  /** `parseFloat(x.toFixed(2))`. */
  function Round2(x: real): (r: real)
    ensures x - 0.005 <= r <= x + 0.005
    ensures IsHundredths(r)
    ensures x >= 0.0 ==> r >= 0.0
  {
    var k := if x >= 0.0 then NearestHundredths(x) else -NearestHundredths(-x);
    WholeHundredths(k);
    k as real / 100.0
  }

  lemma {:induction false} FloorMonotone(x: real, y: real)
    requires x <= y
    ensures x.Floor <= y.Floor
  {
  }

  /** Rounding keeps order. */
  lemma {:induction false} Round2Monotone(x: real, y: real)
    requires x <= y
    ensures Round2(x) <= Round2(y)
  {
    if x >= 0.0 {
      FloorMonotone(x * 100.0 + 0.5, y * 100.0 + 0.5);
    } else if y < 0.0 {
      FloorMonotone((-y) * 100.0 + 0.5, (-x) * 100.0 + 0.5);
    }
  }

  /** A whole number of hundredths is left as it is. */
  lemma {:induction false} Round2Exact(k: int)
    ensures Round2(k as real / 100.0) == k as real / 100.0
  {
    var x := k as real / 100.0;
    if k >= 0 {
      assert x * 100.0 + 0.5 == k as real + 0.5;
      assert (k as real + 0.5).Floor == k;
    } else {
      assert (-x) * 100.0 + 0.5 == (-k) as real + 0.5;
      assert ((-k) as real + 0.5).Floor == -k;
    }
  }
}
