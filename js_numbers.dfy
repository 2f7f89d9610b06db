/**
 * The few JavaScript number operations the engine relies on, over exact
 * rationals: `Math.round`, the remainder operator `%`, and the ratio test
 * `a / b >= t` with JavaScript's division by zero.
 */
module JsNumbers {

  function Abs(x: real): (r: real)
    ensures r >= 0.0 && (r == x || r == -x)
  {
    if x < 0.0 then -x else x
  }

  function Min(a: int, b: int): (r: int)
    ensures r <= a && r <= b && (r == a || r == b)
  {
    if a <= b then a else b
  }

  /** `Math.round`: the nearest integer, halves rounded up (also for negative values). */
  function Round(x: real): (r: int)
    ensures x - 0.5 < r as real <= x + 0.5
  {
    (x + 0.5).Floor
  }

  /** Truncation toward zero, as used by JavaScript's `%`. */
  function Trunc(x: real): (r: int)
    ensures 0.0 <= x ==> 0 <= r && r as real <= x < r as real + 1.0
    ensures x < 0.0 ==> r <= 0 && r as real - 1.0 < x <= r as real
  {
    if x >= 0.0 then x.Floor else -((-x).Floor)
  }

  /** JavaScript's `x % m` on numbers: the remainder keeps the sign of `x`. */
  function Rem(x: real, m: real): real
    requires m != 0.0
  {
    x - m * Trunc(x / m) as real
  }

  /** The least integer not below `x`. */
  function Ceil(x: real): (r: int)
    ensures x <= r as real < x + 1.0
  {
    -((-x).Floor)
  }

  /**
   * `count / total >= threshold` as JavaScript evaluates it: with a zero
   * total, 0 / 0 is NaN (never >= anything) and n / 0 is Infinity.
   */
  predicate RatioAtLeast(count: nat, total: nat, threshold: real)
  {
    if total == 0 then count > 0 else count as real / total as real >= threshold
  }

  /** `%` by a positive modulus leaves a value of smaller magnitude unchanged. */
  lemma RemSmall(x: real, m: real)
    requires m > 0.0 && -m < x < m
    ensures Rem(x, m) == x
  {
    assert -1.0 < x / m < 1.0;
    assert Trunc(x / m) == 0;
  }

  /** For a positive total, the ratio test is a test against the least integral bound. */
  lemma {:induction false} RatioAtLeastIffBound(count: nat, total: nat, threshold: real)
    requires total > 0
    ensures RatioAtLeast(count, total, threshold) <==> count >= Ceil(threshold * total as real)
  {
    var n := total as real;
    var c := count as real;
    assert c / n >= threshold <==> c >= threshold * n by {
      assert (c / n) * n == c;
      if c / n >= threshold {
        assert (c / n) * n >= threshold * n;
      }
      if c >= threshold * n {
        assert c / n >= (threshold * n) / n;
      }
    }
  }
}
