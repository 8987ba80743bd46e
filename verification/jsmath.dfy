/** The JavaScript number operations the web pages rely on, over exact
    rationals: `Math.round` (nearest integer, halves rounded up) and
    `Math.ceil`, and their integer forms for the quotients the pages
    compute.  Floating-point error is not modelled. */
module JsMath {

  /** `Math.round(x)`: the integer nearest to `x`, halves going up. */
  function Round(x: real): (r: int)
    ensures x - 0.5 < r as real <= x + 0.5
  {
    (x + 0.5).Floor
  }

  /** The nearest integer (halves up) is the only one within that window,
      so `Round` is determined by its contract. */
  lemma RoundUnique(x: real, n: int)
    requires x - 0.5 < n as real <= x + 0.5
    ensures Round(x) == n
  {
    var r := Round(x);
    assert r as real - n as real < 1.0 && n as real - r as real < 1.0;
  }

  /** `Math.ceil(x)`: the least integer not below `x`. */
  function Ceil(x: real): (r: int)
    ensures x <= r as real < x + 1.0
  {
    -((-x).Floor)
  }

  lemma CeilUnique(x: real, n: int)
    requires x <= n as real < x + 1.0
    ensures Ceil(x) == n
  {
    var r := Ceil(x);
    assert r as real - n as real < 1.0 && n as real - r as real < 1.0;
  }

  /** `Math.round(part / whole * 100)` in integers: the percentage `r` with
      `r - 1/2 <= 100 part / whole < r + 1/2`, scaled by `2 whole`. */
  function RoundPercent(part: int, whole: int): (r: int)
    requires whole != 0
    ensures whole > 0 ==> 2 * whole * r <= 200 * part + whole < 2 * whole * r + 2 * whole
    ensures whole < 0 ==> 2 * whole * r >= 200 * part + whole > 2 * whole * r + 2 * whole
  {
    if whole > 0 then (200 * part + whole) / (2 * whole)
    else (-(200 * part + whole)) / (-2 * whole)
  }

  lemma CastMul(a: int, b: int)
    ensures (a * b) as real == a as real * b as real
  {
  }

  /** Dividing inequalities by a non-zero `k`, either sign. */
  lemma Unscale(u: real, v: real, k: real)
    requires k != 0.0
    requires k > 0.0 ==> u * k >= 0.0 && v * k > 0.0
    requires k < 0.0 ==> u * k <= 0.0 && v * k < 0.0
    ensures u >= 0.0 && v > 0.0
  {
  }

  /** The integer form is `Math.round` applied to the exact quotient. */
  lemma RoundPercentIsRound(part: int, whole: int)
    requires whole != 0
    ensures RoundPercent(part, whole) == Round(part as real / whole as real * 100.0)
  {
    var r := RoundPercent(part, whole);
    var W, R, C := whole as real, r as real, part as real;
    var x := C / W * 100.0;
    assert x * W == C * 100.0;
    CastMul(whole, r);
    var P := (whole * r) as real;
    var u, v := x - R + 0.5, R + 0.5 - x;
    assert u * W == 100.0 * C - P + 0.5 * W;
    assert v * W == P + 0.5 * W - 100.0 * C;
    if whole > 0 {
      assert 2 * (whole * r) <= 200 * part + whole < 2 * (whole * r) + 2 * whole;
    } else {
      assert 2 * (whole * r) >= 200 * part + whole > 2 * (whole * r) + 2 * whole;
    }
    Unscale(u, v, W);
    RoundUnique(x, r);
  }

  lemma MulLe(k: int, a: int, b: int)
    requires k > 0 && a <= b
    ensures k * a <= k * b
  {
  }

  /** A part of a positive whole rounds to a percentage; all of it to 100. */
  lemma RoundPercentBounds(part: int, whole: int)
    requires whole > 0
    ensures 0 <= part <= whole ==> 0 <= RoundPercent(part, whole) <= 100
    ensures part == whole ==> RoundPercent(part, whole) == 100
  {
    var r := RoundPercent(part, whole);
    if 0 <= part <= whole {
      if r < 0 {
        MulLe(2 * whole, r, -1);
      } else if r > 100 {
        MulLe(2 * whole, 101, r);
      }
    }
    if part == whole && r < 100 {
      MulLe(2 * whole, r, 99);
    } else if part == whole && r > 100 {
      MulLe(2 * whole, 101, r);
    }
  }

  /** A larger part never rounds to a smaller percentage. */
  lemma RoundPercentMonotone(a: int, b: int, whole: int)
    requires a <= b && whole > 0
    ensures RoundPercent(a, whole) <= RoundPercent(b, whole)
  {
    var ra, rb := RoundPercent(a, whole), RoundPercent(b, whole);
    if ra > rb {
      MulLe(2 * whole, rb + 1, ra);
    }
  }

  /** `Math.ceil(a / b)` for a positive divisor, in integers. */
  function CeilDiv(a: int, b: int): (r: int)
    requires b > 0
    ensures (r - 1) * b < a <= r * b
  {
    -((-a) / b)
  }

  /** The integer form is `Math.ceil` applied to the exact quotient. */
  lemma CeilDivIsCeil(a: int, b: int)
    requires b > 0
    ensures CeilDiv(a, b) == Ceil(a as real / b as real)
  {
    var r := CeilDiv(a, b);
    var B, R, A := b as real, r as real, a as real;
    var x := A / B;
    assert x * B == A;
    CastMul(r, b);
    CastMul(r - 1, b);
    var u, v := R - x, x - (R - 1.0);
    assert u * B == (r * b) as real - A;
    assert v * B == A - ((r - 1) * b) as real;
    Unscale(u, v, B);
    CeilUnique(x, r);
  }
}
