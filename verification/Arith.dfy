/** Machine integers: width-parametric arithmetic and the floor-division facts used everywhere else. */
module Arith {

  const I128_MAX: int := 0x7fff_ffff_ffff_ffff_ffff_ffff_ffff_ffff
  const I128_MIN: int := -0x8000_0000_0000_0000_0000_0000_0000_0000
  const U32_MAX: int := 0xffff_ffff
  const U64_MAX: int := 0xffff_ffff_ffff_ffff

  type i128 = x: int | I128_MIN <= x <= I128_MAX
  type u32 = x: int | 0 <= x <= U32_MAX

  /** `I128` saturates every result as the contract does; `Unbounded` is exact arithmetic. */
  datatype Width = Unbounded | I128

  function Min(a: int, b: int): int {
    if a <= b then a else b
  }

  function Max(a: int, b: int): int {
    if a >= b then a else b
  }

  function Clip(w: Width, x: int): int {
    if w.Unbounded? then x
    else if x > I128_MAX then I128_MAX
    else if x < I128_MIN then I128_MIN
    else x
  }

  function Mul(w: Width, a: int, b: int): int {
    Clip(w, a * b)
  }

  function Add(w: Width, a: int, b: int): int {
    Clip(w, a + b)
  }

  function Sub(w: Width, a: int, b: int): int {
    Clip(w, a - b)
  }

  /** Division rounding toward zero. */
  function Quot(a: int, b: int): int
    requires b > 0
  {
    if a >= 0 then a / b else -((-a) / b)
  }

  /** Division rounding up. */
  function CeilDiv(a: int, b: int): int
    requires b > 0
  {
    (a + b - 1) / b
  }

  lemma {:induction false} MulLe(a: int, b: int, k: int)
    requires a <= b && 0 <= k
    ensures a * k <= b * k
  {
  }

  lemma {:induction false} Cancel(a: int, b: int, k: int)
    requires 0 < k && a * k <= b * k
    ensures a <= b
  {
    if b + 1 <= a {
      MulLe(b + 1, a, k);
    }
  }

  /** `a / b` is the greatest k with k * b <= a. */
  lemma {:induction false} FloorGe(a: int, b: int, k: int)
    requires b > 0
    ensures k <= a / b <==> k * b <= a
  {
    var f := a / b;
    assert a == f * b + a % b;
    if k <= f {
      MulLe(k, f, b);
    } else {
      MulLe(f + 1, k, b);
    }
  }

  lemma {:induction false} Floor(a: int, b: int)
    requires b > 0
    ensures (a / b) * b <= a < (a / b) * b + b
    ensures a >= 0 ==> a / b >= 0
  {
    FloorGe(a, b, a / b);
    FloorGe(a, b, a / b + 1);
    FloorGe(a, b, 0);
  }

  /** `CeilDiv(a, b)` is the least k with a <= k * b. */
  lemma {:induction false} CeilLe(a: int, b: int, k: int)
    requires b > 0
    ensures CeilDiv(a, b) <= k <==> a <= k * b
  {
    FloorGe(a + b - 1, b, k + 1);
  }

  /** Rounding never reorders fractions: the larger fraction has the larger floor. */
  lemma {:induction false} FloorMono(a: int, b: int, c: int, d: int)
    requires b > 0 && d > 0 && c * b <= a * d
    ensures c / d <= a / b
  {
    var k := c / d;
    Floor(c, d);
    assert k * b * d <= a * d by {
      MulLe(k * d, c, b);
      assert k * d * b == k * b * d;
    }
    Cancel(k * b, a, d);
    FloorGe(a, b, k);
  }

  /** Two floored quotients over the same span differ by at most the rounded-up quotient of the difference. */
  lemma {:induction false} FloorDifference(x: int, y: int, e: int, s: int)
    requires s > 0 && x - y <= e
    ensures x / s - y / s <= CeilDiv(e, s)
  {
    var c := CeilDiv(e, s);
    CeilLe(e, s, c);
    Floor(x, s);
    Floor(y, s);
    var k := x / s;
    assert (k - c) * s <= y by {
      assert (k - c) * s == k * s - c * s;
    }
    FloorGe(y, s, k - c);
  }
}
