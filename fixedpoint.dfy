/** Go integer arithmetic as the quantiser uses it, written out over Dafny's
    unbounded integers: shifts, truncating division and byte conversion. */
module FixedPoint {

  /** A Go `byte`. */
  newtype byte = x: int | 0 <= x < 256

  function Pow2(k: nat): (p: int)
    ensures p >= 1
  {
    if k == 0 then 1 else 2 * Pow2(k - 1)
  }

  /** Go's `x << k` (no overflow: Go `int` is 64-bit and every operand here is small). */
  function Shl(x: int, k: nat): (y: int)
  {
    x * Pow2(k)
  }

  /** Go's `x >> k` on a signed integer: an arithmetic shift, which rounds
      toward minus infinity; Dafny's `/` by a positive divisor does the same. */
  function Shr(x: int, k: nat): (y: int)
  {
    x / Pow2(k)
  }

  /** Go's `a / d` for a positive divisor: truncates toward zero, unlike Dafny's `/`. */
  function GoDiv(a: int, d: int): (q: int)
    requires d > 0
  {
    if a >= 0 then a / d else -((-a) / d)
  }

  /** Truncating division divides the magnitude and keeps the sign, and it
      agrees with Dafny's (flooring) division on a non-negative dividend. */
  lemma GoDivTruncates(a: int, d: int)
    requires d > 0
    ensures Abs(GoDiv(a, d)) == Abs(a) / d
    ensures (a >= 0 ==> GoDiv(a, d) >= 0 && GoDiv(a, d) == a / d) && (a <= 0 ==> GoDiv(a, d) <= 0)
  {
  }

  /** Go's `byte(x)`: keeps the low eight bits of a two's-complement integer. */
  function ToByte(x: int): (r: byte)
    ensures 0 <= x < 256 ==> r as int == x
    ensures (r as int - x) % 256 == 0
  {
    (x % 256) as byte
  }

  function Abs(x: int): (r: int)
    ensures r >= 0 && (r == x || r == -x)
  {
    if x < 0 then -x else x
  }

  function Min(x: int, y: int): (m: int)
  {
    if x < y then x else y
  }

  function Max(x: int, y: int): (m: int)
  {
    if x > y then x else y
  }

  /** `c - (a * (c - t)) / d`: the source's step that moves a channel value `c`
      toward a target `t` by the fraction a/d, with Go's truncating division. */
  function MoveToward(c: int, a: int, d: int, t: int): (c': int)
    requires d > 0
  {
    c - GoDiv(a * (c - t), d)
  }

  /** A fraction a/d of a difference x, truncated, is at most x. */
  lemma FractionAtMost(a: int, d: int, x: int)
    requires 0 <= a <= d && 0 < d && 0 <= x
    ensures 0 <= (a * x) / d <= x
  {
    var q := (a * x) / d;
    assert 0 <= a * x <= d * x;
    assert d * q <= a * x;
    assert d * q <= d * x;
  }

  /** Moving by a fraction 0 <= a/d <= 1 lands between the old value and the
      target: truncation toward zero never overshoots. */
  lemma MoveTowardBetween(c: int, a: int, d: int, t: int)
    requires 0 <= a <= d && 0 < d
    ensures c <= t ==> c <= MoveToward(c, a, d, t) <= t
    ensures t <= c ==> t <= MoveToward(c, a, d, t) <= c
  {
    if c >= t {
      FractionAtMost(a, d, c - t);
      assert a * (c - t) >= 0;
    } else {
      FractionAtMost(a, d, t - c);
      assert a * (c - t) == -(a * (t - c));
      assert a * (c - t) < 0 || a * (c - t) == 0;
    }
  }

  /** Hence a move keeps a channel inside any interval that holds both the
      channel and the target. */
  lemma MoveTowardInRange(c: int, a: int, d: int, t: int, lo: int, hi: int)
    requires 0 <= a <= d && 0 < d
    requires lo <= c <= hi && lo <= t <= hi
    ensures lo <= MoveToward(c, a, d, t) <= hi
  {
    MoveTowardBetween(c, a, d, t);
  }
}
