/** Fixed-point money and ratings as Python's `Decimal` computes them. */
module Decimals {

  /** `x` has at most two decimal places, as every `DecimalField(decimal_places=2)` holds. */
  predicate IsCents(x: real) {
    (x * 100.0).Floor as real == x * 100.0
  }

  function Abs(x: real): real {
    if x < 0.0 then -x else x
  }

  /** The integer nearest `y`, ties going to the even one. */
  function RoundHalfEven(y: real): (k: int)
    ensures -0.5 <= k as real - y <= 0.5
    ensures y.Floor as real == y ==> k as real == y
    ensures k as real - y == 0.5 || y - k as real == 0.5 ==> k % 2 == 0
    ensures k == y.Floor || k == y.Floor + 1
  {
    var f := y.Floor;
    var frac := y - f as real;
    if frac < 0.5 then f else if frac > 0.5 then f + 1 else if f % 2 == 0 then f else f + 1
  }

  /** Python's `round(d, 2)` on a `Decimal`: quantize to 0.01 under the default
      context, whose rounding mode is ROUND_HALF_EVEN. */
  function RoundHalfEven2(x: real): (r: real)
    ensures IsCents(r)
    ensures Abs(r - x) <= 0.005
    ensures IsCents(x) ==> r == x
    ensures Abs(r - x) == 0.005 ==> (r * 100.0).Floor % 2 == 0
  {
    var y := x * 100.0;
    var k := RoundHalfEven(y);
    var r := k as real / 100.0;
    assert r * 100.0 == k as real;
    assert (r - x) * 100.0 == k as real - y;
    r
  }

  /** The rounded value is a nearest two-place value: no other `c / 100` is closer to `x`. */
  lemma RoundIsNearest(x: real, c: int)
    ensures Abs(RoundHalfEven2(x) - x) <= Abs(c as real / 100.0 - x)
  {
    var y := x * 100.0;
    var f := y.Floor;
    var r := RoundHalfEven2(x);
    var k := (r * 100.0).Floor;
    assert r * 100.0 == k as real;
    assert k == f || k == f + 1;
    assert c <= f || c >= f + 1;
    assert Abs(r - x) * 100.0 == Abs(k as real - y);
    assert Abs(c as real / 100.0 - x) * 100.0 == Abs(c as real - y);
  }

  /** Rounding a value that lies between two two-place values stays between them. */
  lemma RoundStaysBetween(x: real, lo: real, hi: real)
    requires IsCents(lo) && IsCents(hi)
    requires lo <= x <= hi
    ensures lo <= RoundHalfEven2(x) <= hi
  {
    var y := x * 100.0;
    var r := RoundHalfEven2(x);
    var k := (r * 100.0).Floor;
    var a := (lo * 100.0).Floor;
    var b := (hi * 100.0).Floor;
    assert a as real <= y <= b as real;
    assert y.Floor >= a;
    assert k == y.Floor || k == y.Floor + 1;
    assert k == y.Floor + 1 ==> y.Floor as real < y;
    assert k <= b;
  }

  /** The integer nearest `y`, ties going away from zero. */
  function RoundHalfAway(y: real): (k: int)
    ensures -0.5 <= k as real - y <= 0.5
    ensures y.Floor as real == y ==> k as real == y
    ensures k as real - y == 0.5 ==> y > 0.0
    ensures y - k as real == 0.5 ==> y < 0.0
    ensures k == y.Floor || k == y.Floor + 1
  {
    var f := y.Floor;
    var frac := y - f as real;
    if frac < 0.5 then f else if frac > 0.5 then f + 1 else if y >= 0.0 then f + 1 else f
  }

  /** What a `DecimalField(decimal_places=2)` column keeps of `x`: a PostgreSQL
      `numeric(p, 2)` rounds to two places, ties away from zero. */
  function StoreCents(x: real): (r: real)
    ensures IsCents(r)
    ensures Abs(r - x) <= 0.005
    ensures IsCents(x) ==> r == x
    ensures Abs(r - x) == 0.005 ==> Abs(r) > Abs(x)
  {
    var y := x * 100.0;
    var k := RoundHalfAway(y);
    var r := k as real / 100.0;
    assert r * 100.0 == k as real;
    assert (r - x) * 100.0 == k as real - y;
    r
  }

  /** A tie is stored away from zero: 12.345 becomes 12.35, where Python's
      `round` would give 12.34. */
  lemma StoreCentsExample()
    ensures StoreCents(12.345) == 12.35
    ensures RoundHalfEven2(12.345) == 12.34
  {
    assert (12.345 * 100.0).Floor == 1234;
  }

  /** Storing a value that lies between two two-place values stays between them. */
  lemma StoreStaysBetween(x: real, lo: real, hi: real)
    requires IsCents(lo) && IsCents(hi)
    requires lo <= x <= hi
    ensures lo <= StoreCents(x) <= hi
  {
    var y := x * 100.0;
    var r := StoreCents(x);
    var k := (r * 100.0).Floor;
    var a := (lo * 100.0).Floor;
    var b := (hi * 100.0).Floor;
    assert a as real <= y <= b as real;
    assert y.Floor >= a;
    assert k == y.Floor || k == y.Floor + 1;
    assert k == y.Floor + 1 ==> y.Floor as real < y;
    assert k <= b;
  }

  /** Values below half a cent are stored as zero. */
  lemma TinyStoredAsZero(x: real)
    requires 0.0 <= x < 0.005
    ensures StoreCents(x) == 0.0
  {
    var y := x * 100.0;
    assert 0.0 <= y < 0.5;
    assert y.Floor == 0;
  }

  /** A non-negative value is never stored as a negative one. */
  lemma StoreNonNegative(x: real)
    requires x >= 0.0
    ensures StoreCents(x) >= 0.0
  {
    var y := x * 100.0;
    assert y.Floor >= 0;
  }

  /** Two-place values are closed under addition. */
  lemma CentsSum(a: real, b: real)
    requires IsCents(a) && IsCents(b)
    ensures IsCents(a + b)
  {
    var m := (a * 100.0).Floor;
    var n := (b * 100.0).Floor;
    assert (a + b) * 100.0 == (m + n) as real;
  }
}
