/** Integer facts shared by the bucket, line and size arithmetic. */
module Arith {

  /** `ceil(a / b)` for a positive divisor: the fewest blocks of `b` that
      cover `a`. */
  function CeilDiv(a: nat, b: nat): (q: nat)
    requires b >= 1
    ensures b * q >= a
    ensures q == 0 || b * (q - 1) < a
  {
    var q := (a + b - 1) / b;
    assert b * q + (a + b - 1) % b == a + b - 1;
    q
  }

  lemma MulMonotone(x: int, y: int, k: nat)
    requires x <= y
    ensures k * x <= k * y
  {
  }

  lemma NonNegProduct(x: int, y: int)
    requires x >= 0 && y >= 0
    ensures x * y >= 0
  {
  }

  /** Division is determined by quotient and remainder. */
  lemma DivUnique(a: int, b: int, q: int, r: int)
    requires b >= 1 && a == q * b + r && 0 <= r < b
    ensures a / b == q
  {
    var q2, r2 := a / b, a % b;
    var d := q2 - q;
    assert d * b == r - r2;
  }

  /** Floor division brackets its dividend between two multiples. */
  lemma FloorDiv(a: int, b: int)
    requires b >= 1
    ensures b * (a / b) <= a < b * (a / b + 1)
    ensures a >= 0 ==> a / b >= 0
  {
    var q, r := a / b, a % b;
    assert a == b * q + r;
    assert b * (q + 1) == b * q + b;
  }

  /** Up to `b` units need exactly one block of `b`. */
  lemma CeilDivOne(a: nat, b: nat)
    requires b >= 1 && 1 <= a <= b
    ensures CeilDiv(a, b) == 1
  {
    DivUnique(a + b - 1, b, 1, a - 1);
  }

  /** More than `b` units need one block more than `a - b` units do. */
  lemma CeilDivStep(a: nat, b: nat)
    requires b >= 1 && a > b
    ensures CeilDiv(a, b) == CeilDiv(a - b, b) + 1
  {
    var x := a - 1;
    DivUnique(x + b, b, x / b + 1, x % b);
  }
}
