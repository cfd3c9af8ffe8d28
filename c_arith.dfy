/**
 * C integer arithmetic that differs from Dafny's. Dafny's `/` on `int` is
 * Euclidean; C's `/` truncates toward zero, which matters when a counter
 * or a score is negative.
 */
module CArith {

  /** The C quotient `a / b`: the exact quotient with its fractional part dropped. */
  function CDiv(a: int, b: int): (q: int)
    requires b != 0
    ensures 0 <= a && 0 < b ==> q == a / b && 0 <= q <= a
  {
    if 0 <= a && 0 < b then DivRange(a, b); a / b
    else if a < 0 && 0 < b then -((-a) / b)
    else if 0 <= a && b < 0 then -(a / (-b))
    else (-a) / (-b)
  }

  /** The quotient of a non-negative number by a positive one lies between 0 and the number. */
  lemma DivRange(a: int, b: int)
    requires 0 <= a && 0 < b
    ensures 0 <= a / b <= a
  {
    var q := a / b;
    assert q * b + a % b == a && 0 <= a % b < b;
    MulPositive(q + 1, b);
    MulPositive(q, b - 1);
  }

  /** The sign rules of a product that the quotient bounds need. */
  lemma MulPositive(x: int, y: int)
    ensures x > 0 && y > 0 ==> x * y > 0
    ensures x >= 0 && y >= 0 ==> x * y >= 0
    ensures x <= 0 && y > 0 ==> x * y <= 0
  {
  }

  /** `imin` from the kernel's libkern. */
  function IMin(a: int, b: int): (r: int)
    ensures r <= a && r <= b && (r == a || r == b)
  {
    if a < b then a else b
  }
}
