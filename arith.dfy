/** Facts about Euclidean division and multiplication that the quota
    arithmetic and the duration components share. */
module Arith {

  /** The floor quotient brackets the dividend between consecutive multiples. */
  lemma FloorDivBounds(a: int, d: int)
    requires d > 0
    ensures (a / d) * d <= a < (a / d + 1) * d
    ensures a >= 0 ==> a / d >= 0
  {
    var q := a / d;
    assert a == d * q + a % d;
    assert (q + 1) * d == q * d + d;
  }

  /** Adding what is missing to the next multiple gives a multiple. */
  lemma RoundUpToMultiple(m: int, b: int)
    requires b > 0
    ensures m >= 0 ==> (m + (b - m % b)) % b == 0
  {
    var k := m / b;
    assert m == b * k + m % b;
    assert m + (b - m % b) == b * (k + 1) + 0;
    DivModUnique(m + (b - m % b), b, k + 1, 0);
  }

  /** Euclidean division is determined by quotient and remainder. */
  lemma DivModUnique(a: int, b: int, q: int, r: int)
    requires b > 0 && a == b * q + r && 0 <= r < b
    ensures a / b == q && a % b == r
  {
    var q0, r0 := a / b, a % b;
    assert b * q0 + r0 == b * q + r;
    assert b * (q - q0) == r0 - r;
    if q - q0 >= 1 {
      MulAtLeast(b, q - q0);
    } else if q0 - q >= 1 {
      MulAtLeast(b, q0 - q);
    }
  }

  lemma MulAtLeast(b: int, k: int)
    requires b > 0 && k >= 1
    ensures b * k >= b
  {
  }

  lemma DivDiv(a: int, b: int, c: int)
    requires a >= 0 && b > 0 && c > 0
    ensures a / (b * c) == (a / b) / c
  {
    var q, r := a / b, a % b;
    var q2, r2 := q / c, q % c;
    assert a == b * q + r;
    assert q == c * q2 + r2;
    assert a == (b * c) * q2 + (b * r2 + r) by {
      assert b * q == b * (c * q2) + b * r2;
      assert b * (c * q2) == (b * c) * q2;
    }
    assert b * r2 <= b * (c - 1) by {
      MulMonotone(b, r2, c - 1);
    }
    assert b * (c - 1) == b * c - b;
    DivModUnique(a, b * c, q2, b * r2 + r);
  }

  lemma MulMonotone(b: int, x: int, y: int)
    requires b > 0 && 0 <= x <= y
    ensures 0 <= b * x <= b * y
  {
  }
}
