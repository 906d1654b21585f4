/** The inline arithmetic helpers of the back-end: sign, max2, max3, min3,
    fabs and invert_2by2_matrix. */
module Arith {

  /** sign(x) = (x>0)-(x<0) */
  function Sign(x: real): (r: real)
    ensures r == 1.0 || r == 0.0 || r == -1.0
    ensures r == 1.0 <==> x > 0.0
    ensures r == -1.0 <==> x < 0.0
  {
    (if x > 0.0 then 1.0 else 0.0) - (if x < 0.0 then 1.0 else 0.0)
  }

  function Abs(x: real): (r: real)
    ensures r >= 0.0 && (r == x || r == -x)
  {
    if x < 0.0 then -x else x
  }

  function Max2(a: real, b: real): (r: real)
    ensures r >= a && r >= b && (r == a || r == b)
  {
    if a > b then a else b
  }

  function Max3(a: real, b: real, c: real): (r: real)
    ensures r >= a && r >= b && r >= c && (r == a || r == b || r == c)
  {
    var ab := if a > b then a else b;
    if ab > c then ab else c
  }

  function Min3(a: real, b: real, c: real): (r: real)
    ensures r <= a && r <= b && r <= c && (r == a || r == b || r == c)
  {
    var ab := if a < b then a else b;
    if ab < c then ab else c
  }

  function Min2(a: real, b: real): (r: real)
    ensures r <= a && r <= b && (r == a || r == b)
  {
    if a < b then a else b
  }

  /** x lies in the closed interval spanned by a and b. */
  predicate Between(x: real, a: real, b: real)
  {
    (a <= x <= b) || (b <= x <= a)
  }

  /** A 2x2 matrix [[a00, a01], [a10, a11]]. */
  datatype Mat2 = Mat2(a00: real, a01: real, a10: real, a11: real)

  function Det(m: Mat2): real
  {
    m.a00 * m.a11 - m.a10 * m.a01
  }

  function Mul(a: Mat2, b: Mat2): Mat2
  {
    Mat2(a.a00 * b.a00 + a.a01 * b.a10, a.a00 * b.a01 + a.a01 * b.a11,
         a.a10 * b.a00 + a.a11 * b.a10, a.a10 * b.a01 + a.a11 * b.a11)
  }

  const Identity: Mat2 := Mat2(1.0, 0.0, 0.0, 1.0)

  /** invert_2by2_matrix: the adjugate divided by the determinant. */
  function Invert2By2(a: Mat2): (b: Mat2)
    requires Det(a) != 0.0
  {
    var det := Det(a);
    Mat2(a.a11 / det, -a.a01 / det, -a.a10 / det, a.a00 / det)
  }

  /** The closed form really is the inverse, on both sides. */
  lemma InvertIsInverse(a: Mat2)
    requires Det(a) != 0.0
    ensures Mul(a, Invert2By2(a)) == Identity
    ensures Mul(Invert2By2(a), a) == Identity
  {
    var d := Det(a);
    var b := Invert2By2(a);
    assert b == Mat2(a.a11 / d, -a.a01 / d, -a.a10 / d, a.a00 / d);
    assert d / d == 1.0;
    assert a.a00 * b.a00 + a.a01 * b.a10 == d / d;
    assert a.a10 * b.a01 + a.a11 * b.a11 == d / d;
    assert a.a00 * b.a01 + a.a01 * b.a11 == 0.0;
    assert a.a10 * b.a00 + a.a11 * b.a10 == 0.0;
    assert b.a00 * a.a00 + b.a01 * a.a10 == d / d;
    assert b.a10 * a.a01 + b.a11 * a.a11 == d / d;
    assert b.a00 * a.a01 + b.a01 * a.a11 == 0.0;
    assert b.a10 * a.a00 + b.a11 * a.a10 == 0.0;
  }

  // Small facts about real division, kept as separate lemmas so that
  // the solver sees one nonlinear step at a time.

  lemma DivCancel(x: real, d: real)
    requires d != 0.0
    ensures (x / d) * d == x
  {
  }

  /** A nonzero factor cancels from both sides of an equation. */
  lemma MulCancel(x: real, y: real, d: real)
    requires d != 0.0 && x * d == y * d
    ensures x == y
  {
    assert (x - y) * d == 0.0;
  }

  lemma DivSign(x: real, d: real)
    requires d > 0.0
    ensures x / d > 0.0 <==> x > 0.0
    ensures x / d == 0.0 <==> x == 0.0
    ensures x / d < 0.0 <==> x < 0.0
  {
    DivCancel(x, d);
    if x / d > 0.0 { MulPositive(x / d, d); }
    if x / d < 0.0 { MulPositive(-(x / d), d); }
  }

  /** Stated over a product of two names: the solver loses sign facts about
      a square bound to a fresh name, so callers pass (d, d). */
  lemma DivByProductNonNeg(x: real, a: real, b: real)
    requires a > 0.0 && b > 0.0 && x >= 0.0
    ensures a * b > 0.0 && x / (a * b) >= 0.0
  {
    MulPositive(a, b);
    DivSign(x, a * b);
  }

  lemma SquarePositive(x: real)
    requires x != 0.0
    ensures x * x > 0.0
  {
    if x < 0.0 {
      MulPositive(-x, -x);
      NegateBoth(x, x);
    } else {
      MulPositive(x, x);
    }
  }

  lemma NegateBoth(a: real, b: real)
    ensures (-a) * (-b) == a * b
  {
  }

  lemma MulPositive(a: real, b: real)
    requires a > 0.0 && b > 0.0
    ensures a * b > 0.0
  {
  }

  lemma DivBelow(x: real, d: real, c: real)
    requires d > 0.0 && x < c * d
    ensures x / d < c
  {
    DivCancel(x, d);
    if x / d >= c {
      MulMonotone(c, x / d, d);
    }
  }

  lemma DivAtMost(x: real, d: real, c: real)
    requires d > 0.0 && x <= c * d
    ensures x / d <= c
  {
    DivCancel(x, d);
    if x / d > c {
      MulStrict(c, x / d, d);
    }
  }

  lemma DivAtLeast(x: real, d: real, c: real)
    requires d > 0.0 && c * d <= x
    ensures c <= x / d
  {
    DivCancel(x, d);
    if x / d < c {
      MulStrict(x / d, c, d);
    }
  }

  lemma MulMonotone(a: real, b: real, d: real)
    requires a <= b && d > 0.0
    ensures a * d <= b * d
  {
    assert b * d - a * d == (b - a) * d;
  }

  lemma MulStrict(a: real, b: real, d: real)
    requires a < b && d > 0.0
    ensures a * d < b * d
  {
    assert b * d - a * d == (b - a) * d;
    MulPositive(b - a, d);
  }
}
