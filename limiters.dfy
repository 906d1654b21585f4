/** The three-point slope limiters plm_minmod, MC_limiter and
    harmonic_mean, and the choice among them made by set_state. Each takes
    the values of three consecutive cells and returns a limited slope for
    the middle one. */
module Limiters {
  import opened Arith
  import opened Config
  import opened Wrappers

  // ---------------------------------------------------------------- minmod

  /** plm_minmod, with lib_state.plm_theta passed as theta. */
  function PlmMinmod(theta: real, ul: real, u0: real, ur: real): real
  {
    var a := theta * (u0 - ul);
    var b := 0.5 * (ur - ul);
    var c := theta * (ur - u0);
    MinmodFactor(a, b, c) * Min3(Abs(a), Abs(b), Abs(c))
  }

  /** The smallest of the three candidate slopes in magnitude. */
  function MinmodMagnitude(theta: real, ul: real, u0: real, ur: real): real
  {
    Min3(Abs(theta * (u0 - ul)), Abs(0.5 * (ur - ul)), Abs(theta * (ur - u0)))
  }

  /** Whatever theta is, the minmod slope is no larger than the smallest candidate. */
  lemma MinmodBound(theta: real, ul: real, u0: real, ur: real)
    ensures Abs(PlmMinmod(theta, ul, u0, ur)) <= MinmodMagnitude(theta, ul, u0, ur)
  {
    MinmodSlopeBound(theta * (u0 - ul), 0.5 * (ur - ul), theta * (ur - u0));
  }

  /** MinmodBound on the three candidate slopes themselves. */
  lemma MinmodSlopeBound(a: real, b: real, c: real)
    ensures Abs(MinmodFactor(a, b, c) * Min3(Abs(a), Abs(b), Abs(c))) <= Min3(Abs(a), Abs(b), Abs(c))
  {
    MinmodFactorRange(a, b, c);
    ScaledBound(MinmodFactor(a, b, c), Min3(Abs(a), Abs(b), Abs(c)));
  }

  /** The sign factor of minmod lies in [-1, 1]. */
  lemma MinmodFactorRange(a: real, b: real, c: real)
    ensures -1.0 <= MinmodFactor(a, b, c) <= 1.0
  {
    var sab := Abs(Sign(a) + Sign(b));
    var sac := Sign(a) + Sign(c);
    assert sab == 0.0 || sab == 1.0 || sab == 2.0;
    assert sac == -2.0 || sac == -1.0 || sac == 0.0 || sac == 1.0 || sac == 2.0;
    assert MinmodFactor(a, b, c) == 0.25 * sab * sac;
  }

  /** |f m| <= m for f in [-1, 1] and m >= 0. */
  lemma ScaledBound(f: real, m: real)
    requires -1.0 <= f <= 1.0 && m >= 0.0
    ensures Abs(f * m) <= m
  {
    if m > 0.0 {
      MulMonotone(f, 1.0, m);
      MulMonotone(-1.0, f, m);
      assert -m <= f * m <= m;
    } else {
      assert f * m == 0.0;
    }
  }

  /** The sign factor of plm_minmod, taking the values -1, 0 and 1. */
  function MinmodFactor(a: real, b: real, c: real): real
  {
    0.25 * Abs(Sign(a) + Sign(b)) * (Sign(a) + Sign(c))
  }

  lemma MinmodFactorCases(a: real, b: real, c: real)
    ensures a > 0.0 && b > 0.0 && c > 0.0 ==> MinmodFactor(a, b, c) == 1.0
    ensures a < 0.0 && b < 0.0 && c < 0.0 ==> MinmodFactor(a, b, c) == -1.0
    ensures (a > 0.0 && c < 0.0) || (a < 0.0 && c > 0.0) ==> MinmodFactor(a, b, c) == 0.0
  {
  }

  /** For theta > 0 the minmod slope is zero unless the two one-sided
      differences share a strict sign, and otherwise carries that sign with
      the magnitude of the smallest candidate. */
  lemma MinmodCases(theta: real, ul: real, u0: real, ur: real)
    requires theta > 0.0
    ensures var r := PlmMinmod(theta, ul, u0, ur);
            var m := MinmodMagnitude(theta, ul, u0, ur);
            && (u0 - ul > 0.0 && ur - u0 > 0.0 ==> r == m)
            && (u0 - ul < 0.0 && ur - u0 < 0.0 ==> r == -m)
            && (!(u0 - ul > 0.0 && ur - u0 > 0.0) && !(u0 - ul < 0.0 && ur - u0 < 0.0) ==> r == 0.0)
  {
    var a := theta * (u0 - ul);
    var b := 0.5 * (ur - ul);
    var c := theta * (ur - u0);
    ScaledSign(theta, u0 - ul, a);
    ScaledSign(theta, ur - u0, c);
    FactorTimesMagnitude(a, b, c);
  }

  lemma FactorTimesMagnitude(a: real, b: real, c: real)
    requires b > 0.0 ==> a > 0.0 || c > 0.0
    requires b < 0.0 ==> a < 0.0 || c < 0.0
    ensures var m := Min3(Abs(a), Abs(b), Abs(c));
            var r := MinmodFactor(a, b, c) * m;
            && (a > 0.0 && c > 0.0 ==> r == m)
            && (a < 0.0 && c < 0.0 ==> r == -m)
            && (!(a > 0.0 && c > 0.0) && !(a < 0.0 && c < 0.0) ==> r == 0.0)
  {
    MinmodFactorCases(a, b, c);
    var m := Min3(Abs(a), Abs(b), Abs(c));
    if a == 0.0 || c == 0.0 {
      assert m == 0.0;
    }
  }

  lemma ScaledSign(theta: real, x: real, p: real)
    requires theta > 0.0 && p == theta * x
    ensures p > 0.0 <==> x > 0.0
    ensures p < 0.0 <==> x < 0.0
  {
    if x > 0.0 { MulPositive(theta, x); }
    if x < 0.0 { MulPositive(theta, -x); }
  }

  // ------------------------------------------------- monotonized central

  /** MC_limiter exactly as written: the third candidate 0.5*(ur-ul) is
      taken without fabs. */
  function MCLimiter(ul: real, u0: real, ur: real): real
  {
    var qp := ur - u0;
    var qm := u0 - ul;
    var si := 0.5 * (Sign(qp) + Sign(qm));
    si * Min3(2.0 * Abs(qp), 2.0 * Abs(qm), 0.5 * (ur - ul))
  }

  /** On strictly increasing data MC is the textbook monotonized-central slope. */
  lemma MCLimiterIncreasing(ul: real, u0: real, ur: real)
    requires ul < u0 < ur
    ensures MCLimiter(ul, u0, ur) == Min3(2.0 * (ur - u0), 2.0 * (u0 - ul), 0.5 * (ur - ul))
    ensures MCLimiter(ul, u0, ur) > 0.0
  {
  }

  /** At a strict local extremum MC returns a zero slope. */
  lemma MCLimiterExtremum(ul: real, u0: real, ur: real)
    requires (ur - u0) * (u0 - ul) < 0.0
    ensures MCLimiter(ul, u0, ur) == 0.0
  {
    var qp := ur - u0;
    var qm := u0 - ul;
    if qp > 0.0 && qm > 0.0 { MulPositive(qp, qm); }
    if qp < 0.0 && qm < 0.0 { MulPositive(-qp, -qm); }
  }

  /** Because the third candidate lacks fabs, on strictly decreasing data
      MC returns the positive value 0.5*(ul-ur): a slope of the wrong sign,
      so the reconstructed edge u0 + 0.5*slope overshoots u0. */
  lemma MCLimiterDecreasing(ul: real, u0: real, ur: real)
    requires ul > u0 > ur
    ensures MCLimiter(ul, u0, ur) == 0.5 * (ul - ur)
    ensures MCLimiter(ul, u0, ur) > 0.0
    ensures !Between(u0 + 0.5 * MCLimiter(ul, u0, ur), u0, ur)
  {
  }

  // ----------------------------------------------------- harmonic mean

  /** harmonic_mean as written, with a non-finite quotient (0/0 in IEEE
      arithmetic) shown as None. */
  function HarmonicMeanAsWritten(ul: real, u0: real, ur: real): Option<real>
  {
    var qp := ur - u0;
    var qm := u0 - ul;
    if qp + qm == 0.0 then None else Some(2.0 * Max2(0.0, qp * qm) / (qp + qm))
  }

  /** The written harmonic mean is non-finite exactly when ul == ur, which
      includes every locally flat stencil. */
  lemma HarmonicMeanAsWrittenUndefined(ul: real, u0: real, ur: real)
    ensures HarmonicMeanAsWritten(ul, u0, ur).None? <==> ul == ur
  {
  }

  /** The smallest counterexample: a flat stencil gives 0/0, where the
      intended slope is 0. */
  lemma HarmonicMeanFlatStencil(u: real)
    ensures HarmonicMeanAsWritten(u, u, u) == None
    ensures HarmonicMeanLimiter(u, u, u) == 0.0
  {
  }

  /** The harmonic-mean slope with the 0/0 case given its limit value 0:
      zero unless both one-sided differences share a strict sign, and then
      twice their product over their sum. */
  function HarmonicMeanLimiter(ul: real, u0: real, ur: real): (r: real)
    ensures var qp := ur - u0; var qm := u0 - ul;
      && (qp * qm <= 0.0 ==> r == 0.0)
      && (qp > 0.0 && qm > 0.0 ==> Min2(qp, qm) <= r <= 2.0 * Min2(qp, qm))
      && (qp < 0.0 && qm < 0.0 ==> -2.0 * Min2(-qp, -qm) <= r <= -Min2(-qp, -qm))
  {
    var qp := ur - u0;
    var qm := u0 - ul;
    if qp * qm <= 0.0 then 0.0
    else
      HarmonicMeanBounds(qp, qm);
      2.0 * (qp * qm) / (qp + qm)
  }

  lemma HarmonicMeanBounds(qp: real, qm: real)
    requires qp * qm > 0.0
    ensures qp + qm != 0.0
    ensures qp > 0.0 && qm > 0.0 ==> Min2(qp, qm) <= 2.0 * (qp * qm) / (qp + qm) <= 2.0 * Min2(qp, qm)
    ensures qp < 0.0 && qm < 0.0 ==> -2.0 * Min2(-qp, -qm) <= 2.0 * (qp * qm) / (qp + qm) <= -Min2(-qp, -qm)
    ensures (qp > 0.0 && qm > 0.0) || (qp < 0.0 && qm < 0.0)
  {
    if qp > 0.0 && qm < 0.0 { MulPositive(qp, -qm); }
    if qp < 0.0 && qm > 0.0 { MulPositive(-qp, qm); }
    if qp > 0.0 && qm > 0.0 {
      PositiveHarmonicBounds(qp, qm);
    }
    if qp < 0.0 && qm < 0.0 {
      var x, y := -qp, -qm;
      PositiveHarmonicBounds(x, y);
      var n := 2.0 * (qp * qm);
      var s := qp + qm;
      NegateProduct(qp, qm);
      assert 2.0 * (x * y) == n;
      assert x + y == -s;
      DivNegate(n, s);
      assert 2.0 * (x * y) / (x + y) == -(n / s);
    }
  }

  lemma NegateProduct(a: real, b: real)
    ensures (-a) * (-b) == a * b
  {
  }

  lemma DivNegate(x: real, d: real)
    requires d != 0.0
    ensures x / (-d) == -(x / d)
  {
  }

  lemma PositiveHarmonicBounds(x: real, y: real)
    requires x > 0.0 && y > 0.0
    ensures Min2(x, y) <= 2.0 * (x * y) / (x + y) <= 2.0 * Min2(x, y)
  {
    var s := x + y;
    var n := 2.0 * (x * y);
    var m := Min2(x, y);
    MulPositive(x, x);
    MulPositive(y, y);
    assert 2.0 * x * s == n + 2.0 * (x * x);
    assert 2.0 * y * s == n + 2.0 * (y * y);
    assert n <= 2.0 * m * s;
    DivAtMost(n, s, 2.0 * m);
    MulMonotone(m, y, x);
    MulMonotone(m, x, y);
    assert m * s == m * x + m * y;
    DivAtLeast(n, s, m);
  }

  /** Wherever the written harmonic mean is finite, it equals the corrected one. */
  lemma HarmonicMeanAgrees(ul: real, u0: real, ur: real)
    requires HarmonicMeanAsWritten(ul, u0, ur).Some?
    ensures HarmonicMeanAsWritten(ul, u0, ur).value == HarmonicMeanLimiter(ul, u0, ur)
  {
    var qp := ur - u0;
    var qm := u0 - ul;
    if qp * qm <= 0.0 {
      assert Max2(0.0, qp * qm) == 0.0;
    }
  }

  // --------------------------------------------------- limiter selection

  /** The value of the slope_limiter function variable. */
  datatype SlopeLimiter = Minmod | MonotonizedCentral | HarmonicMean

  /** The switch of set_state: unknown modes fall back to minmod. */
  function SelectLimiter(mode: int): (l: SlopeLimiter)
    ensures l == MonotonizedCentral <==> mode == SlopeLimiterMonotizedCentral
    ensures l == HarmonicMean <==> mode == SlopeLimiterHarmonicMean
    ensures l == Minmod <==> mode != SlopeLimiterMonotizedCentral && mode != SlopeLimiterHarmonicMean
  {
    if mode == SlopeLimiterMinmod then Minmod
    else if mode == SlopeLimiterMonotizedCentral then MonotonizedCentral
    else if mode == SlopeLimiterHarmonicMean then HarmonicMean
    else Minmod
  }

  /** A call through slope_limiter. */
  function Limit(lim: SlopeLimiter, theta: real, ul: real, u0: real, ur: real): real
  {
    match lim
    case Minmod => PlmMinmod(theta, ul, u0, ur)
    case MonotonizedCentral => MCLimiter(ul, u0, ur)
    case HarmonicMean => HarmonicMeanLimiter(ul, u0, ur)
  }

  /** Minmod with 0 < theta <= 2 and the harmonic mean create no new
      extrema: the two edges u0 + slope/2 and u0 - slope/2 of the middle
      cell stay between it and the corresponding neighbour. */
  lemma LimitedEdgesBetween(lim: SlopeLimiter, theta: real, ul: real, u0: real, ur: real)
    requires (lim == Minmod && 0.0 < theta <= 2.0) || lim == HarmonicMean
    ensures Between(u0 + 0.5 * Limit(lim, theta, ul, u0, ur), u0, ur)
    ensures Between(u0 - 0.5 * Limit(lim, theta, ul, u0, ur), ul, u0)
  {
    if lim == Minmod {
      MinmodEdges(theta, ul, u0, ur);
    } else {
      HarmonicMeanEdges(ul, u0, ur);
    }
  }

  lemma MinmodEdges(theta: real, ul: real, u0: real, ur: real)
    requires 0.0 < theta <= 2.0
    ensures Between(u0 + 0.5 * PlmMinmod(theta, ul, u0, ur), u0, ur)
    ensures Between(u0 - 0.5 * PlmMinmod(theta, ul, u0, ur), ul, u0)
  {
    var r := PlmMinmod(theta, ul, u0, ur);
    MinmodCases(theta, ul, u0, ur);
    MinmodMagnitudeBound(theta, ul, u0, ur);
    BoundedSlopeEdges(ul, u0, ur, r);
  }

  lemma MinmodMagnitudeBound(theta: real, ul: real, u0: real, ur: real)
    requires 0.0 < theta <= 2.0
    ensures 0.0 <= MinmodMagnitude(theta, ul, u0, ur) <= 2.0 * Abs(u0 - ul)
    ensures MinmodMagnitude(theta, ul, u0, ur) <= 2.0 * Abs(ur - u0)
  {
    var a := theta * (u0 - ul);
    var c := theta * (ur - u0);
    ScaledAbsBound(theta, u0 - ul, a);
    ScaledAbsBound(theta, ur - u0, c);
  }

  /** A slope that is zero away from strictly monotone data and otherwise
      carries the data's sign with at most twice either one-sided
      difference keeps both edges between the neighbouring values. */
  lemma BoundedSlopeEdges(ul: real, u0: real, ur: real, r: real)
    requires u0 - ul > 0.0 && ur - u0 > 0.0 ==> 0.0 <= r <= 2.0 * (u0 - ul) && r <= 2.0 * (ur - u0)
    requires u0 - ul < 0.0 && ur - u0 < 0.0 ==> 2.0 * (u0 - ul) <= r <= 0.0 && 2.0 * (ur - u0) <= r
    requires !(u0 - ul > 0.0 && ur - u0 > 0.0) && !(u0 - ul < 0.0 && ur - u0 < 0.0) ==> r == 0.0
    ensures Between(u0 + 0.5 * r, u0, ur)
    ensures Between(u0 - 0.5 * r, ul, u0)
  {
  }

  lemma ScaledAbsBound(theta: real, x: real, p: real)
    requires 0.0 < theta <= 2.0 && p == theta * x
    ensures Abs(p) <= 2.0 * Abs(x)
  {
    if x > 0.0 {
      MulPositive(theta, x);
      MulMonotone(theta, 2.0, x);
      assert 0.0 < theta * x && theta * x <= 2.0 * x;
    } else if x < 0.0 {
      MulPositive(theta, -x);
      MulMonotone(theta, 2.0, -x);
      assert theta * -x == -p;
      assert 0.0 < theta * -x && theta * -x <= 2.0 * -x;
    } else {
      assert p == 0.0;
    }
  }

  lemma HarmonicMeanEdges(ul: real, u0: real, ur: real)
    ensures Between(u0 + 0.5 * HarmonicMeanLimiter(ul, u0, ur), u0, ur)
    ensures Between(u0 - 0.5 * HarmonicMeanLimiter(ul, u0, ur), ul, u0)
  {
    var qp := ur - u0;
    var qm := u0 - ul;
    var r := HarmonicMeanLimiter(ul, u0, ur);
    if qp > 0.0 && qm > 0.0 {
      MulPositive(qp, qm);
      assert Min2(qp, qm) <= r <= 2.0 * Min2(qp, qm);
    } else if qp < 0.0 && qm < 0.0 {
      MulPositive(-qp, -qm);
      assert -2.0 * Min2(-qp, -qm) <= r <= -Min2(-qp, -qm);
    } else {
      if qp > 0.0 && qm < 0.0 { MulPositive(qp, -qm); }
      if qp < 0.0 && qm > 0.0 { MulPositive(-qp, qm); }
      assert qp * qm <= 0.0;
      assert r == 0.0;
    }
  }
}
