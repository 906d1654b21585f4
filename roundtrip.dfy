/** The warm start of cons_to_prim_point is exact on the state it was
    given: for a state without magnetic field, converting it with
    prim_to_cons_point and recovering it with that same state as the guess
    finds it again after one Newton step, because both residuals vanish at
    the guess and the step is zero. */
module RoundTrip {
  import opened StateVec
  import opened Externals
  import opened Arith
  import opened Eos
  import opened Wrappers
  import opened Convert

  /** The two ways the back-end computes a Lorentz factor agree. */
  lemma LorentzFormsAgree(e: Ext, p: Vec8)
    requires e.Valid() && V2(p) < 1.0
    ensures V2(p) >= 0.0 && LorentzOfV2(e, V2(p)) == LorentzOfVelocity(e, p)
  {
    V2NonNegative(p);
    var v2 := V2(p);
    var a := LorentzOfV2(e, v2);
    var s := e.sqrt(1.0 - v2);
    var g := LorentzOfVelocity(e, p);
    SqrtPositive(e, 1.0 - v2);
    assert s * s == 1.0 - v2;
    assert g == 1.0 / s;
    InverseSquare(s, 1.0 - v2, g);
    PositiveRootUnique(a, g);
  }

  lemma InverseSquare(s: real, x: real, g: real)
    requires s > 0.0 && s * s == x && g == 1.0 / s
    ensures g * g == 1.0 / x
  {
    assert g * s == 1.0;
    assert (g * g) * x == (g * s) * (g * s);
    DivCancel(1.0, x);
    assert x != 0.0;
    assert (g * g) * x == 1.0;
  }

  lemma PositiveRootUnique(a: real, b: real)
    requires a >= 0.0 && b >= 0.0 && a * a == b * b
    ensures a == b
  {
    if a < b {
      MulProductStrict(a, b);
    } else if b < a {
      MulProductStrict(b, a);
    }
  }

  lemma MulProductStrict(a: real, b: real)
    requires 0.0 <= a < b
    ensures a * a < b * b
  {
    MulPositive(b - a, b + a);
    assert b * b - a * a == (b - a) * (b + a);
  }

  /** The squared Lorentz factor in the momentum residual: (W^2 - 1)/W^2 = v2. */
  lemma LorentzFraction(ww: real, v2: real)
    requires 0.0 <= v2 < 1.0 && ww == 1.0 / (1.0 - v2)
    ensures ww >= 1.0 && (ww - 1.0) / ww == v2
  {
    InverseAtLeastOne(1.0 - v2);
    DivCancel(1.0, 1.0 - v2);
    assert ww * (1.0 - v2) == 1.0;
    assert (ww - 1.0) == v2 * ww;
  }

  /** The momentum residual vanishes: S^2 = Z^2 v^2 when S = Z v. */
  lemma MomentumResidual(z: real, vx: real, vy: real, vz: real, frac: real, sx: real, sy: real, sz: real)
    requires frac == vx * vx + vy * vy + vz * vz
    requires sx == z * vx && sy == z * vy && sz == z * vz
    ensures -(sx * sx + sy * sy + sz * sz) + z * z * frac == 0.0
  {
  }

  lemma ScaledFraction(zz: real, num: real, den: real, frac: real)
    requires den != 0.0 && num / den == frac
    ensures zz * num / den == zz * frac
  {
    DivCancel(num, den);
    assert zz * num == (zz * frac) * den;
  }

  /** The pressure the Newton loop reads off (Z, W) is the original pressure
      when (Z, W) comes from the state itself. */
  lemma StatePressure(gamma: real, p: Vec8, k: Knowns, z: real, w: real, ww: real)
    requires gamma > 1.0 && p[Rho] > 0.0 && w >= 1.0 && w * w == ww
    requires k.d == p[Rho] * w && k.gamf == (gamma - 1.0) / gamma
    requires z == p[Rho] * Enthalpy(gamma, p) * ww
    ensures k.d != 0.0 && Pressure(k, Free, z, w) == p[Pre]
  {
    var h := Enthalpy(gamma, p);
    assert h == 1.0 + EosSie(gamma, p[Rho], p[Pre]) + p[Pre] / p[Rho];
    assert h == 1.0 + p[Pre] / (p[Rho] * (gamma - 1.0)) + p[Pre] / p[Rho];
    ScaleProduct(p[Rho] * h, w, w, ww);
    PressureIdentity(gamma, p[Rho], p[Pre], w, h, k, z);
  }

  lemma PressureIdentity(gamma: real, rho: real, pre: real, w: real, h: real, k: Knowns, z: real)
    requires gamma > 1.0 && rho > 0.0 && w >= 1.0
    requires h == 1.0 + pre / (rho * (gamma - 1.0)) + pre / rho
    requires k.d == rho * w && z == rho * h * w * w && k.gamf == (gamma - 1.0) / gamma
    ensures k.d != 0.0 && Pressure(k, Free, z, w) == pre
  {
    DensityAndEnthalpy(rho, w, h, k.d, z);
    EnthalpyPressure(gamma, rho, pre, h);
    assert Pressure(k, Free, z, w) == (k.d / w) * (z / (k.d * w) - 1.0) * k.gamf;
  }

  /** D / W = rho and Z / (D W) = h when D = rho W and Z = rho h W^2. */
  lemma DensityAndEnthalpy(rho: real, w: real, h: real, d: real, z: real)
    requires rho > 0.0 && w >= 1.0 && d == rho * w && z == rho * h * w * w
    ensures d != 0.0 && d / w == rho && d * w != 0.0 && z / (d * w) == h
  {
    MulPositive(rho, w);
    DivCancel(d, w);
    MulPositive(d, w);
    assert z == h * (d * w);
    DivCancel(z, d * w);
  }

  /** rho (h - 1) (gamma - 1) / gamma = p for the ideal-gas enthalpy
      h = 1 + p / (rho (gamma - 1)) + p / rho. */
  lemma EnthalpyPressure(gamma: real, rho: real, pre: real, h: real)
    requires gamma > 1.0 && rho > 0.0 && h == 1.0 + pre / (rho * (gamma - 1.0)) + pre / rho
    ensures rho * (h - 1.0) * ((gamma - 1.0) / gamma) == pre
  {
    var g1 := gamma - 1.0;
    MulPositive(rho, g1);
    var e := pre / (rho * g1);
    DivCancel(pre, rho * g1);
    DivCancel(pre, rho);
    assert rho * (h - 1.0) == rho * e + pre;
    assert (rho * e) * g1 == pre;
    assert (rho * e + pre) * g1 == pre * gamma;
    assert g1 / gamma * gamma == g1;
    assert (rho * (h - 1.0)) * (g1 / gamma) == pre;
  }

  lemma ScaleProduct(c: real, x: real, y: real, s: real)
    requires x * y == s
    ensures c * x * y == c * s
  {
  }

  /** The Knowns of a field-free conserved state. */
  lemma FieldFreeKnowns(gamma: real, u: Vec8)
    requires gamma != 0.0 && u[Bx] == 0.0 && u[By] == 0.0 && u[Bz] == 0.0
    ensures FieldFreeKnownsOf(gamma, u, KnownsOf(gamma, u))
  {
  }

  /** The Knowns of a field-free conserved state u. */
  ghost predicate FieldFreeKnownsOf(gamma: real, u: Vec8, k: Knowns)
  {
    && k.b2 == 0.0 && k.bs == 0.0 && k.bs2 == 0.0
    && k.s2 == u[Sx] * u[Sx] + u[Sy] * u[Sy] + u[Sz] * u[Sz]
    && gamma != 0.0 && k.d == u[Dens] && k.tau == u[Tau] && k.gamf == (gamma - 1.0) / gamma
  }

  /** Without the estimate, the start values are those of the guess. */
  lemma WarmStartValues(e: Ext, gamma: real, u: Vec8, p: Vec8)
    requires e.Valid() && gamma > 1.0 && u[Dens] > 0.0 && Physical(p)
    ensures StartZW(e, gamma, false, u, p).1 == LorentzOfVelocity(e, p)
    ensures StartZW(e, gamma, false, u, p).0 == p[Rho] * Enthalpy(gamma, p) * LorentzOfVelocity(e, p) * LorentzOfVelocity(e, p)
  {
  }

  /** The Jacobian cons_to_prim_point inverts at its first step when it is
      warm-started from p on the conserved state of p. */
  function WarmStartJacobian(e: Ext, gamma: real, p: Vec8): Mat2
    requires e.Valid() && gamma > 1.0 && Physical(p)
  {
    var u := PrimToCons(e, gamma, p);
    var zw := StartZW(e, gamma, false, u, p);
    Jacobian(KnownsOf(gamma, u), zw.0, zw.1)
  }

  /** prim_to_cons_point of a field-free p: D = rho W, S = a v and
      tau = a - p - D with a = rho h W^2. */
  lemma FieldFreePrimToCons(e: Ext, gamma: real, p: Vec8, z: real, w: real)
    requires e.Valid() && gamma > 1.0 && Physical(p)
    requires p[Bx] == 0.0 && p[By] == 0.0 && p[Bz] == 0.0
    requires V2(p) >= 0.0 && z == p[Rho] * Enthalpy(gamma, p) * (1.0 / (1.0 - V2(p)))
    requires w == LorentzOfV2(e, V2(p))
    ensures FieldFreeCons(p, PrimToCons(e, gamma, p), z, w)
  {
    assert PrimToCons(e, gamma, p) == ConsOf(gamma, p, w);
    FieldFreeMomentum(gamma, p, z, w);
    FieldFreeEnergy(gamma, p, z, w);
  }

  /** D = rho W, S = Z v and tau = Z - p - D, without a field. */
  ghost predicate FieldFreeCons(p: Vec8, u: Vec8, z: real, w: real)
  {
    && u[Dens] == p[Rho] * w
    && u[Sx] == z * p[Vx] && u[Sy] == z * p[Vy] && u[Sz] == z * p[Vz]
    && u[Tau] == z - p[Pre] - u[Dens]
    && u[Bx] == 0.0 && u[By] == 0.0 && u[Bz] == 0.0
  }

  /** The momentum part of FieldFreePrimToCons: S = Z v. */
  lemma FieldFreeMomentum(gamma: real, p: Vec8, z: real, w: real)
    requires gamma > 1.0 && Physical(p) && w >= 1.0
    requires p[Bx] == 0.0 && p[By] == 0.0 && p[Bz] == 0.0
    requires z == p[Rho] * Enthalpy(gamma, p) * (1.0 / (1.0 - V2(p)))
    ensures var u := ConsOf(gamma, p, w);
            u[Sx] == z * p[Vx] && u[Sy] == z * p[Vy] && u[Sz] == z * p[Vz]
  {
    var u := ConsOf(gamma, p, w);
    var w2 := 1.0 / (1.0 - V2(p));
    var rho := p[Rho];
    var b0 := w * (p[Bx] * p[Vx] + p[By] * p[Vy] + p[Bz] * p[Vz]);
    var b2 := (B2(p) + b0 * b0) / w2;
    FieldFreeTerms(w, w2, p);
    var hh := 1.0 + (EosSie(gamma, p[Rho], p[Pre]) + 0.5 * b2 / rho) + (p[Pre] + 0.5 * b2) / rho;
    assert hh == Enthalpy(gamma, p);
    MomentumSlot(rho * hh * w2, p[Vx], b0, (p[Bx] + b0 * w * p[Vx]) / w, z, u[Sx]);
    MomentumSlot(rho * hh * w2, p[Vy], b0, (p[By] + b0 * w * p[Vy]) / w, z, u[Sy]);
    MomentumSlot(rho * hh * w2, p[Vz], b0, (p[Bz] + b0 * w * p[Vz]) / w, z, u[Sz]);
  }

  /** The density and energy part of FieldFreePrimToCons: D = rho W and
      tau = Z - p - D. */
  lemma FieldFreeEnergy(gamma: real, p: Vec8, z: real, w: real)
    requires gamma > 1.0 && Physical(p) && w >= 1.0
    requires p[Bx] == 0.0 && p[By] == 0.0 && p[Bz] == 0.0
    requires z == p[Rho] * Enthalpy(gamma, p) * (1.0 / (1.0 - V2(p)))
    ensures var u := ConsOf(gamma, p, w);
            u[Dens] == p[Rho] * w && u[Tau] == z - p[Pre] - u[Dens]
  {
    var u := ConsOf(gamma, p, w);
    var w2 := 1.0 / (1.0 - V2(p));
    var rho := p[Rho];
    var b0 := w * (p[Bx] * p[Vx] + p[By] * p[Vy] + p[Bz] * p[Vz]);
    var b2 := (B2(p) + b0 * b0) / w2;
    FieldFreeTerms(w, w2, p);
    var hh := 1.0 + (EosSie(gamma, p[Rho], p[Pre]) + 0.5 * b2 / rho) + (p[Pre] + 0.5 * b2) / rho;
    assert hh == Enthalpy(gamma, p);
    assert u[Tau] == rho * hh * w2 - (p[Pre] + 0.5 * b2) - b0 * b0 - u[Dens];
  }

  /** a v - b0 bX is Z v when b0 = 0 and a = Z. */
  lemma MomentumSlot(a: real, v: real, b0: real, bX: real, z: real, s: real)
    requires b0 == 0.0 && z == a && s == a * v - b0 * bX
    ensures s == z * v
  {
  }

  /** Without a field, b0 and the comoving b2 of prim_to_cons_point vanish. */
  lemma FieldFreeTerms(w: real, w2: real, p: Vec8)
    requires p[Bx] == 0.0 && p[By] == 0.0 && p[Bz] == 0.0 && w2 != 0.0
    ensures w * (p[Bx] * p[Vx] + p[By] * p[Vy] + p[Bz] * p[Vz]) == 0.0
    ensures var b0 := w * (p[Bx] * p[Vx] + p[By] * p[Vy] + p[Bz] * p[Vz]);
            b0 * b0 == 0.0 && (B2(p) + b0 * b0) / w2 == 0.0
  {
  }

  /** The warm-start values of p: Z = rho h W^2 with W^2 = 1/(1 - v2). */
  lemma WarmStartZ(e: Ext, gamma: real, u: Vec8, p: Vec8)
    requires e.Valid() && gamma > 1.0 && u[Dens] > 0.0 && Physical(p)
    ensures V2(p) >= 0.0
    ensures StartZW(e, gamma, false, u, p).1 == LorentzOfVelocity(e, p) == LorentzOfV2(e, V2(p))
    ensures StartZW(e, gamma, false, u, p).0 == p[Rho] * Enthalpy(gamma, p) * (1.0 / (1.0 - V2(p)))
  {
    LorentzFormsAgree(e, p);
    WarmStartValues(e, gamma, u, p);
    var w := LorentzOfVelocity(e, p);
    ScaleProduct(p[Rho] * Enthalpy(gamma, p), w, w, 1.0 / (1.0 - V2(p)));
  }

  /** Both residuals vanish at a field-free (Z, W) with S = Z v and
      tau = Z - p - D, when (W^2 - 1)/W^2 is v2. */
  lemma ResidualsVanish(k: Knowns, u: Vec8, z: real, w: real, ww: real, pre: real, vx: real, vy: real, vz: real)
    requires z > 0.0 && w >= 1.0 && w * w == ww
    requires k.b2 == 0.0 && k.bs2 == 0.0
    requires k.s2 == u[Sx] * u[Sx] + u[Sy] * u[Sy] + u[Sz] * u[Sz]
    requires u[Sx] == z * vx && u[Sy] == z * vy && u[Sz] == z * vz
    requires (ww - 1.0) / ww == vx * vx + vy * vy + vz * vz
    requires k.tau == z - pre - k.d
    ensures F1(k, z, w) == 0.0 && F2(k, pre, z, w) == 0.0
  {
    var v2 := vx * vx + vy * vy + vz * vz;
    PowersAtLeastOne(w);
    ZeroOverProduct(k.bs2, z, z);
    ZeroOverProduct((2.0 * z + k.b2) * k.bs2, z, z);
    assert 0.5 * k.b2 / (w * w) == 0.0;
    MomentumResidual(z, vx, vy, vz, v2, u[Sx], u[Sy], u[Sz]);
    ScaledFraction(z * z, ww - 1.0, ww, v2);
  }

  lemma ZeroOverProduct(x: real, a: real, b: real)
    requires x == 0.0 && a != 0.0 && b != 0.0
    ensures a * b != 0.0 && x / (a * b) == 0.0
  {
    NonZeroProduct(a, b);
  }

  /** A zero Newton correction at a (Z, W) inside the clamps, with the
      pressure at or above the floor, ends the loop on its first pass. */
  lemma ZeroStepConverges(k: Knowns, z: real, w: real)
    requires k.d != 0.0 && 0.0 < z < BigZ && 1.0 <= w < BigW
    requires Pressure(k, Free, z, w) >= PresFloor
    requires F1(k, z, w) == 0.0 && F2(k, Pressure(k, Free, z, w), z, w) == 0.0
    requires Det(Jacobian(k, z, w)) != 0.0
    ensures Run(k, z, w, Iterate(z, w, 0, Free)) == Found(z, w, 1, Free)
  {
    var pre := Pressure(k, Free, z, w);
    assert NewtonStep(k, pre, z, w) == Some(Correction(0.0, 0.0));
    assert ClampZ(z - 0.0, z) == z;
    assert ClampW(w - 0.0) == w;
    assert Converged(Correction(0.0, 0.0), z, w);
  }

  /** Recovering the primitive state from the field-free conserved state of
      p at p's own (Z, W) gives p back. */
  lemma RecoverFieldFree(k: Knowns, u: Vec8, z: real, w: real, p: Vec8)
    requires k.d != 0.0 && z > 0.0 && w >= 1.0 && k.b2 == 0.0 && k.bs == 0.0
    requires p[Bx] == 0.0 && p[By] == 0.0 && p[Bz] == 0.0
    requires u[Bx] == 0.0 && u[By] == 0.0 && u[Bz] == 0.0
    requires k.d == p[Rho] * w && Pressure(k, Free, z, w) == p[Pre]
    requires u[Sx] == z * p[Vx] && u[Sy] == z * p[Vy] && u[Sz] == z * p[Vz]
    ensures Recover(k, u, z, w, Free) == p
  {
    var q := Recover(k, u, z, w, Free);
    DivCancel(k.d, w);
    assert q[Rho] == p[Rho];
    DivCancel(z * p[Vx], z);
    DivCancel(z * p[Vy], z);
    DivCancel(z * p[Vz], z);
    assert q[Vx] == p[Vx] && q[Vy] == p[Vy] && q[Vz] == p[Vz];
    assert q == p;
  }

  /** When the loop ends on its first pass at the start values themselves,
      cons_to_prim_point writes the state recovered there. */
  lemma FirstPassSolution(e: Ext, gamma: real, u: Vec8, p: Vec8)
    requires e.Valid() && gamma > 1.0 && u[Dens] > 0.0 && Physical(p) && B2(u) >= 0.0
    requires var zw := StartZW(e, gamma, false, u, p);
             Run(KnownsOf(gamma, u), zw.0, zw.1, Iterate(zw.0, zw.1, 0, Free)) == Found(zw.0, zw.1, 1, Free)
    ensures var zw := StartZW(e, gamma, false, u, p);
            ConsToPrimSpec(e, gamma, false, u, p) == Solved(Recover(KnownsOf(gamma, u), u, zw.0, zw.1, Free), 1, zw.1)
  {
  }

  /** The scalar facts the warm start of a field-free p rests on, for the
      conserved state u of p, its Knowns k and the start values (z, w). */
  ghost predicate WarmStartState(gamma: real, p: Vec8, u: Vec8, k: Knowns, z: real, w: real)
  {
    StartValues(gamma, p, z, w) && FieldFreeCons(p, u, z, w) && FieldFreeKnownsOf(gamma, u, k)
  }

  /** The warm-start values (Z, W) of a field-free physical p. */
  ghost predicate StartValues(gamma: real, p: Vec8, z: real, w: real)
  {
    && gamma > 1.0 && p[Rho] > 0.0 && p[Bx] == 0.0 && p[By] == 0.0 && p[Bz] == 0.0
    && 0.0 <= V2(p) < 1.0 && z > 0.0 && w >= 1.0 && w * w == 1.0 / (1.0 - V2(p))
    && z == p[Rho] * Enthalpy(gamma, p) * (1.0 / (1.0 - V2(p)))
  }

  lemma WarmStartFacts(e: Ext, gamma: real, p: Vec8, u: Vec8, k: Knowns, z: real, w: real)
    requires e.Valid() && gamma > 1.0 && Physical(p)
    requires p[Bx] == 0.0 && p[By] == 0.0 && p[Bz] == 0.0
    requires u == PrimToCons(e, gamma, p) && k == KnownsOf(gamma, u)
    requires z == StartZW(e, gamma, false, u, p).0 && w == StartZW(e, gamma, false, u, p).1
    ensures WarmStartState(gamma, p, u, k, z, w)
  {
    WarmStartStart(e, gamma, p, u, z, w);
    FieldFreePrimToCons(e, gamma, p, z, w);
    FieldFreeKnowns(gamma, u);
  }

  lemma WarmStartStart(e: Ext, gamma: real, p: Vec8, u: Vec8, z: real, w: real)
    requires e.Valid() && gamma > 1.0 && Physical(p) && u[Dens] > 0.0
    requires p[Bx] == 0.0 && p[By] == 0.0 && p[Bz] == 0.0
    requires z == StartZW(e, gamma, false, u, p).0 && w == StartZW(e, gamma, false, u, p).1
    ensures StartValues(gamma, p, z, w) && w == LorentzOfV2(e, V2(p))
  {
    WarmStartZ(e, gamma, u, p);
  }

  /** Both residuals vanish at the warm start. */
  lemma ResidualsAtWarmStart(gamma: real, p: Vec8, u: Vec8, k: Knowns, z: real, w: real)
    requires WarmStartState(gamma, p, u, k, z, w)
    ensures z > 0.0 && w >= 1.0 && F1(k, z, w) == 0.0 && F2(k, p[Pre], z, w) == 0.0
  {
    var ww := 1.0 / (1.0 - V2(p));
    LorentzFraction(ww, V2(p));
    ResidualsVanish(k, u, z, w, ww, p[Pre], p[Vx], p[Vy], p[Vz]);
  }

  /** The implied pressure at the warm start is p's own. */
  lemma PressureAtWarmStart(gamma: real, p: Vec8, u: Vec8, k: Knowns, z: real, w: real)
    requires WarmStartState(gamma, p, u, k, z, w)
    ensures k.d != 0.0 && w >= 1.0 && Pressure(k, Free, z, w) == p[Pre]
  {
    StatePressure(gamma, p, k, z, w, 1.0 / (1.0 - V2(p)));
  }

  /** The state recovered at the warm start is p. */
  lemma RecoveryAtWarmStart(gamma: real, p: Vec8, u: Vec8, k: Knowns, z: real, w: real)
    requires WarmStartState(gamma, p, u, k, z, w)
    ensures k.d != 0.0 && z > 0.0 && w >= 1.0 && k.b2 >= 0.0 && Recover(k, u, z, w, Free) == p
  {
    PressureAtWarmStart(gamma, p, u, k, z, w);
    RecoverFieldFree(k, u, z, w, p);
  }

  /** At the warm-start values of a field-free p both residuals vanish. */
  lemma WarmStartResiduals(e: Ext, gamma: real, p: Vec8)
    requires e.Valid() && gamma > 1.0 && Physical(p)
    requires p[Bx] == 0.0 && p[By] == 0.0 && p[Bz] == 0.0
    ensures var u := PrimToCons(e, gamma, p);
            var zw := StartZW(e, gamma, false, u, p);
            var k := KnownsOf(gamma, u);
            F1(k, zw.0, zw.1) == 0.0 && F2(k, p[Pre], zw.0, zw.1) == 0.0
  {
    var u := PrimToCons(e, gamma, p);
    var zw := StartZW(e, gamma, false, u, p);
    var k := KnownsOf(gamma, u);
    WarmStartFacts(e, gamma, p, u, k, zw.0, zw.1);
    ResidualsAtWarmStart(gamma, p, u, k, zw.0, zw.1);
  }

  /** At the warm-start values of a field-free p the implied pressure is p's. */
  lemma WarmStartPressure(e: Ext, gamma: real, p: Vec8)
    requires e.Valid() && gamma > 1.0 && Physical(p)
    requires p[Bx] == 0.0 && p[By] == 0.0 && p[Bz] == 0.0
    ensures var u := PrimToCons(e, gamma, p);
            var zw := StartZW(e, gamma, false, u, p);
            Pressure(KnownsOf(gamma, u), Free, zw.0, zw.1) == p[Pre]
  {
    var u := PrimToCons(e, gamma, p);
    var zw := StartZW(e, gamma, false, u, p);
    var k := KnownsOf(gamma, u);
    WarmStartFacts(e, gamma, p, u, k, zw.0, zw.1);
    PressureAtWarmStart(gamma, p, u, k, zw.0, zw.1);
  }

  /** At the warm-start values of a field-free p the recovered state is p. */
  lemma WarmStartRecovery(e: Ext, gamma: real, p: Vec8)
    requires e.Valid() && gamma > 1.0 && Physical(p)
    requires p[Bx] == 0.0 && p[By] == 0.0 && p[Bz] == 0.0
    ensures var u := PrimToCons(e, gamma, p);
            var zw := StartZW(e, gamma, false, u, p);
            B2(u) == 0.0 && Recover(KnownsOf(gamma, u), u, zw.0, zw.1, Free) == p
  {
    var u := PrimToCons(e, gamma, p);
    var zw := StartZW(e, gamma, false, u, p);
    var k := KnownsOf(gamma, u);
    WarmStartFacts(e, gamma, p, u, k, zw.0, zw.1);
    RecoveryAtWarmStart(gamma, p, u, k, zw.0, zw.1);
  }

  /** Round trip through the warm start: a field-free state with pressure at
      or above the floor, whose start values lie inside the clamps and whose
      Jacobian there is non-singular, is recovered exactly after one Newton
      iteration, with W the state's own Lorentz factor. */
  lemma WarmStartRoundTrip(e: Ext, gamma: real, p: Vec8)
    requires e.Valid() && gamma > 1.0 && Physical(p)
    requires p[Bx] == 0.0 && p[By] == 0.0 && p[Bz] == 0.0
    requires p[Pre] >= PresFloor
    requires LorentzOfVelocity(e, p) < BigW
    requires V2(p) >= 0.0 && p[Rho] * Enthalpy(gamma, p) * (1.0 / (1.0 - V2(p))) < BigZ
    requires Det(WarmStartJacobian(e, gamma, p)) != 0.0
    ensures ConsToPrimSpec(e, gamma, false, PrimToCons(e, gamma, p), p) == Solved(p, 1, LorentzOfVelocity(e, p))
  {
    var u := PrimToCons(e, gamma, p);
    var k := KnownsOf(gamma, u);
    WarmStartZ(e, gamma, u, p);
    var zw := StartZW(e, gamma, false, u, p);
    WarmStartResiduals(e, gamma, p);
    WarmStartPressure(e, gamma, p);
    WarmStartRecovery(e, gamma, p);
    ZeroStepConverges(k, zw.0, zw.1);
    FirstPassSolution(e, gamma, u, p);
  }
}
