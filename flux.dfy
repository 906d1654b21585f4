/** rmhd_flux_and_eval: the physical flux of one primitive state along the
    sweep axis, and the bounds (ap, am) of its characteristic speeds taken
    from the roots of the magnetosonic quartic. */
module Flux {
  import opened StateVec
  import opened Externals
  import opened Arith
  import opened Eos
  import opened Config
  import opened Convert

  /** The global `dimension` during a sweep: 1 = x, 2 = y, 3 = z. */
  predicate IsAxis(dim: int)
  {
    1 <= dim <= 3
  }

  /** The velocity slot of the sweep axis (vi of rmhd_flux_and_eval). */
  function VelSlot(dim: int): (k: int)
    requires IsAxis(dim)
    ensures Vx <= k <= Vz
  {
    Vx + dim - 1
  }

  /** The momentum slot of the sweep axis, the one that carries p_. */
  function MomSlot(dim: int): (k: int)
    requires IsAxis(dim)
    ensures Sx <= k <= Sz
  {
    Sx + dim - 1
  }

  /** The field slot of the sweep axis, whose flux is identically zero. */
  function FieldSlot(dim: int): (k: int)
    requires IsAxis(dim)
    ensures Bx <= k <= Bz
  {
    Bx + dim - 1
  }

  // ----------------------------------------------------- the flux vector

  /** The flux vector F of the switch on `dimension`. */
  function PhysicalFlux(e: Ext, gamma: real, dim: int, u: Vec8, p: Vec8): (f: Vec8)
    requires e.Valid() && gamma != 1.0 && p[Rho] != 0.0 && V2(p) < 1.0 && IsAxis(dim)
    ensures f[FieldSlot(dim)] == 0.0
    ensures f[Dens] == u[Dens] * p[VelSlot(dim)]
  {
    FluxOf(dim, u, p, LorentzOfVelocity(e, p))
  }

  /** The flux vector for the Lorentz factor w of the primitive state. */
  function FluxOf(dim: int, u: Vec8, p: Vec8, w: real): (f: Vec8)
    requires IsAxis(dim) && w >= 1.0
    ensures f[FieldSlot(dim)] == 0.0
    ensures f[Dens] == u[Dens] * p[VelSlot(dim)]
  {
    PowersAtLeastOne(w);
    var w2 := w * w;
    var bv := p[Bx] * p[Vx] + p[By] * p[Vy] + p[Bz] * p[Vz];
    var b0 := w * bv;
    var b2 := (B2(p) + b0 * b0) / w2;
    var bX := (p[Bx] + b0 * w * p[Vx]) / w;
    var bY := (p[By] + b0 * w * p[Vy]) / w;
    var bZ := (p[Bz] + b0 * w * p[Vz]) / w;
    var ptot := p[Pre] + 0.5 * b2;
    if dim == 1 then
      [u[Dens] * p[Vx],
       u[Tau] * p[Vx] - b0 * p[Bx] / w + ptot * p[Vx],
       u[Sx] * p[Vx] - bX * p[Bx] / w + ptot,
       u[Sy] * p[Vx] - bY * p[Bx] / w,
       u[Sz] * p[Vx] - bZ * p[Bx] / w,
       0.0,
       p[Vx] * p[By] - p[Vy] * p[Bx],
       p[Vx] * p[Bz] - p[Vz] * p[Bx]]
    else if dim == 2 then
      [u[Dens] * p[Vy],
       u[Tau] * p[Vy] - b0 * p[By] / w + ptot * p[Vy],
       u[Sx] * p[Vy] - bX * p[By] / w,
       u[Sy] * p[Vy] - bY * p[By] / w + ptot,
       u[Sz] * p[Vy] - bZ * p[By] / w,
       p[Vy] * p[Bx] - p[Vx] * p[By],
       0.0,
       p[Vy] * p[Bz] - p[Vz] * p[By]]
    else
      [u[Dens] * p[Vz],
       u[Tau] * p[Vz] - b0 * p[Bz] / w + ptot * p[Vz],
       u[Sx] * p[Vz] - bX * p[Bz] / w,
       u[Sy] * p[Vz] - bY * p[Bz] / w,
       u[Sz] * p[Vz] - bZ * p[Bz] / w + ptot,
       p[Vz] * p[Bx] - p[Vx] * p[Bz],
       p[Vz] * p[By] - p[Vy] * p[Bz],
       0.0]
  }

  /** The induction part of the flux is the electric field: the flux of the
      field component along axis b in the sweep along axis a is minus the
      flux of the component along a in the sweep along b. Constraint
      transport relies on this. */
  lemma InductionAntisymmetry(e: Ext, gamma: real, u: Vec8, p: Vec8, a: int, b: int)
    requires e.Valid() && gamma != 1.0 && p[Rho] != 0.0 && V2(p) < 1.0
    requires IsAxis(a) && IsAxis(b)
    ensures PhysicalFlux(e, gamma, a, u, p)[FieldSlot(b)] == -PhysicalFlux(e, gamma, b, u, p)[FieldSlot(a)]
  {
  }

  /** A state at rest and without field carries only its pressure, in the
      momentum slot of the sweep axis. */
  lemma StaticFlux(e: Ext, gamma: real, u: Vec8, p: Vec8, dim: int)
    requires e.Valid() && gamma != 1.0 && p[Rho] != 0.0 && IsAxis(dim)
    requires p[Vx] == 0.0 && p[Vy] == 0.0 && p[Vz] == 0.0
    requires p[Bx] == 0.0 && p[By] == 0.0 && p[Bz] == 0.0
    ensures V2(p) == 0.0
    ensures PhysicalFlux(e, gamma, dim, u, p) == Zero8()[MomSlot(dim) := p[Pre]]
  {
    var f := PhysicalFlux(e, gamma, dim, u, p);
    var w := LorentzOfVelocity(e, p);
    PowersAtLeastOne(w);
    assert B2(p) == 0.0;
    ZeroOverProduct(0.0, w, w);
    assert f[Dens] == 0.0;
    assert forall k :: 0 <= k < 8 ==> f[k] == Zero8()[MomSlot(dim) := p[Pre]][k];
  }

  lemma ZeroOverProduct(x: real, a: real, b: real)
    requires x == 0.0 && a != 0.0 && b != 0.0
    ensures x / (a * b) == 0.0
  {
    NonZeroProduct(a, b);
  }

  // ---------------------------------------------- the characteristic quartic

  /** d4 x^4 + d3 x^3 + d2 x^2 + d1 x + d0. */
  function EvalQuartic(q: Quartic, x: real): real
  {
    q.d4 * (x * x * x * x) + q.d3 * (x * x * x) + q.d2 * (x * x) + q.d1 * x + q.d0
  }

  /** The coefficients A4 .. A0 handed to new_QuarticEquation. The C divides
      by cs2, so the pressure must be positive. */
  function SpeedQuartic(e: Ext, gamma: real, dim: int, p: Vec8): (q: Quartic)
    requires e.Valid() && gamma > 1.0 && Physical(p) && IsAxis(dim)
  {
    QuarticOf(gamma, dim, p, LorentzOfVelocity(e, p))
  }

  /** The coefficients for the Lorentz factor w of the state. */
  function QuarticOf(gamma: real, dim: int, p: Vec8, w: real): (q: Quartic)
    requires gamma > 1.0 && Physical(p) && IsAxis(dim) && w >= 1.0
  {
    PowersAtLeastOne(w);
    var w2 := w * w;
    var bv := p[Bx] * p[Vx] + p[By] * p[Vy] + p[Bz] * p[Vz];
    var b0 := w * bv;
    var b2 := (B2(p) + b0 * b0) / w2;
    var bi := (p[FieldSlot(dim)] + b0 * w * p[VelSlot(dim)]) / w;
    var h := 1.0 + EosSie(gamma, p[Rho], p[Pre]) + p[Pre] / p[Rho];
    var vi := p[VelSlot(dim)];
    var w4 := w2 * w2;
    var cs2 := EosCs2(gamma, p[Rho], p[Pre]);
    var vv2 := vi * vi;
    var vv3 := vi * vv2;
    var vv4 := vi * vv3;
    var k := p[Rho] * h * (1.0 / cs2 - 1.0) * w4;
    var l := -(p[Rho] * h + b2 / cs2) * w2;
    Quartic(k - l - b0 * b0,
            -4.0 * k * vi + l * vi * 2.0 + 2.0 * b0 * bi,
            6.0 * k * vv2 + l * (1.0 - vv2) + b0 * b0 - bi * bi,
            -4.0 * k * vv3 - l * vi * 2.0 - 2.0 * b0 * bi,
            k * vv4 + l * vv2 + bi * bi)
  }

  /** For a field-free state at rest the quartic is x^2 (x^2 - cs2) times
      rho h / cs2: its roots are 0 and the sound speeds +-cs. */
  lemma StaticSoundSpeeds(e: Ext, gamma: real, dim: int, p: Vec8, c: real)
    requires e.Valid() && gamma > 1.0 && Physical(p) && IsAxis(dim)
    requires p[Vx] == 0.0 && p[Vy] == 0.0 && p[Vz] == 0.0
    requires p[Bx] == 0.0 && p[By] == 0.0 && p[Bz] == 0.0
    requires c * c == EosCs2(gamma, p[Rho], p[Pre])
    ensures EvalQuartic(SpeedQuartic(e, gamma, dim, p), 0.0) == 0.0
    ensures EvalQuartic(SpeedQuartic(e, gamma, dim, p), c) == 0.0
    ensures EvalQuartic(SpeedQuartic(e, gamma, dim, p), -c) == 0.0
  {
    SpeedQuarticAtRest(e, gamma, dim, p);
    StaticQuartic(gamma, dim, p);
    QuarticAtRest(QuarticOf(gamma, dim, p, 1.0), EosCs2(gamma, p[Rho], p[Pre]), c);
    QuarticAtRest(QuarticOf(gamma, dim, p, 1.0), EosCs2(gamma, p[Rho], p[Pre]), -c);
  }

  /** At rest the Lorentz factor is 1. */
  lemma SpeedQuarticAtRest(e: Ext, gamma: real, dim: int, p: Vec8)
    requires e.Valid() && gamma > 1.0 && Physical(p) && IsAxis(dim)
    requires p[Vx] == 0.0 && p[Vy] == 0.0 && p[Vz] == 0.0
    ensures SpeedQuartic(e, gamma, dim, p) == QuarticOf(gamma, dim, p, 1.0)
  {
    SqrtOfOne(e);
    assert V2(p) == 0.0;
    assert LorentzOfVelocity(e, p) == 1.0;
  }

  /** Coefficients (rh/cs2, 0, -rh, 0, 0) for some rh, with cs2 > 0. */
  predicate RestCoefficients(q: Quartic, cs2: real)
  {
    cs2 > 0.0 && q.d4 * cs2 == -q.d2 && q.d3 == 0.0 && q.d1 == 0.0 && q.d0 == 0.0
  }

  /** At rest and without field the coefficients are (rh/cs2, 0, -rh, 0, 0)
      with rh = rho h. */
  lemma StaticQuartic(gamma: real, dim: int, p: Vec8)
    requires gamma > 1.0 && Physical(p) && IsAxis(dim)
    requires p[Vx] == 0.0 && p[Vy] == 0.0 && p[Vz] == 0.0
    requires p[Bx] == 0.0 && p[By] == 0.0 && p[Bz] == 0.0
    ensures RestCoefficients(QuarticOf(gamma, dim, p, 1.0), EosCs2(gamma, p[Rho], p[Pre]))
  {
    var q := QuarticOf(gamma, dim, p, 1.0);
    var cs2 := EosCs2(gamma, p[Rho], p[Pre]);
    var rh := p[Rho] * (1.0 + EosSie(gamma, p[Rho], p[Pre]) + p[Pre] / p[Rho]);
    assert B2(p) == 0.0;
    var k := rh * (1.0 / cs2 - 1.0);
    var l := -rh;
    StaticCoefficients(q, k, l, rh, cs2);
  }

  lemma StaticCoefficients(q: Quartic, k: real, l: real, rh: real, cs2: real)
    requires cs2 > 0.0 && k == rh * (1.0 / cs2 - 1.0) && l == -rh
    requires q == Quartic(k - l - 0.0, 0.0, l, 0.0, 0.0)
    ensures RestCoefficients(q, cs2)
  {
    DivCancel(1.0, cs2);
    assert q.d4 == rh * (1.0 / cs2);
    assert q.d4 * cs2 == rh * ((1.0 / cs2) * cs2);
  }

  lemma QuarticAtRest(q: Quartic, cs2: real, c: real)
    requires RestCoefficients(q, cs2) && c * c == cs2
    ensures EvalQuartic(q, c) == 0.0 && EvalQuartic(q, 0.0) == 0.0
  {
    var c2 := c * c;
    assert c * c * c * c == c2 * c2;
    assert q.d4 * (c2 * c2) == (q.d4 * cs2) * c2;
    assert EvalQuartic(q, c) == q.d4 * (c2 * c2) + q.d2 * c2;
  }

  // ------------------------------------------------------ speed bounds

  /** *ap and *am after the switch on mode_quartic_solver, before the clamp.
      An unknown mode writes neither; the caller's locals keep whatever they
      held. */
  function RawSpeeds(e: Ext, mode: int, q: Quartic): (s: (real, real))
  {
    if mode == QuarticSolverExact then
      var r := e.solveQuartic(q);
      var ap12 := if r.r1 > r.r2 then r.r1 else r.r2;
      var ap34 := if r.r3 > r.r4 then r.r3 else r.r4;
      var am12 := if r.r1 < r.r2 then r.r1 else r.r2;
      var am34 := if r.r3 < r.r4 then r.r3 else r.r4;
      (if r.nr == 2 then (if r.nr12 == 2 then ap12 else ap34) else (if ap12 > ap34 then ap12 else ap34),
       if r.nr == 2 then (if r.nr12 == 2 then am12 else am34) else (if am12 < am34 then am12 else am34))
    else if mode == QuarticSolverApprox1 then
      (e.approx1(q, 1.0), e.approx1(q, -1.0))
    else if mode == QuarticSolverApprox2 then
      (e.approx2(q, 1.0), e.approx2(q, -1.0))
    else if mode == QuarticSolverNone then
      (1.0, -1.0)
    else
      (e.indeterminate, e.indeterminate)
  }

  /** With all four roots real the exact solver brackets them all, and with
      one real pair it brackets that pair. */
  lemma ExactSpeedsBracket(e: Ext, q: Quartic)
    ensures var r := e.solveQuartic(q);
            var s := RawSpeeds(e, QuarticSolverExact, q);
            && (r.nr != 2 ==>
                  s.0 >= Max3(r.r1, r.r2, r.r3) && s.0 >= r.r4 && s.1 <= Min3(r.r1, r.r2, r.r3) && s.1 <= r.r4)
            && (r.nr == 2 && r.nr12 == 2 ==> s.0 == Max2(r.r1, r.r2) && s.1 == Min2(r.r1, r.r2))
            && (r.nr == 2 && r.nr12 != 2 ==> s.0 == Max2(r.r3, r.r4) && s.1 == Min2(r.r3, r.r4))
  {
  }

  /** The final clamp: a bound outside the light cone replaces both by the
      light cone [-1, 1]. */
  function ClampSpeeds(ap: real, am: real): (r: (real, real))
    ensures Abs(r.0) <= 1.0 && Abs(r.1) <= 1.0
    ensures Abs(ap) <= 1.0 && Abs(am) <= 1.0 ==> r == (ap, am)
    ensures Abs(ap) > 1.0 || Abs(am) > 1.0 ==> r == (1.0, -1.0)
  {
    if Abs(ap) > 1.0 || Abs(am) > 1.0 then (1.0, -1.0) else (ap, am)
  }

  /** The three outputs of rmhd_flux_and_eval. */
  datatype FluxEval = FluxEval(f: Vec8, ap: real, am: real)

  function FluxAndEval(e: Ext, gamma: real, dim: int, mode: int, u: Vec8, p: Vec8): (r: FluxEval)
    requires e.Valid() && gamma > 1.0 && Physical(p) && IsAxis(dim)
    ensures Abs(r.ap) <= 1.0 && Abs(r.am) <= 1.0
    ensures r.f[FieldSlot(dim)] == 0.0
  {
    var f := PhysicalFlux(e, gamma, dim, u, p);
    var s := RawSpeeds(e, mode, SpeedQuartic(e, gamma, dim, p));
    var c := ClampSpeeds(s.0, s.1);
    FluxEval(f, c.0, c.1)
  }

  /** With QuarticSolver_None the bounds are the light cone. */
  lemma NoSolverSpeeds(e: Ext, gamma: real, dim: int, u: Vec8, p: Vec8)
    requires e.Valid() && gamma > 1.0 && Physical(p) && IsAxis(dim)
    ensures FluxAndEval(e, gamma, dim, QuarticSolverNone, u, p).ap == 1.0
    ensures FluxAndEval(e, gamma, dim, QuarticSolverNone, u, p).am == -1.0
  {
  }

  /** Bounds the solver reports inside the light cone are kept as they are. */
  lemma SpeedsInsideLightCone(e: Ext, gamma: real, dim: int, mode: int, u: Vec8, p: Vec8)
    requires e.Valid() && gamma > 1.0 && Physical(p) && IsAxis(dim)
    requires var s := RawSpeeds(e, mode, SpeedQuartic(e, gamma, dim, p));
             Abs(s.0) <= 1.0 && Abs(s.1) <= 1.0
    ensures var s := RawSpeeds(e, mode, SpeedQuartic(e, gamma, dim, p));
            FluxAndEval(e, gamma, dim, mode, u, p).ap == s.0
            && FluxAndEval(e, gamma, dim, mode, u, p).am == s.1
  {
  }
}
