/** The point conversions between primitive and conserved variables:
    prim_to_cons_point in closed form, and the Newton iteration of
    cons_to_prim_point written as a state machine over (Z, W, n_iter,
    use_pres_floor). The loop itself is Engine.ConsToPrimPoint, proved equal
    to ConsToPrimSpec below. */
module Convert {
  import opened StateVec
  import opened Externals
  import opened Arith
  import opened Eos
  import opened Wrappers

  // The static constants of cons_to_prim_point.
  const PresFloor: real := 0.0000000001   // 1e-10
  const ErrorTolr: real := 0.000001       // 1e-6
  const NewtonMaxIter: int := 25
  const BigZ: real := 100000000000000000000.0   // 1e20
  const BigW: real := 1000000000000.0           // 1e12
  const SmlZ: real := 0.0
  const SmlW: real := 1.0

  // ------------------------------------------------------ prim_to_cons

  /** The Lorentz factor as prim_to_cons_point computes it: sqrt(1/(1-v2)). */
  function LorentzOfV2(e: Ext, v2: real): (w: real)
    requires e.Valid() && 0.0 <= v2 < 1.0
    ensures w >= 1.0 && w * w == 1.0 / (1.0 - v2)
  {
    InverseAtLeastOne(1.0 - v2);
    SqrtAtLeastOne(e, 1.0 / (1.0 - v2));
    e.sqrt(1.0 / (1.0 - v2))
  }

  lemma InverseAtLeastOne(x: real)
    requires 0.0 < x <= 1.0
    ensures 1.0 / x >= 1.0
  {
    DivAtLeast(1.0, x, 1.0);
  }

  /** prim_to_cons_point. The C divides by 1 - v2, by rho and, through
      eos_sie, by gamma - 1. */
  function PrimToCons(e: Ext, gamma: real, p: Vec8): (u: Vec8)
    requires e.Valid() && gamma != 1.0 && p[Rho] != 0.0 && V2(p) < 1.0
    ensures u[Bx] == p[Bx] && u[By] == p[By] && u[Bz] == p[Bz]
    ensures p[Rho] > 0.0 ==> u[Dens] >= p[Rho]
  {
    V2NonNegative(p);
    ConsOf(gamma, p, LorentzOfV2(e, V2(p)))
  }

  /** The rest of prim_to_cons_point once W = 1/sqrt(1 - v2) is known. */
  function ConsOf(gamma: real, p: Vec8, w: real): (u: Vec8)
    requires gamma != 1.0 && p[Rho] != 0.0 && V2(p) < 1.0 && w >= 1.0
    ensures u[Bx] == p[Bx] && u[By] == p[By] && u[Bz] == p[Bz]
    ensures p[Rho] > 0.0 ==> u[Dens] >= p[Rho]
  {
    var v2 := V2(p);
    var bb2 := B2(p);
    var bv := p[Bx] * p[Vx] + p[By] * p[Vy] + p[Bz] * p[Vz];
    var w2 := 1.0 / (1.0 - v2);
    var b0 := w * bv;
    var b2 := (bb2 + b0 * b0) / w2;
    var bX := (p[Bx] + b0 * w * p[Vx]) / w;
    var bY := (p[By] + b0 * w * p[Vy]) / w;
    var bZ := (p[Bz] + b0 * w * p[Vz]) / w;
    var eps := EosSie(gamma, p[Rho], p[Pre]);
    var pp := p[Pre];
    var e_ := eps + 0.5 * b2 / p[Rho];
    var p_ := pp + 0.5 * b2;
    var h_ := 1.0 + e_ + p_ / p[Rho];
    var d := p[Rho] * w;
    DensityAtLeastRho(p[Rho], w);
    [d,
     p[Rho] * h_ * w2 - p_ - b0 * b0 - d,
     p[Rho] * h_ * w2 * p[Vx] - b0 * bX,
     p[Rho] * h_ * w2 * p[Vy] - b0 * bY,
     p[Rho] * h_ * w2 * p[Vz] - b0 * bZ,
     p[Bx], p[By], p[Bz]]
  }

  lemma DensityAtLeastRho(rho: real, w: real)
    requires w >= 1.0
    ensures rho > 0.0 ==> rho * w >= rho
  {
    if rho > 0.0 { MulMonotone(1.0, w, rho); }
  }

  // ----------------------------------------------- cons_to_prim: knowns

  /** The quantities cons_to_prim_point derives from U once, before the loop. */
  datatype Knowns = Knowns(gamf: real, d: real, tau: real, s2: real, b2: real, bs: real, bs2: real)

  function KnownsOf(gamma: real, u: Vec8): (k: Knowns)
    requires gamma != 0.0
    ensures k.d == u[Dens] && k.b2 == B2(u) && k.bs2 == k.bs * k.bs
  {
    var bs := u[Bx] * u[Sx] + u[By] * u[Sy] + u[Bz] * u[Sz];
    Knowns((gamma - 1.0) / gamma, u[Dens], u[Tau],
           u[Sx] * u[Sx] + u[Sy] * u[Sy] + u[Sz] * u[Sz],
           B2(u), bs, bs * bs)
  }

  /** use_pres_floor == 0 and use_pres_floor == 1. */
  datatype Phase = Free | Floor

  /** The pressure implied by (Z, W): the floor value in the floor phase. */
  function Pressure(k: Knowns, phase: Phase, z: real, w: real): real
    requires k.d != 0.0 && w != 0.0
  {
    if phase == Floor then PresFloor else (k.d / w) * (z / (k.d * w) - 1.0) * k.gamf
  }

  // ------------------------------------------------ one Newton step

  /** The residuals f1 (the momentum closure) and f2 (the energy balance). */
  function F1(k: Knowns, z: real, w: real): real
    requires z != 0.0 && w >= 1.0
  {
    var w2 := w * w;
    PowersAtLeastOne(w);
    CubeNonZero(z);
    -k.s2 + (z + k.b2) * (z + k.b2) * (w2 - 1.0) / w2 - (2.0 * z + k.b2) * k.bs2 / (z * z)
  }

  function F2(k: Knowns, pre: real, z: real, w: real): real
    requires z != 0.0 && w >= 1.0
  {
    var w2 := w * w;
    PowersAtLeastOne(w);
    CubeNonZero(z);
    -k.tau + z + k.b2 - pre - 0.5 * k.b2 / w2 - 0.5 * k.bs2 / (z * z) - k.d
  }

  /** The analytic Jacobian of (f1, f2) with respect to (Z, W). */
  function Jacobian(k: Knowns, z: real, w: real): Mat2
    requires z != 0.0 && w >= 1.0
  {
    var z3 := z * (z * z);
    var w2 := w * w;
    var w3 := w * w2;
    PowersAtLeastOne(w);
    CubeNonZero(z);
    NonZeroProduct(w2, z3);
    Mat2(2.0 * (k.b2 + z) * (k.bs2 * w2 + (w2 - 1.0) * z3) / (w2 * z3),
         2.0 * (k.b2 + z) * (k.b2 + z) / w3,
         1.0 + k.bs2 / z3 - k.gamf / w2,
         k.b2 / w3 + (2.0 * z - k.d * w) / w3 * k.gamf)
  }

  lemma PowersAtLeastOne(w: real)
    requires w >= 1.0
    ensures w * w >= 1.0 && w * (w * w) >= 1.0
  {
    MulMonotone(1.0, w, w);
    MulMonotone(1.0, w * w, w);
  }

  lemma NonZeroProduct(a: real, b: real)
    requires a != 0.0 && b != 0.0
    ensures a * b != 0.0
  {
  }

  lemma NonZeroProduct3(a: real, b: real, c: real)
    requires a != 0.0 && b != 0.0 && c != 0.0
    ensures a * (b * c) != 0.0
  {
    NonZeroProduct(b, c);
    NonZeroProduct(a, b * c);
  }

  lemma CubeNonZero(z: real)
    requires z != 0.0
    ensures z * (z * z) != 0.0
  {
    NonZeroProduct(z, z);
    NonZeroProduct3(z, z, z);
  }

  /** The Newton correction (dZ, dW) = G (f1, f2) with G the inverse Jacobian. */
  datatype Correction = Correction(dz: real, dw: real)

  /** A Newton step. The C divides by Z and by det J without checking; the
      model returns None in exactly those cases, and the caller treats that
      as a failed solve. */
  function NewtonStep(k: Knowns, pre: real, z: real, w: real): (c: Option<Correction>)
    requires w >= 1.0
    ensures c.None? <==> z == 0.0 || Det(Jacobian(k, z, w)) == 0.0
  {
    if z == 0.0 then None
    else
      CubeNonZero(z);
      var j := Jacobian(k, z, w);
      if Det(j) == 0.0 then None
      else
        var g := Invert2By2(j);
        var f1 := F1(k, z, w);
        var f2 := F2(k, pre, z, w);
        Some(Correction(g.a00 * f1 + g.a01 * f2, g.a10 * f1 + g.a11 * f2))
  }

  /** The clamps applied to the Newton update. */
  function ClampZ(zNew: real, z: real): (r: real)
    ensures z >= 0.0 ==> r >= 0.0
    ensures r < BigZ || r == z
  {
    var a := if zNew > SmlZ then zNew else -zNew;
    if a < BigZ then a else z
  }

  function ClampW(wNew: real): (r: real)
    ensures SmlW <= r <= BigW
    ensures SmlW < wNew < BigW ==> r == wNew
  {
    var a := if wNew > SmlW then wNew else SmlW;
    if a < BigW then a else BigW
  }

  /** fabs(dZ/Z) + fabs(dW/W) < ERROR_TOLR on the updated (Z, W). With
      Z == 0 the C quotient is infinite or NaN and the test fails. */
  predicate Converged(c: Correction, z: real, w: real)
    requires w != 0.0
  {
    z != 0.0 && Abs(c.dz / z) + Abs(c.dw / w) < ErrorTolr
  }

  // ------------------------------------------------- the state machine

  /** (Z, W, n_iter, use_pres_floor) at the head of the while loop. */
  datatype Iterate = Iterate(z: real, w: real, n: int, phase: Phase)

  /** How the loop ends: with soln_found (the state after the final update),
      or by `return 1` (a cap hit in the floor phase or with a pressure
      above the floor, or a division by zero). */
  datatype Outcome = Found(z: real, w: real, n: int, phase: Phase) | Failed

  /** The invariant of the loop head: W >= 1, Z >= 0, n_iter in [0, 25]. */
  predicate GoodIterate(it: Iterate)
  {
    it.w >= 1.0 && it.z >= 0.0 && 0 <= it.n <= NewtonMaxIter
  }

  /** The loop from a given head state; (z0, w0) is the fresh guess the
      floor phase restarts from. */
  function Run(k: Knowns, z0: real, w0: real, it: Iterate): (o: Outcome)
    requires k.d != 0.0 && w0 >= 1.0 && z0 >= 0.0 && GoodIterate(it)
    ensures o.Found? ==> 1 <= o.n <= NewtonMaxIter && o.z > 0.0 && SmlW <= o.w <= BigW
    ensures o.Found? && o.phase == Free ==> it.phase == Free
    decreases if it.phase == Free then 1 else 0, NewtonMaxIter - it.n
  {
    var pre := Pressure(k, it.phase, it.z, it.w);
    match NewtonStep(k, pre, it.z, it.w)
    case None => Failed
    case Some(c) =>
      var z' := ClampZ(it.z - c.dz, it.z);
      var w' := ClampW(it.w - c.dw);
      var conv := Converged(c, z', w');
      if conv && pre < PresFloor then
        Run(k, z0, w0, Iterate(z0, w0, 1, Floor))
      else if it.n == NewtonMaxIter then
        if pre < PresFloor then Run(k, z0, w0, Iterate(z0, w0, 0, Floor)) else Failed
      else if conv then Found(z', w', it.n + 1, it.phase)
      else Run(k, z0, w0, Iterate(z', w', it.n + 1, it.phase))
  }

  /** The number of passes through the loop body before it ends. */
  function Passes(k: Knowns, z0: real, w0: real, it: Iterate): (r: nat)
    requires k.d != 0.0 && w0 >= 1.0 && z0 >= 0.0 && GoodIterate(it)
    decreases if it.phase == Free then 1 else 0, NewtonMaxIter - it.n
  {
    var pre := Pressure(k, it.phase, it.z, it.w);
    match NewtonStep(k, pre, it.z, it.w)
    case None => 1
    case Some(c) =>
      var z' := ClampZ(it.z - c.dz, it.z);
      var w' := ClampW(it.w - c.dw);
      var conv := Converged(c, z', w');
      if conv && pre < PresFloor then
        1 + Passes(k, z0, w0, Iterate(z0, w0, 1, Floor))
      else if it.n == NewtonMaxIter then
        if pre < PresFloor then 1 + Passes(k, z0, w0, Iterate(z0, w0, 0, Floor)) else 1
      else if conv then 1
      else 1 + Passes(k, z0, w0, Iterate(z', w', it.n + 1, it.phase))
  }

  /** The loop runs at most 26 passes in each phase, and the floor phase is
      never left once entered. */
  lemma {:induction false} PassesBound(k: Knowns, z0: real, w0: real, it: Iterate)
    requires k.d != 0.0 && w0 >= 1.0 && z0 >= 0.0 && GoodIterate(it)
    ensures it.phase == Floor ==> Passes(k, z0, w0, it) <= NewtonMaxIter + 1 - it.n
    ensures it.phase == Free ==> Passes(k, z0, w0, it) <= 2 * (NewtonMaxIter + 1) - it.n
    decreases if it.phase == Free then 1 else 0, NewtonMaxIter - it.n
  {
    var pre := Pressure(k, it.phase, it.z, it.w);
    match NewtonStep(k, pre, it.z, it.w)
    case None =>
    case Some(c) =>
      var z' := ClampZ(it.z - c.dz, it.z);
      var w' := ClampW(it.w - c.dw);
      var conv := Converged(c, z', w');
      if conv && pre < PresFloor {
        PassesBound(k, z0, w0, Iterate(z0, w0, 1, Floor));
      } else if it.n == NewtonMaxIter {
        if pre < PresFloor {
          PassesBound(k, z0, w0, Iterate(z0, w0, 0, Floor));
        }
      } else if !conv {
        PassesBound(k, z0, w0, Iterate(z', w', it.n + 1, it.phase));
      }
  }

  /** In the floor phase the implied pressure is the floor itself. */
  lemma FloorPressure(k: Knowns, z: real, w: real)
    requires k.d != 0.0 && w != 0.0
    ensures Pressure(k, Floor, z, w) == PresFloor
  {
  }

  // -------------------------------------------------- start and finish

  /** h = 1 + e + p/rho of a primitive state: above 1 for a positive
      pressure and density when gamma > 1. */
  function Enthalpy(gamma: real, p: Vec8): (h: real)
    requires gamma != 1.0 && p[Rho] != 0.0
    ensures gamma > 1.0 && p[Rho] > 0.0 && p[Pre] > 0.0 ==> h > 1.0 && p[Rho] * h > 0.0
  {
    EnthalpyTerms(gamma, p[Rho], p[Pre]);
    1.0 + EosSie(gamma, p[Rho], p[Pre]) + p[Pre] / p[Rho]
  }

  lemma EnthalpyTerms(gamma: real, rho: real, pre: real)
    requires rho != 0.0 && gamma != 1.0
    ensures var h := 1.0 + EosSie(gamma, rho, pre) + pre / rho;
            gamma > 1.0 && rho > 0.0 && pre > 0.0 ==> h > 1.0 && rho * h > 0.0
  {
    if gamma > 1.0 && rho > 0.0 && pre > 0.0 {
      DivSign(pre, rho);
      MulPositive(rho, 1.0 + EosSie(gamma, rho, pre) + pre / rho);
    }
  }

  /** W = 1/sqrt(1 - v2): W_guess of cons_to_prim_point and W of
      rmhd_flux_and_eval. */
  function LorentzOfVelocity(e: Ext, p: Vec8): (w: real)
    requires e.Valid() && V2(p) < 1.0
    ensures w >= 1.0
  {
    V2NonNegative(p);
    SqrtAtMostOne(e, 1.0 - V2(p));
    SqrtPositive(e, 1.0 - V2(p));
    InverseAtLeastOne(e.sqrt(1.0 - V2(p)));
    1.0 / e.sqrt(1.0 - V2(p))
  }

  /** What cons_to_prim_point needs of gamma and of the guess: gamf divides
      by gamma; only the warm start reads the guess, and there h_guess
      divides by rho (gamma - 1), W_guess by sqrt(1 - v2), and the first Z =
      rho h W^2 must be positive (it is for every physical guess when
      gamma > 1, see Enthalpy). */
  ghost predicate GuessUsable(gamma: real, est: bool, guess: Vec8)
  {
    gamma != 0.0
    && (est || (gamma != 1.0 && guess[Rho] != 0.0 && V2(guess) < 1.0 && guess[Rho] * Enthalpy(gamma, guess) > 0.0))
  }

  /** The initial (Z, W), also the restart point of the floor phase: from the
      conserved state alone when cons_to_prim_use_estimate is set, otherwise
      from the guess primitive state. */
  function StartZW(e: Ext, gamma: real, est: bool, u: Vec8, guess: Vec8): (zw: (real, real))
    requires e.Valid() && u[Dens] > 0.0 && GuessUsable(gamma, est, guess)
    ensures zw.1 >= 1.0 && zw.0 > 0.0
  {
    var k := KnownsOf(gamma, u);
    if est then
      StartFromEstimate(e, k)
    else
      var wg := LorentzOfVelocity(e, guess);
      var h := Enthalpy(gamma, guess);
      GuessEnergyPositive(guess[Rho], h, wg);
      (guess[Rho] * h * wg * wg, wg)
  }

  function StartFromEstimate(e: Ext, k: Knowns): (zw: (real, real))
    requires e.Valid() && k.d > 0.0 && k.s2 >= 0.0
    ensures zw.1 >= 1.0 && zw.0 > 0.0
  {
    EstimateBounds(e, k.d, k.s2);
    var w := e.sqrt(k.s2 / (k.d * k.d) + 1.0);
    (k.d * w, w)
  }

  lemma EstimateBounds(e: Ext, d: real, s2: real)
    requires e.Valid() && d > 0.0 && s2 >= 0.0
    ensures d * d > 0.0
    ensures e.sqrt(s2 / (d * d) + 1.0) >= 1.0
    ensures d * e.sqrt(s2 / (d * d) + 1.0) > 0.0
  {
    DivByProductNonNeg(s2, d, d);
    SqrtAtLeastOne(e, s2 / (d * d) + 1.0);
    MulPositive(d, e.sqrt(s2 / (d * d) + 1.0));
  }

  lemma GuessEnergyPositive(rho: real, h: real, w: real)
    requires rho * h > 0.0 && w >= 1.0
    ensures rho * h * w * w > 0.0
  {
    MulPositive(rho * h, w);
    MulPositive(rho * h * w, w);
  }

  /** The primitive state written on success. */
  function Recover(k: Knowns, u: Vec8, z: real, w: real, phase: Phase): (p: Vec8)
    requires k.d != 0.0 && z > 0.0 && w >= 1.0 && k.b2 >= 0.0
    ensures p[Bx] == u[Bx] && p[By] == u[By] && p[Bz] == u[Bz]
    ensures p[Rho] * w == k.d && (k.d > 0.0 ==> p[Rho] > 0.0)
    ensures phase == Floor ==> p[Pre] == PresFloor
  {
    var b0 := k.bs * w / z;
    DivCancel(k.d, w);
    DivSign(k.d, w);
    [k.d / w,
     Pressure(k, phase, z, w),
     (u[Sx] + b0 * u[Bx] / w) / (z + k.b2),
     (u[Sy] + b0 * u[By] / w) / (z + k.b2),
     (u[Sz] + b0 * u[Bz] / w) / (z + k.b2),
     u[Bx], u[By], u[Bz]]
  }

  /** What one call of cons_to_prim_point amounts to: the new primitive
      state, the final n_iter (added to cons_to_prim_iter) and the final W
      (stored in cons_to_prim_last_W); or failure, return value 1. */
  datatype PointResult = Solved(p: Vec8, nIter: int, w: real) | Unsolved

  function ConsToPrimSpec(e: Ext, gamma: real, est: bool, u: Vec8, guess: Vec8): (r: PointResult)
    requires e.Valid() && u[Dens] > 0.0 && GuessUsable(gamma, est, guess)
    ensures r.Solved? ==> 1 <= r.nIter <= NewtonMaxIter && SmlW <= r.w <= BigW
    ensures r.Solved? ==> r.p[Bx] == u[Bx] && r.p[By] == u[By] && r.p[Bz] == u[Bz]
    ensures r.Solved? ==> DensityRecovered(r.p, r.w, u[Dens])
  {
    var k := KnownsOf(gamma, u);
    var zw := StartZW(e, gamma, est, u, guess);
    Finish(k, u, Run(k, zw.0, zw.1, Iterate(zw.0, zw.1, 0, Free)))
  }

  /** rho = D / W, positive: the recovered density matches the conserved
      one. */
  predicate DensityRecovered(p: Vec8, w: real, d: real)
  {
    p[Rho] * w == d && p[Rho] > 0.0
  }

  /** The end of cons_to_prim_point: the primitives recovered from the
      solution the iteration found (the return value 0), or failure. */
  function Finish(k: Knowns, u: Vec8, o: Outcome): (r: PointResult)
    requires k.d == u[Dens] && k.d > 0.0 && k.b2 == B2(u)
    requires o.Found? ==> 1 <= o.n <= NewtonMaxIter && o.z > 0.0 && SmlW <= o.w <= BigW
    ensures r.Solved? <==> o.Found?
    ensures r.Solved? ==> r.nIter == o.n && r.w == o.w
    ensures r.Solved? ==> r.p[Bx] == u[Bx] && r.p[By] == u[By] && r.p[Bz] == u[Bz]
    ensures r.Solved? ==> DensityRecovered(r.p, r.w, u[Dens])
  {
    match o
    case Failed => Unsolved
    case Found(z, w, n, phase) => Solved(Recover(k, u, z, w, phase), n, w)
  }
}
