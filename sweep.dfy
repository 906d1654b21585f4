/** What one Fiph sweep computes at each interface of the flat strided
    array: the reconstruction selected by mode_reconstruct, the Riemann
    solver selected by mode_riemann_solver, and the running max_lambda.
    Engine.Fiph is the loop, proved equal to these functions. */
module Sweep {
  import opened StateVec
  import opened Externals
  import opened Arith
  import opened Config
  import opened Limiters
  import opened Convert
  import opened Flux
  import opened Riemann
  import opened Reconstruct
  import opened Wrappers

  /** The arrays a sweep reads: the primitive array and the 4-velocity cache
      lib_ux, lib_uy, lib_uz. */
  datatype Grid = Grid(p: seq<real>, ux: seq<real>, uy: seq<real>, uz: seq<real>)

  /** What a sweep reads besides the arrays: the collaborators, the scheme
      fields of lib_state, the slope_limiter function variable (None before the first
      set_state), the global dimension and S = stride[dimension]. */
  datatype Setup = Setup(e: Ext, sch: Scheme, lim: Option<SlopeLimiter>, dim: int, s: int)

  /** The shapes initialize establishes, and a limiter wherever one is called. */
  ghost predicate WellShaped(c: Setup, g: Grid)
  {
    && c.e.Valid() && IsAxis(c.dim)
    && 0 < c.s && 2 * c.s <= |g.p| && c.s % 8 == 0 && |g.p| % 8 == 0
    && |g.ux| == |g.p| / 8 && |g.uy| == |g.ux| && |g.uz| == |g.ux|
    && (c.sch.modeReconstruct == ReconstructPiecewiseConstant || c.lim.Some?)
  }

  /** The number of interfaces the loop `for (i=S; i<stride[0]-S*2; i+=8)`
      visits; interface k sits at i = S + 8 k. */
  function Interfaces(n: int, s: int): int
  {
    if n - 2 * s > s then (n - 3 * s) / 8 else 0
  }

  /** The loop test i < stride[0] - 2 S at i = S + 8 k holds exactly for
      the interfaces counted by Interfaces. */
  lemma InterfaceCount(n: int, s: int, k: int)
    requires 0 < s && 2 * s <= n && s % 8 == 0 && n % 8 == 0 && 0 <= k
    ensures s + 8 * k < n - 2 * s <==> k < Interfaces(n, s)
    ensures Interfaces(n, s) >= 0 && (n - 2 * s > s ==> s + 8 * Interfaces(n, s) == n - 2 * s)
  {
    var a := s / 8;
    var b := n / 8;
    assert s == 8 * a && n == 8 * b;
    if n - 2 * s > s {
      assert (n - 3 * s) / 8 == b - 3 * a;
    }
  }

  /** Every visited interface has its whole stencil P0[-S] .. P0[2S+7] (and
      the matching 4-velocity stencil) inside the arrays. */
  lemma InterfaceStencil(c: Setup, g: Grid, k: int)
    requires WellShaped(c, g) && 0 <= k < Interfaces(|g.p|, c.s)
    ensures InStencil(|g.p|, c.s + 8 * k, c.s) && (c.s + 8 * k) % 8 == 0
    ensures InVelocityStencil(|g.ux|, (c.s + 8 * k) / 8, c.s / 8)
  {
    var a := c.s / 8;
    var b := |g.p| / 8;
    assert c.s == 8 * a && |g.p| == 8 * b;
    assert (|g.p| - 3 * c.s) / 8 == b - 3 * a;
    assert (c.s + 8 * k) / 8 == a + k;
  }

  /** Pl and Pr at interface k. */
  function EdgesAt(c: Setup, g: Grid, k: int): Edges
    requires WellShaped(c, g) && 0 <= k < Interfaces(|g.p|, c.s)
  {
    InterfaceStencil(c, g, k);
    var i := c.s + 8 * k;
    var mode := c.sch.modeReconstruct;
    if mode == ReconstructPiecewiseConstant then PiecewiseConstant(g.p, i, c.s)
    else if mode == ReconstructPLM4Velocity then
      Reconstruct4Vel(c.e, c.lim.value, c.sch.plmTheta, g.p, g.ux, g.uy, g.uz, i, c.s)
    else Reconstruct3Vel(c.lim.value, c.sch.plmTheta, g.p, i, c.s)
  }

  /** The HLL solver divides by the density and by 1 - v2 of both edges and
      takes roots of their sound speeds: it needs physical edge states. */
  ghost predicate SolvableAt(c: Setup, g: Grid, k: int)
    requires WellShaped(c, g) && 0 <= k < Interfaces(|g.p|, c.s)
  {
    c.sch.modeRiemannSolver == RiemannSolverHLLC
    || (c.sch.adiabaticGamma > 1.0 && Physical(EdgesAt(c, g, k).pl) && Physical(EdgesAt(c, g, k).pr))
  }

  ghost predicate Solvable(c: Setup, g: Grid)
  {
    WellShaped(c, g) && forall k :: 0 <= k < Interfaces(|g.p|, c.s) ==> SolvableAt(c, g, k)
  }

  /** What Fiph writes at &F[i] and the speed it offers to max_lambda (none
      for HLLC, whose effect on max_lambda is not part of this model). */
  datatype InterfaceResult = InterfaceResult(f: Vec8, ml: Option<real>)

  function FluxAt(c: Setup, g: Grid, k: int): (r: InterfaceResult)
    requires WellShaped(c, g) && 0 <= k < Interfaces(|g.p|, c.s) && SolvableAt(c, g, k)
    ensures r.ml.Some? <==> c.sch.modeRiemannSolver != RiemannSolverHLLC
    ensures r.ml.Some? ==> 0.0 <= r.ml.value <= 1.0
  {
    var ed := EdgesAt(c, g, k);
    if c.sch.modeRiemannSolver == RiemannSolverHLLC then
      InterfaceResult(c.e.hllc(ed.pl, ed.pr, 0.0, c.dim).f, None)
    else
      var h := Hll(c.e, c.sch.adiabaticGamma, c.dim, c.sch.modeQuarticSolver, ed.pl, ed.pr, 0.0);
      InterfaceResult(h.f, Some(h.ml))
  }

  /** The flux array after a sweep: zero on the first S entries and on the
      last 2 S, and the interface fluxes, one cell each, from &F[S] on
      (interface k at &F[S + 8 k]). For stride[0] >= 3 S these three parts
      cover the whole array. */
  ghost predicate SweepWritten(c: Setup, g: Grid, f: seq<real>)
    requires Solvable(c, g)
  {
    && |f| == |g.p|
    && (forall q :: 0 <= q < c.s ==> f[q] == 0.0)
    && (forall q :: |g.p| - 2 * c.s <= q < |g.p| ==> f[q] == 0.0)
    && CellsFrom(f, c.s, Fluxes(c, g, Interfaces(|g.p|, c.s)))
  }

  /** The sweep's output is determined by its inputs: two arrays Fiph
      could have written are equal. */
  lemma SweepWrittenUnique(c: Setup, g: Grid, f1: seq<real>, f2: seq<real>)
    requires Solvable(c, g) && SweepWritten(c, g, f1) && SweepWritten(c, g, f2)
    ensures f1 == f2
  {
    var vs := Fluxes(c, g, Interfaces(|g.p|, c.s));
    if 0 < Interfaces(|g.p|, c.s) {
      InterfaceBlock(c, g, 0);
    }
    forall q | 0 <= q < |f1|
      ensures f1[q] == f2[q]
    {
      if c.s <= q < |g.p| - 2 * c.s {
        CellsFromUnique(f1, f2, c.s, vs, q);
      }
    }
  }

  /** The fluxes of the first k interfaces, in sweep order. */
  function Fluxes(c: Setup, g: Grid, k: int): (vs: seq<Vec8>)
    requires Solvable(c, g) && 0 <= k <= Interfaces(|g.p|, c.s)
    ensures |vs| == k && forall j :: 0 <= j < k ==> vs[j] == FluxAt(c, g, j).f
  {
    seq(k, j requires 0 <= j < k => FluxAt(c, g, j).f)
  }

  /** The speeds the first k interfaces offer to max_lambda, in sweep order. */
  function Offers(c: Setup, g: Grid, k: int): (o: seq<Option<real>>)
    requires Solvable(c, g) && 0 <= k <= Interfaces(|g.p|, c.s)
    ensures |o| == k && forall j :: 0 <= j < k ==> o[j] == FluxAt(c, g, j).ml
  {
    seq(k, j requires 0 <= j < k => FluxAt(c, g, j).ml)
  }

  /** max_lambda after one interface: raised by hll_flux's offer, kept when
      nothing is offered. */
  function RaiseOne(m: real, o: Option<real>): (r: real)
    ensures r >= m && (o.Some? ==> r >= o.value)
    ensures r == m || o == Some(r)
    ensures o.None? ==> r == m
  {
    match o
    case None => m
    case Some(ml) => RaiseMaxLambda(m, ml)
  }

  /** max_lambda after hll_flux has offered each speed of o in turn, from m. */
  function RaiseAll(m: real, o: seq<Option<real>>): real
  {
    if |o| == 0 then m else RaiseOne(RaiseAll(m, o[..|o| - 1]), o[|o| - 1])
  }

  /** The updates never lower max_lambda, leave it at least every offered
      speed, only ever set it to one of them, and do nothing when no speed
      is offered (HLLC). */
  lemma {:induction false} RaiseAllBounds(m: real, o: seq<Option<real>>)
    ensures RaiseAll(m, o) >= m
    ensures forall j :: 0 <= j < |o| && o[j].Some? ==> RaiseAll(m, o) >= o[j].value
    ensures RaiseAll(m, o) == m || exists j :: 0 <= j < |o| && o[j] == Some(RaiseAll(m, o))
    ensures (forall j :: 0 <= j < |o| ==> o[j].None?) ==> RaiseAll(m, o) == m
  {
    if |o| > 0 {
      var o' := o[..|o| - 1];
      RaiseAllBounds(m, o');
      assert forall j :: 0 <= j < |o'| ==> o'[j] == o[j];
      if RaiseAll(m, o) != RaiseAll(m, o') {
        assert o[|o| - 1] == Some(RaiseAll(m, o));
      }
    }
  }

  /** The sweep's effect on max_lambda: HLLC offers nothing. */
  lemma LambdaUnderHllc(c: Setup, g: Grid, m: real)
    requires Solvable(c, g) && c.sch.modeRiemannSolver == RiemannSolverHLLC
    ensures RaiseAll(m, Offers(c, g, Interfaces(|g.p|, c.s))) == m
  {
    RaiseAllBounds(m, Offers(c, g, Interfaces(|g.p|, c.s)));
  }

  // ------------------------------------------------- the loops of Fiph

  /** What a whole sweep computes, interface by interface: the fluxes vs
      and the offers os. */
  ghost predicate SweepPlan(c: Setup, g: Grid, vs: seq<Vec8>, os: seq<Option<real>>)
  {
    && Solvable(c, g)
    && vs == Fluxes(c, g, Interfaces(|g.p|, c.s))
    && os == Offers(c, g, Interfaces(|g.p|, c.s))
  }

  /** Interface k lies below stride[0] - 2 S, in cell S/8 + k, and the
      interfaces end at stride[0] - 2 S. */
  lemma InterfaceBlock(c: Setup, g: Grid, k: int)
    requires WellShaped(c, g) && 0 <= k < Interfaces(|g.p|, c.s)
    ensures (c.s + 8 * k) / 8 == c.s / 8 + k && 8 * (c.s / 8 + k) == c.s + 8 * k
    ensures c.s + 8 * k + 8 <= |g.p| - 2 * c.s
    ensures c.s + 8 * Interfaces(|g.p|, c.s) == |g.p| - 2 * c.s
  {
    InterfaceCount(|g.p|, c.s, k);
    InterfaceCount(|g.p|, c.s, k + 1);
    assert c.s == 8 * (c.s / 8);
  }

  /** The speeds offered up to interface k + 1 are one more than up to k. */
  lemma RaiseAllPrefix(m: real, o: seq<Option<real>>, k: int)
    requires 0 <= k < |o|
    ensures RaiseAll(m, o[..k + 1]) == RaiseOne(RaiseAll(m, o[..k]), o[k])
  {
    assert o[..k + 1][..k] == o[..k];
  }

  /** The density and pressure of every cell are positive. */
  predicate PositiveCells(a: seq<real>)
  {
    forall j :: 0 <= j < |a| / 8 ==> Block(a, j)[Rho] > 0.0 && Block(a, j)[Pre] > 0.0
  }

  /** Every cell is a physical state. */
  ghost predicate PhysicalCells(a: seq<real>)
  {
    forall j :: 0 <= j < |a| / 8 ==> Physical(Block(a, j))
  }

  /** The two cells of interface k are cells S/8 + k and 2 S/8 + k. */
  lemma InterfaceCells(c: Setup, g: Grid, k: int)
    requires WellShaped(c, g) && 0 <= k < Interfaces(|g.p|, c.s)
    ensures 0 <= c.s / 8 + k && c.s / 8 + k + c.s / 8 < |g.p| / 8
    ensures Cell(g.p, c.s + 8 * k) == Block(g.p, c.s / 8 + k)
    ensures Cell(g.p, c.s + 8 * k + c.s) == Block(g.p, c.s / 8 + k + c.s / 8)
  {
    InterfaceStencil(c, g, k);
    var a := c.s / 8;
    assert c.s == 8 * a && |g.p| == 8 * (|g.p| / 8);
    assert 8 * (a + k) == c.s + 8 * k;
    assert 8 * (a + k + a) == c.s + 8 * k + c.s;
  }

  /** Piecewise-constant reconstruction of physical cells makes every HLL
      problem of the sweep well posed. */
  lemma PiecewiseConstantSolvable(c: Setup, g: Grid)
    requires WellShaped(c, g) && c.sch.modeReconstruct == ReconstructPiecewiseConstant
    requires c.sch.adiabaticGamma > 1.0 && PhysicalCells(g.p)
    ensures Solvable(c, g)
  {
    forall k | 0 <= k < Interfaces(|g.p|, c.s)
      ensures SolvableAt(c, g, k)
    {
      PiecewiseConstantSolvableAt(c, g, k);
    }
  }

  /** One interface of PiecewiseConstantSolvable. */
  lemma PiecewiseConstantSolvableAt(c: Setup, g: Grid, k: int)
    requires WellShaped(c, g) && c.sch.modeReconstruct == ReconstructPiecewiseConstant
    requires c.sch.adiabaticGamma > 1.0 && PhysicalCells(g.p)
    requires 0 <= k < Interfaces(|g.p|, c.s)
    ensures SolvableAt(c, g, k)
  {
    InterfaceCells(c, g, k);
    var j := c.s / 8 + k;
    assert EdgesAt(c, g, k).pl == Block(g.p, j);
    assert EdgesAt(c, g, k).pr == Block(g.p, j + c.s / 8);
  }

  /** With the 4-velocity reconstruction and minmod's theta in (0, 2],
      positive density and pressure in every cell make every HLL problem of
      the sweep well posed, whatever the velocities and the selected limiter. */
  lemma FourVelocitySolvable(c: Setup, g: Grid)
    requires WellShaped(c, g) && c.sch.modeReconstruct == ReconstructPLM4Velocity
    requires c.sch.adiabaticGamma > 1.0 && 0.0 < c.sch.plmTheta <= 2.0 && PositiveCells(g.p)
    ensures Solvable(c, g)
  {
    forall k | 0 <= k < Interfaces(|g.p|, c.s)
      ensures SolvableAt(c, g, k)
    {
      FourVelocitySolvableAt(c, g, k);
    }
  }

  /** One interface of FourVelocitySolvable. */
  lemma FourVelocitySolvableAt(c: Setup, g: Grid, k: int)
    requires WellShaped(c, g) && c.sch.modeReconstruct == ReconstructPLM4Velocity
    requires c.sch.adiabaticGamma > 1.0 && 0.0 < c.sch.plmTheta <= 2.0 && PositiveCells(g.p)
    requires 0 <= k < Interfaces(|g.p|, c.s)
    ensures SolvableAt(c, g, k)
  {
    InterfaceStencil(c, g, k);
    var i := c.s + 8 * k;
    PositiveAt(g.p, i / 8);
    PositiveAt(g.p, i / 8 + c.s / 8);
    assert 8 * (i / 8 + c.s / 8) == i + c.s;
    Reconstruct4VelPhysical(c.e, c.lim.value, c.sch.plmTheta, g.p, g.ux, g.uy, g.uz, i, c.s);
    EdgesAt4Vel(c, g, k, i);
  }

  /** With the 4-velocity reconstruction, the edges of interface k are those
      of the cell at i = S + 8 k. */
  lemma EdgesAt4Vel(c: Setup, g: Grid, k: int, i: int)
    requires WellShaped(c, g) && c.sch.modeReconstruct == ReconstructPLM4Velocity
    requires 0 <= k < Interfaces(|g.p|, c.s) && i == c.s + 8 * k
    requires InStencil(|g.p|, i, c.s) && i % 8 == 0 && InVelocityStencil(|g.ux|, i / 8, c.s / 8)
    ensures EdgesAt(c, g, k) == Reconstruct4Vel(c.e, c.lim.value, c.sch.plmTheta, g.p, g.ux, g.uy, g.uz, i, c.s)
  {
  }

  /** The density and pressure of cell j of a PositiveCells array. */
  lemma PositiveAt(a: seq<real>, j: int)
    requires PositiveCells(a) && 0 <= j && 8 * j + 8 <= |a|
    ensures a[8 * j + Rho] > 0.0 && a[8 * j + Pre] > 0.0
  {
    assert j < |a| / 8;
    assert Block(a, j)[Rho] > 0.0 && Block(a, j)[Pre] > 0.0;
  }
}
