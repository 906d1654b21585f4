/** Reconstruction of the two states at the interface between the cell at
    flat offset i and the cell at i + S (S = stride[dimension]): piecewise
    constant, piecewise linear on the 3-velocity (reconstruct_use_3vel) and
    piecewise linear on the 4-velocity (reconstruct_use_4vel). Pl is the
    right edge of cell i, Pr the left edge of cell i + S. */
module Reconstruct {
  import opened StateVec
  import opened Externals
  import opened Arith
  import opened Limiters

  /** The two states handed to the Riemann solver. */
  datatype Edges = Edges(pl: Vec8, pr: Vec8)

  /** The stencil P0[-S] .. P0[2S + 7] around offset i lies inside a. */
  predicate InStencil(n: int, i: int, s: int)
  {
    0 <= s <= i && i + 2 * s + 8 <= n
  }

  /** The right edge of the cell at i, in slot k: P0[k] + lim(P0[k-S], P0[k], P0[k+S])/2. */
  function LeftState(lim: SlopeLimiter, theta: real, a: seq<real>, i: int, s: int, k: int): real
    requires 0 <= k < 8 && InStencil(|a|, i, s)
  {
    a[i + k] + 0.5 * Limit(lim, theta, a[i - s + k], a[i + k], a[i + s + k])
  }

  /** The left edge of the cell at i + S, in slot k: P0[S+k] - lim(P0[k], P0[S+k], P0[2S+k])/2. */
  function RightState(lim: SlopeLimiter, theta: real, a: seq<real>, i: int, s: int, k: int): real
    requires 0 <= k < 8 && InStencil(|a|, i, s)
  {
    a[i + s + k] - 0.5 * Limit(lim, theta, a[i + k], a[i + s + k], a[i + 2 * s + k])
  }

  /** With minmod (0 < theta <= 2) or the harmonic mean, both edge values of
      the interface lie between the two cells it separates. */
  lemma EdgesBetweenCells(lim: SlopeLimiter, theta: real, a: seq<real>, i: int, s: int, k: int)
    requires 0 <= k < 8 && InStencil(|a|, i, s)
    requires (lim == Minmod && 0.0 < theta <= 2.0) || lim == HarmonicMean
    ensures Between(LeftState(lim, theta, a, i, s, k), a[i + k], a[i + s + k])
    ensures Between(RightState(lim, theta, a, i, s, k), a[i + k], a[i + s + k])
  {
    LimitedEdgesBetween(lim, theta, a[i - s + k], a[i + k], a[i + s + k]);
    LimitedEdgesBetween(lim, theta, a[i + k], a[i + s + k], a[i + 2 * s + k]);
  }

  // ---------------------------------------------------- piecewise constant

  /** Reconstruct_PiecewiseConstant: the two cells themselves. */
  function PiecewiseConstant(a: seq<real>, i: int, s: int): (r: Edges)
    requires InStencil(|a|, i, s)
    ensures forall k :: 0 <= k < 8 ==> r.pl[k] == a[i + k] && r.pr[k] == a[i + s + k]
  {
    Edges(Cell(a, i), Cell(a, i + s))
  }

  // ----------------------------------------------------------- 3-velocity

  /** reconstruct_use_3vel: every slot through the selected limiter. */
  function Reconstruct3Vel(lim: SlopeLimiter, theta: real, a: seq<real>, i: int, s: int): (r: Edges)
    requires InStencil(|a|, i, s)
  {
    Edges(seq(8, k requires 0 <= k < 8 => LeftState(lim, theta, a, i, s, k)),
          seq(8, k requires 0 <= k < 8 => RightState(lim, theta, a, i, s, k)))
  }

  /** reconstruct_use_3vel creates no new extrema with minmod or the
      harmonic mean: every slot of both edges lies between the two cells. */
  lemma Reconstruct3VelBetween(lim: SlopeLimiter, theta: real, a: seq<real>, i: int, s: int)
    requires InStencil(|a|, i, s)
    requires (lim == Minmod && 0.0 < theta <= 2.0) || lim == HarmonicMean
    ensures forall k :: 0 <= k < 8 ==>
              Between(Reconstruct3Vel(lim, theta, a, i, s).pl[k], a[i + k], a[i + s + k])
              && Between(Reconstruct3Vel(lim, theta, a, i, s).pr[k], a[i + k], a[i + s + k])
  {
    forall k | 0 <= k < 8
      ensures Between(Reconstruct3Vel(lim, theta, a, i, s).pl[k], a[i + k], a[i + s + k])
      ensures Between(Reconstruct3Vel(lim, theta, a, i, s).pr[k], a[i + k], a[i + s + k])
    {
      EdgesBetweenCells(lim, theta, a, i, s, k);
    }
  }

  // ----------------------------------------------------------- 4-velocity

  /** v = u / sqrt(1 + |u|^2) of a reconstructed 4-velocity (u_x, u_y, u_z). */
  function ThreeVelocity(e: Ext, ux: real, uy: real, uz: real): (v: (real, real, real))
    requires e.Valid()
    ensures v.0 * v.0 + v.1 * v.1 + v.2 * v.2 < 1.0
  {
    var q := ux * ux + uy * uy + uz * uz;
    SumOfSquaresNonNegative(ux, uy, uz);
    var w := e.sqrt(1.0 + q);
    SqrtAtLeastOne(e, 1.0 + q);
    SubLuminal(ux, uy, uz, q, w);
    (ux / w, uy / w, uz / w)
  }

  lemma SumOfSquaresNonNegative(x: real, y: real, z: real)
    ensures x * x + y * y + z * z >= 0.0
  {
    assert x * x >= 0.0 && y * y >= 0.0 && z * z >= 0.0;
  }

  /** |u/W|^2 = |u|^2 / (1 + |u|^2) < 1 when W^2 = 1 + |u|^2. */
  lemma SubLuminal(ux: real, uy: real, uz: real, q: real, w: real)
    requires q == ux * ux + uy * uy + uz * uz && q >= 0.0
    requires w >= 1.0 && w * w == 1.0 + q
    ensures (ux / w) * (ux / w) + (uy / w) * (uy / w) + (uz / w) * (uz / w) < 1.0
  {
    QuotientSquare(ux, w);
    QuotientSquare(uy, w);
    QuotientSquare(uz, w);
    assert (ux * ux) / (w * w) + (uy * uy) / (w * w) + (uz * uz) / (w * w) == q / (w * w);
    DivBelow(q, w * w, 1.0);
  }

  lemma QuotientSquare(x: real, w: real)
    requires w >= 1.0
    ensures w * w >= 1.0 && (x / w) * (x / w) == (x * x) / (w * w)
  {
    MulMonotone(1.0, w, w);
    DivCancel(x, w);
    var y := x / w;
    assert (y * y) * (w * w) == (y * w) * (y * w);
    DivCancel(x * x, w * w);
    MulCancel(y * y, (x * x) / (w * w), w * w);
  }

  /** Whether slot k is limited with plm_minmod whatever limiter is
      selected: rho, pre and the three field components. */
  predicate MinmodSlot(k: int)
  {
    k == Rho || k == Pre || k == Bx || k == By || k == Bz
  }

  /** The stencil of the 4-velocity arrays: ux[-U] .. ux[2U] with
      U = S/8, starting at j = i/8. */
  predicate InVelocityStencil(n: int, j: int, t: int)
  {
    0 <= t <= j && j + 2 * t < n
  }

  /** u0 + lim(ul, u0, ur)/2 and u0 - lim(ul, u0, ur)/2 of one 4-velocity component. */
  function VelocityEdges(lim: SlopeLimiter, theta: real, u: seq<real>, j: int, t: int): (r: (real, real))
    requires InVelocityStencil(|u|, j, t)
  {
    (u[j] + 0.5 * Limit(lim, theta, u[j - t], u[j], u[j + t]),
     u[j + t] - 0.5 * Limit(lim, theta, u[j], u[j + t], u[j + 2 * t]))
  }

  /** The 3-velocities at both edges, from the limited 4-velocity components. */
  function EdgeVelocities(e: Ext, lim: SlopeLimiter, theta: real, ux: seq<real>, uy: seq<real>, uz: seq<real>,
                          j: int, t: int): (v: ((real, real, real), (real, real, real)))
    requires e.Valid() && InVelocityStencil(|ux|, j, t) && |uy| == |ux| && |uz| == |ux|
    ensures v.0.0 * v.0.0 + v.0.1 * v.0.1 + v.0.2 * v.0.2 < 1.0
    ensures v.1.0 * v.1.0 + v.1.1 * v.1.1 + v.1.2 * v.1.2 < 1.0
  {
    var ex := VelocityEdges(lim, theta, ux, j, t);
    var ey := VelocityEdges(lim, theta, uy, j, t);
    var ez := VelocityEdges(lim, theta, uz, j, t);
    (ThreeVelocity(e, ex.0, ey.0, ez.0), ThreeVelocity(e, ex.1, ey.1, ez.1))
  }

  /** A state with its three velocity slots replaced by v. */
  function WithVelocity(m: Vec8, v: (real, real, real)): (r: Vec8)
    ensures V2(r) == v.0 * v.0 + v.1 * v.1 + v.2 * v.2
    ensures forall k :: 0 <= k < 8 && MinmodSlot(k) ==> r[k] == m[k]
  {
    m[Vx := v.0][Vy := v.1][Vz := v.2]
  }

  /** reconstruct_use_4vel: rho, pre and B are the minmod edges (the
      3-velocity reconstruction with plm_minmod), the velocities come from
      the limited 4-velocity, and both edges are sub-luminal whatever the
      stencil holds. */
  function Reconstruct4Vel(e: Ext, lim: SlopeLimiter, theta: real, a: seq<real>,
                           ux: seq<real>, uy: seq<real>, uz: seq<real>, i: int, s: int): (r: Edges)
    requires e.Valid() && InStencil(|a|, i, s) && i % 8 == 0 && s % 8 == 0
    requires InVelocityStencil(|ux|, i / 8, s / 8) && |uy| == |ux| && |uz| == |ux|
    ensures V2(r.pl) < 1.0 && V2(r.pr) < 1.0
  {
    var m := Reconstruct3Vel(Minmod, theta, a, i, s);
    var v := EdgeVelocities(e, lim, theta, ux, uy, uz, i / 8, s / 8);
    Edges(WithVelocity(m.pl, v.0), WithVelocity(m.pr, v.1))
  }

  /** The rho, pre and B slots of reconstruct_use_4vel are the plm_minmod
      edges whatever limiter the velocities use. */
  lemma Reconstruct4VelMinmodSlots(e: Ext, lim: SlopeLimiter, theta: real, a: seq<real>,
                                   ux: seq<real>, uy: seq<real>, uz: seq<real>, i: int, s: int, k: int)
    requires e.Valid() && InStencil(|a|, i, s) && i % 8 == 0 && s % 8 == 0
    requires InVelocityStencil(|ux|, i / 8, s / 8) && |uy| == |ux| && |uz| == |ux|
    requires 0 <= k < 8 && MinmodSlot(k)
    ensures Reconstruct4Vel(e, lim, theta, a, ux, uy, uz, i, s).pl[k] == LeftState(Minmod, theta, a, i, s, k)
    ensures Reconstruct4Vel(e, lim, theta, a, ux, uy, uz, i, s).pr[k] == RightState(Minmod, theta, a, i, s, k)
  {
    var m := Reconstruct3Vel(Minmod, theta, a, i, s);
    var v := EdgeVelocities(e, lim, theta, ux, uy, uz, i / 8, s / 8);
    assert Reconstruct4Vel(e, lim, theta, a, ux, uy, uz, i, s) == Edges(WithVelocity(m.pl, v.0), WithVelocity(m.pr, v.1));
  }

  /** With 0 < theta <= 2, positive density and pressure in the two cells
      give physical edge states: the 4-velocity reconstruction never hands
      the Riemann solver an unphysical state. */
  lemma Reconstruct4VelPhysical(e: Ext, lim: SlopeLimiter, theta: real, a: seq<real>,
                                ux: seq<real>, uy: seq<real>, uz: seq<real>, i: int, s: int)
    requires e.Valid() && InStencil(|a|, i, s) && i % 8 == 0 && s % 8 == 0
    requires InVelocityStencil(|ux|, i / 8, s / 8) && |uy| == |ux| && |uz| == |ux|
    requires 0.0 < theta <= 2.0
    requires a[i + Rho] > 0.0 && a[i + s + Rho] > 0.0 && a[i + Pre] > 0.0 && a[i + s + Pre] > 0.0
    ensures Physical(Reconstruct4Vel(e, lim, theta, a, ux, uy, uz, i, s).pl)
    ensures Physical(Reconstruct4Vel(e, lim, theta, a, ux, uy, uz, i, s).pr)
  {
    Reconstruct4VelMinmodSlots(e, lim, theta, a, ux, uy, uz, i, s, Rho);
    Reconstruct4VelMinmodSlots(e, lim, theta, a, ux, uy, uz, i, s, Pre);
    EdgesBetweenCells(Minmod, theta, a, i, s, Rho);
    EdgesBetweenCells(Minmod, theta, a, i, s, Pre);
  }
}
