/** The averaging formulas of constraint_transport_2d/3d over the raw
    interface fluxes, and what they mean: every transported field flux is
    the average of a corner electric field, so the corner-centred divergence
    of the induction rates dUdt_2d computes vanishes. */
module ConstraintTransport {
  import opened StateVec
  import opened Arith

  /** The indices one average reads lie inside the two arrays. */
  predicate AverageStencil(na: int, ai: int, nb: int, bi: int, s1: int, s2: int)
  {
    0 <= s1 && 0 <= s2 && s1 <= ai && ai + s1 < na && s1 <= bi && bi + s2 < nb
  }

  /** (2 A[0] + A[s1] + A[-s1] - B[0] - B[s2] - B[-s1] - B[s2-s1]) / 8 with
      A = &a[ai] and B = &b[bi]: the common shape of the six temporaries. */
  function Average(a: seq<real>, ai: int, b: seq<real>, bi: int, s1: int, s2: int): real
    requires AverageStencil(|a|, ai, |b|, bi, s1, s2)
  {
    (2.0 * a[ai] + a[ai + s1] + a[ai - s1] - b[bi] - b[bi + s2] - b[bi - s1] - b[bi + s2 - s1]) * 0.125
  }

  /** A cell whose temporaries the first loop fills: sx <= i < stride0 - sx. */
  predicate InteriorCell(n: int, i: int, sx: int, sy: int, sz: int)
  {
    0 <= sz <= sy <= sx <= i && i + sx + 8 <= n
  }

  // ---------------------------------------------------------------- 2D

  /** FxBy[i/8] of constraint_transport_2d (also of the 3D version). */
  function FxBy(fx: seq<real>, fy: seq<real>, i: int, sx: int, sy: int): real
    requires |fx| == |fy| && InteriorCell(|fx|, i, sx, sy, 0)
  {
    Average(fx, By + i, fy, Bx + i, sy, sx)
  }

  /** FyBx[i/8]. */
  function FyBx(fx: seq<real>, fy: seq<real>, i: int, sx: int, sy: int): real
    requires |fx| == |fy| && InteriorCell(|fx|, i, sx, sy, 0)
  {
    Average(fy, Bx + i, fx, By + i, sx, sy)
  }

  /** The electric field at the cell corner (i + 1/2, j + 1/2), averaged from
      the four raw fluxes that meet there: (Fx[By] up and down, minus Fy[Bx]
      left and right) / 4. */
  function CornerEmf(fx: seq<real>, fy: seq<real>, i: int, sx: int, sy: int): real
    requires |fx| == |fy| && 0 <= sy && 0 <= sx && 0 <= i && i + sx + 8 <= |fx| && sy <= sx
  {
    0.25 * (fx[By + i] + fx[By + i + sy] - fy[Bx + i] - fy[Bx + i + sx])
  }

  /** The two transported fluxes are the averages of the corner EMF over the
      two corners of the face: FxBy = (Emf(i) + Emf(i - sy))/2 and
      FyBx = -(Emf(i) + Emf(i - sx))/2. */
  lemma EmfForm(fx: seq<real>, fy: seq<real>, i: int, sx: int, sy: int)
    requires |fx| == |fy| && InteriorCell(|fx|, i, sx, sy, 0)
    ensures FxBy(fx, fy, i, sx, sy) == 0.5 * (CornerEmf(fx, fy, i, sx, sy) + CornerEmf(fx, fy, i - sy, sx, sy))
    ensures FyBx(fx, fy, i, sx, sy) == -0.5 * (CornerEmf(fx, fy, i, sx, sy) + CornerEmf(fx, fy, i - sx, sx, sy))
  {
  }

  /** The Bx rate dUdt_2d computes from the transported fluxes (Fx[Bx] is 0). */
  function RateBx(fx: seq<real>, fy: seq<real>, j: int, sx: int, sy: int, dx: real, dy: real): real
    requires |fx| == |fy| && InteriorCell(|fx|, j, sx, sy, 0) && InteriorCell(|fx|, j - sy, sx, sy, 0)
    requires dx != 0.0 && dy != 0.0
  {
    -(0.0 - 0.0) / dx - (FyBx(fx, fy, j, sx, sy) - FyBx(fx, fy, j - sy, sx, sy)) / dy
  }

  /** The By rate (Fy[By] is 0). */
  function RateBy(fx: seq<real>, fy: seq<real>, j: int, sx: int, sy: int, dx: real, dy: real): real
    requires |fx| == |fy| && InteriorCell(|fx|, j, sx, sy, 0) && InteriorCell(|fx|, j - sx, sx, sy, 0)
    requires dx != 0.0 && dy != 0.0
  {
    -(FxBy(fx, fy, j, sx, sy) - FxBy(fx, fy, j - sx, sx, sy)) / dx - (0.0 - 0.0) / dy
  }

  /** The cells a corner divergence at i reads: the rates at i, i - sx,
      i - sy and i - sx - sy, whose own stencils reach i - 2 sx - sy and
      i - sx - 2 sy. */
  predicate CornerStencil(n: int, i: int, sx: int, sy: int)
  {
    0 <= sy <= sx && 3 * sx + 2 * sy <= i && i + sx + 8 <= n
  }

  /** The central-difference divergence at a cell corner of a field whose
      x component is a0..a3 at the four cells around it (the cell, the one
      below, the one to the left, the one diagonally before) and whose y
      component is b0..b3 at the cell, the one to the left, the one below
      and the one diagonally before. */
  function Divergence2D(a0: real, a1: real, a2: real, a3: real,
                        b0: real, b1: real, b2: real, b3: real, dx: real, dy: real): real
    requires dx != 0.0 && dy != 0.0
  {
    (a0 + a1 - a2 - a3) / (2.0 * dx) + (b0 + b1 - b2 - b3) / (2.0 * dy)
  }

  /** The divergence of the field rates at the corner i - (sx + sy)/2. */
  function CornerDivergence(fx: seq<real>, fy: seq<real>, i: int, sx: int, sy: int, dx: real, dy: real): real
    requires |fx| == |fy| && CornerStencil(|fx|, i, sx, sy) && dx != 0.0 && dy != 0.0
  {
    Divergence2D(RateBx(fx, fy, i, sx, sy, dx, dy), RateBx(fx, fy, i - sy, sx, sy, dx, dy),
                 RateBx(fx, fy, i - sx, sx, sy, dx, dy), RateBx(fx, fy, i - sx - sy, sx, sy, dx, dy),
                 RateBy(fx, fy, i, sx, sy, dx, dy), RateBy(fx, fy, i - sx, sx, sy, dx, dy),
                 RateBy(fx, fy, i - sy, sx, sy, dx, dy), RateBy(fx, fy, i - sx - sy, sx, sy, dx, dy), dx, dy)
  }

  /** Constraint transport keeps the magnetic field divergence-free: the
      corner divergence of the rates built from the transported fluxes is 0
      for any raw fluxes. */
  lemma {:induction false} DivergenceFree2D(fx: seq<real>, fy: seq<real>, i: int, sx: int, sy: int, dx: real, dy: real)
    requires |fx| == |fy| && CornerStencil(|fx|, i, sx, sy) && dx != 0.0 && dy != 0.0
    ensures CornerDivergence(fx, fy, i, sx, sy, dx, dy) == 0.0
  {
    EmfDifferences(fx, fy, i, sx, sy);
    RatesCombination(RateBx(fx, fy, i, sx, sy, dx, dy), RateBx(fx, fy, i - sy, sx, sy, dx, dy),
                     RateBx(fx, fy, i - sx, sx, sy, dx, dy), RateBx(fx, fy, i - sx - sy, sx, sy, dx, dy),
                     RateBy(fx, fy, i, sx, sy, dx, dy), RateBy(fx, fy, i - sx, sx, sy, dx, dy),
                     RateBy(fx, fy, i - sy, sx, sy, dx, dy), RateBy(fx, fy, i - sx - sy, sx, sy, dx, dy),
                     FyBx(fx, fy, i, sx, sy) - FyBx(fx, fy, i - sy, sx, sy),
                     FyBx(fx, fy, i - sy, sx, sy) - FyBx(fx, fy, i - sy - sy, sx, sy),
                     FyBx(fx, fy, i - sx, sx, sy) - FyBx(fx, fy, i - sx - sy, sx, sy),
                     FyBx(fx, fy, i - sx - sy, sx, sy) - FyBx(fx, fy, i - sx - sy - sy, sx, sy),
                     FxBy(fx, fy, i, sx, sy) - FxBy(fx, fy, i - sx, sx, sy),
                     FxBy(fx, fy, i - sx, sx, sy) - FxBy(fx, fy, i - sx - sx, sx, sy),
                     FxBy(fx, fy, i - sy, sx, sy) - FxBy(fx, fy, i - sy - sx, sx, sy),
                     FxBy(fx, fy, i - sx - sy, sx, sy) - FxBy(fx, fy, i - sx - sy - sx, sx, sy), dx, dy);
  }

  /** The corner divergence of eight rates of the form dUdt_2d computes,
      -(0 - 0)/dx - a/dy for Bx and -p/dx - (0 - 0)/dy for By, vanishes when
      the flux differences a + b - c - d + p + q - r - t do. */
  lemma RatesCombination(r0: real, r1: real, r2: real, r3: real, r4: real, r5: real, r6: real, r7: real,
                         a: real, b: real, c: real, d: real, p: real, q: real, r: real, t: real,
                         dx: real, dy: real)
    requires dx != 0.0 && dy != 0.0 && a + b - c - d + (p + q - r - t) == 0.0
    requires r0 == -(0.0 - 0.0) / dx - a / dy && r1 == -(0.0 - 0.0) / dx - b / dy
    requires r2 == -(0.0 - 0.0) / dx - c / dy && r3 == -(0.0 - 0.0) / dx - d / dy
    requires r4 == -p / dx - (0.0 - 0.0) / dy && r5 == -q / dx - (0.0 - 0.0) / dy
    requires r6 == -r / dx - (0.0 - 0.0) / dy && r7 == -t / dx - (0.0 - 0.0) / dy
    ensures Divergence2D(r0, r1, r2, r3, r4, r5, r6, r7, dx, dy) == 0.0
  {
    QuotientCombination(a, b, c, d, p, q, r, t, dx, dy);
  }

  /** The two combinations of transported fluxes a corner reads, written out
      through the corner EMF: they cancel. */
  lemma EmfDifferences(fx: seq<real>, fy: seq<real>, i: int, sx: int, sy: int)
    requires |fx| == |fy| && CornerStencil(|fx|, i, sx, sy)
    ensures (FyBx(fx, fy, i, sx, sy) - FyBx(fx, fy, i - sy, sx, sy))
            + (FyBx(fx, fy, i - sy, sx, sy) - FyBx(fx, fy, i - sy - sy, sx, sy))
            - (FyBx(fx, fy, i - sx, sx, sy) - FyBx(fx, fy, i - sx - sy, sx, sy))
            - (FyBx(fx, fy, i - sx - sy, sx, sy) - FyBx(fx, fy, i - sx - sy - sy, sx, sy))
            + ((FxBy(fx, fy, i, sx, sy) - FxBy(fx, fy, i - sx, sx, sy))
               + (FxBy(fx, fy, i - sx, sx, sy) - FxBy(fx, fy, i - sx - sx, sx, sy))
               - (FxBy(fx, fy, i - sy, sx, sy) - FxBy(fx, fy, i - sy - sx, sx, sy))
               - (FxBy(fx, fy, i - sx - sy, sx, sy) - FxBy(fx, fy, i - sx - sy - sx, sx, sy)))
            == 0.0
  {
    EmfForm(fx, fy, i, sx, sy);
    EmfForm(fx, fy, i - sx, sx, sy);
    EmfForm(fx, fy, i - sy, sx, sy);
    EmfForm(fx, fy, i - sx - sy, sx, sy);
    EmfForm(fx, fy, i - sx - sx, sx, sy);
    EmfForm(fx, fy, i - sy - sy, sx, sy);
    EmfForm(fx, fy, i - sx - sy - sx, sx, sy);
    EmfForm(fx, fy, i - sx - sy - sy, sx, sy);
    assert i - sy - sx == i - sx - sy;
    assert i - sx - sx - sy == i - sx - sy - sx;
    assert i - sy - sy - sx == i - sx - sy - sy;
  }

  /** The corner divergence, written in the eight flux differences: the Bx
      rates are -(0 - 0)/dx - a/dy, ..., the By rates -p/dx - (0 - 0)/dy,
      ...; it vanishes when a + b - c - d + p + q - r - t does. */
  lemma QuotientCombination(a: real, b: real, c: real, d: real, p: real, q: real, r: real, t: real,
                            dx: real, dy: real)
    requires dx != 0.0 && dy != 0.0 && a + b - c - d + (p + q - r - t) == 0.0
    ensures Divergence2D(-(0.0 - 0.0) / dx - a / dy, -(0.0 - 0.0) / dx - b / dy,
                         -(0.0 - 0.0) / dx - c / dy, -(0.0 - 0.0) / dx - d / dy,
                         -p / dx - (0.0 - 0.0) / dy, -q / dx - (0.0 - 0.0) / dy,
                         -r / dx - (0.0 - 0.0) / dy, -t / dx - (0.0 - 0.0) / dy, dx, dy) == 0.0
  {
    SumOfQuotients(a, b, c, d, dy);
    SumOfQuotients(p, q, r, t, dx);
    var x := a + b - c - d;
    assert (-(0.0 - 0.0) / dx - a / dy) + (-(0.0 - 0.0) / dx - b / dy)
           - (-(0.0 - 0.0) / dx - c / dy) - (-(0.0 - 0.0) / dx - d / dy) == -(x / dy);
    assert (-p / dx - (0.0 - 0.0) / dy) + (-q / dx - (0.0 - 0.0) / dy)
           - (-r / dx - (0.0 - 0.0) / dy) - (-t / dx - (0.0 - 0.0) / dy) == -((-x) / dx);
    CrossQuotients(x, dx, dy);
  }

  lemma SumOfQuotients(a: real, b: real, c: real, d: real, den: real)
    requires den != 0.0
    ensures a / den + b / den - c / den - d / den == (a + b - c - d) / den
  {
    DivCancel(a, den);
    DivCancel(b, den);
    DivCancel(c, den);
    DivCancel(d, den);
    DivCancel(a + b - c - d, den);
    assert (a / den + b / den - c / den - d / den) * den == a + b - c - d;
    MulCancel(a / den + b / den - c / den - d / den, (a + b - c - d) / den, den);
  }

  /** (-(x/dy))/(2 dx) + (-((-x)/dx))/(2 dy) == 0. */
  lemma CrossQuotients(x: real, dx: real, dy: real)
    requires dx != 0.0 && dy != 0.0
    ensures (-(x / dy)) / (2.0 * dx) + (-((-x) / dx)) / (2.0 * dy) == 0.0
  {
    var q := dx * dy;
    NonZero(dx, dy);
    assert (-(x / dy)) / (2.0 * dx) == -(x / (2.0 * q)) by { TwoStep(x, dy, 2.0 * dx, 2.0 * q); }
    assert (-((-x) / dx)) / (2.0 * dy) == x / (2.0 * q) by { TwoStep(-x, dx, 2.0 * dy, 2.0 * q); }
  }

  lemma NonZero(a: real, b: real)
    requires a != 0.0 && b != 0.0
    ensures a * b != 0.0 && 2.0 * (a * b) != 0.0
  {
  }

  /** (x/a)/b == x/(a b), with the product given as ab. */
  lemma TwoStep(x: real, a: real, b: real, ab: real)
    requires a != 0.0 && b != 0.0 && ab == a * b
    ensures (-(x / a)) / b == -(x / ab)
  {
    DivCancel(x, a);
    DivCancel(-(x / a), b);
    DivCancel(x, ab);
    assert (-(x / a)) / b * (a * b) == -x;
    assert -(x / ab) * (a * b) == -x;
    MulCancel((-(x / a)) / b, -(x / ab), ab);
  }

  // ---------------------------------------------------------------- 3D

  /** The six temporaries of constraint_transport_3d at interior cell i. */
  function FyBz(fy: seq<real>, fz: seq<real>, i: int, sx: int, sy: int, sz: int): real
    requires |fy| == |fz| && InteriorCell(|fy|, i, sx, sy, sz)
  {
    Average(fy, Bz + i, fz, By + i, sz, sy)
  }

  function FzBy(fy: seq<real>, fz: seq<real>, i: int, sx: int, sy: int, sz: int): real
    requires |fy| == |fz| && InteriorCell(|fy|, i, sx, sy, sz)
  {
    Average(fz, By + i, fy, Bz + i, sy, sz)
  }

  function FzBx(fx: seq<real>, fz: seq<real>, i: int, sx: int, sy: int, sz: int): real
    requires |fx| == |fz| && InteriorCell(|fx|, i, sx, sy, sz)
  {
    Average(fz, Bx + i, fx, Bz + i, sx, sz)
  }

  function FxBz(fx: seq<real>, fz: seq<real>, i: int, sx: int, sy: int, sz: int): real
    requires |fx| == |fz| && InteriorCell(|fx|, i, sx, sy, sz)
  {
    Average(fx, Bz + i, fz, Bx + i, sz, sx)
  }

  /** Each 3D pair is the 2D transport in its own plane: the (y, z) pair is
      FxBy/FyBx with the roles (x, y) -> (y, z) and fields (By, Bx) -> (Bz, By),
      and so on cyclically. Hence the 3D fluxes are corner-EMF averages too. */
  lemma PlaneForm3D(fx: seq<real>, fy: seq<real>, fz: seq<real>, i: int, sx: int, sy: int, sz: int)
    requires |fx| == |fy| == |fz| && InteriorCell(|fx|, i, sx, sy, sz)
    ensures FyBz(fy, fz, i, sx, sy, sz)
            == 0.5 * (0.25 * (fy[Bz + i] + fy[Bz + i + sz] - fz[By + i] - fz[By + i + sy])
                      + 0.25 * (fy[Bz + i - sz] + fy[Bz + i] - fz[By + i - sz] - fz[By + i - sz + sy]))
    ensures FzBy(fy, fz, i, sx, sy, sz)
            == -0.5 * (0.25 * (fy[Bz + i] + fy[Bz + i + sz] - fz[By + i] - fz[By + i + sy])
                       + 0.25 * (fy[Bz + i - sy] + fy[Bz + i - sy + sz] - fz[By + i - sy] - fz[By + i]))
    ensures FzBx(fx, fz, i, sx, sy, sz)
            == 0.5 * (0.25 * (fz[Bx + i] + fz[Bx + i + sx] - fx[Bz + i] - fx[Bz + i + sz])
                      + 0.25 * (fz[Bx + i - sx] + fz[Bx + i] - fx[Bz + i - sx] - fx[Bz + i - sx + sz]))
    ensures FxBz(fx, fz, i, sx, sy, sz)
            == -0.5 * (0.25 * (fz[Bx + i] + fz[Bx + i + sx] - fx[Bz + i] - fx[Bz + i + sz])
                       + 0.25 * (fz[Bx + i - sz] + fz[Bx + i - sz + sx] - fx[Bz + i - sz] - fx[Bz + i]))
  {
  }

  // --------------------------------------------------- the in-place passes

  /** Entry q of a flux array. Transported2D states its facts about fluxes
      through At, so that a proof draws on them only at the entries it names
      this way. */
  function At(a: seq<real>, q: int): real
    requires 0 <= q < |a|
  {
    a[q]
  }

  /** fx, fy after constraint_transport_2d on the raw fluxes fx0, fy0:
      Fx[Bx] and Fy[By] are 0 in every cell, Fx[By] and Fy[Bx] of every
      interior cell are the averages of the raw fluxes (on the other cells
      they are whatever the unwritten temporaries held), and every other
      slot keeps its raw value. */
  ghost predicate Transported2D(fx0: seq<real>, fy0: seq<real>, fx: seq<real>, fy: seq<real>, sx: int, sy: int)
  {
    && |fx0| == |fx| && |fy0| == |fx| && |fy| == |fx| && |fx| % 8 == 0 && 0 <= sy <= sx
    && (forall q :: 0 <= q < |fx| && q % 8 == Bx ==> At(fx, q) == 0.0)
    && (forall q :: 0 <= q < |fy| && q % 8 == By ==> At(fy, q) == 0.0)
    && (forall q :: 0 <= q < |fx| && q % 8 == By && InteriorCell(|fx|, q - By, sx, sy, 0) ==>
          At(fx, q) == FxBy(fx0, fy0, q - By, sx, sy))
    && (forall q :: 0 <= q < |fy| && q % 8 == Bx && InteriorCell(|fx|, q - Bx, sx, sy, 0) ==>
          At(fy, q) == FyBx(fx0, fy0, q - Bx, sx, sy))
    && (forall q :: 0 <= q < |fx| && q % 8 != Bx && q % 8 != By ==> At(fx, q) == fx0[q])
    && (forall q :: 0 <= q < |fy| && q % 8 != Bx && q % 8 != By ==> At(fy, q) == fy0[q])
  }

  /** The temporaries FxBy, FyBx once the first loop of
      constraint_transport_2d has reached cell offset i. */
  ghost predicate AveragesUpTo2D(fx: seq<real>, fy: seq<real>, tx: seq<real>, ty: seq<real>,
                                 sx: int, sy: int, i: int)
  {
    && |fy| == |fx| && |tx| == |fx| / 8 && |ty| == |fx| / 8
    && forall j :: 0 <= j < |fx| / 8 && 8 * j < i && InteriorCell(|fx|, 8 * j, sx, sy, 0) ==>
         tx[j] == FxBy(fx, fy, 8 * j, sx, sy) && ty[j] == FyBx(fx, fy, 8 * j, sx, sy)
  }

  /** The temporaries after the whole first loop: the averages on every
      interior cell. */
  ghost predicate TemporariesOf2D(fx: seq<real>, fy: seq<real>, tx: seq<real>, ty: seq<real>, sx: int, sy: int)
  {
    AveragesUpTo2D(fx, fy, tx, ty, sx, sy, |fx|)
  }

  /** One iteration of the first loop fills the temporaries of cell i. */
  lemma AveragesStep2D(fx: seq<real>, fy: seq<real>, tx: seq<real>, ty: seq<real>, sx: int, sy: int, i: int)
    requires AveragesUpTo2D(fx, fy, tx, ty, sx, sy, i) && |fx| % 8 == 0 && i % 8 == 0
    requires InteriorCell(|fx|, i, sx, sy, 0)
    ensures AveragesUpTo2D(fx, fy, tx[i / 8 := FxBy(fx, fy, i, sx, sy)], ty[i / 8 := FyBx(fx, fy, i, sx, sy)],
                           sx, sy, i + 8)
  {
  }

  /** Cells past the interior are never read: reaching i >= stride0 - sx is
      as good as reaching the end. */
  lemma AveragesDone2D(fx: seq<real>, fy: seq<real>, tx: seq<real>, ty: seq<real>, sx: int, sy: int, i: int)
    requires AveragesUpTo2D(fx, fy, tx, ty, sx, sy, i) && i >= |fx| - sx
    ensures TemporariesOf2D(fx, fy, tx, ty, sx, sy)
  {
  }

  /** fx, fy once the second loop of constraint_transport_2d, which copies
      the temporaries tx, ty into every cell, has reached offset i. */
  ghost predicate WrittenUpTo2D(fx0: seq<real>, fy0: seq<real>, fx: seq<real>, fy: seq<real>,
                                tx: seq<real>, ty: seq<real>, i: int)
  {
    && |fy0| == |fx0| && |fx| == |fx0| && |fy| == |fx0| && |fx0| % 8 == 0
    && |tx| == |fx0| / 8 && |ty| == |fx0| / 8 && 0 <= i <= |fx0| && i % 8 == 0
    && (forall q :: 0 <= q < i && q % 8 == Bx ==> fx[q] == 0.0 && fy[q] == ty[q / 8])
    && (forall q :: 0 <= q < i && q % 8 == By ==> fx[q] == tx[q / 8] && fy[q] == 0.0)
    && (forall q :: 0 <= q < |fx| && (i <= q || (q % 8 != Bx && q % 8 != By)) ==>
          fx[q] == fx0[q] && fy[q] == fy0[q])
  }

  /** fx, fy after the whole second loop. */
  ghost predicate WrittenBack2D(fx0: seq<real>, fy0: seq<real>, fx: seq<real>, fy: seq<real>,
                                tx: seq<real>, ty: seq<real>)
  {
    WrittenUpTo2D(fx0, fy0, fx, fy, tx, ty, |fx0|)
  }

  /** One iteration of the second loop writes the four field slots of cell i. */
  lemma WrittenStep2D(fx0: seq<real>, fy0: seq<real>, fx: seq<real>, fy: seq<real>,
                      tx: seq<real>, ty: seq<real>, i: int)
    requires WrittenUpTo2D(fx0, fy0, fx, fy, tx, ty, i) && i < |fx0|
    ensures i + 8 <= |fx0|
    ensures WrittenUpTo2D(fx0, fy0, fx[i + Bx := 0.0][i + By := tx[i / 8]],
                          fy[i + Bx := ty[i / 8]][i + By := 0.0], tx, ty, i + 8)
  {
  }

  /** The two loops together transport the fluxes. */
  lemma WrittenBackTransported2D(fx0: seq<real>, fy0: seq<real>, fx: seq<real>, fy: seq<real>,
                                 tx: seq<real>, ty: seq<real>, sx: int, sy: int)
    requires 0 <= sy <= sx
    requires TemporariesOf2D(fx0, fy0, tx, ty, sx, sy) && WrittenBack2D(fx0, fy0, fx, fy, tx, ty)
    ensures Transported2D(fx0, fy0, fx, fy, sx, sy)
  {
    forall q | 0 <= q < |fx| && q % 8 == By && InteriorCell(|fx|, q - By, sx, sy, 0)
      ensures fx[q] == FxBy(fx0, fy0, q - By, sx, sy)
    {
      assert q - By == 8 * (q / 8);
    }
    forall q | 0 <= q < |fy| && q % 8 == Bx && InteriorCell(|fx|, q - Bx, sx, sy, 0)
      ensures fy[q] == FyBx(fx0, fy0, q - Bx, sx, sy)
    {
      assert q - Bx == 8 * (q / 8);
    }
  }

  /** fx, fy, fz after constraint_transport_3d: the normal field flux of each
      array is 0, the two transverse ones of every interior cell are the
      averages, and slots 0 to 4 keep their raw values. */
  ghost predicate Transported3D(fx0: seq<real>, fy0: seq<real>, fz0: seq<real>,
                                fx: seq<real>, fy: seq<real>, fz: seq<real>, sx: int, sy: int, sz: int)
  {
    && |fx0| == |fx| && |fy0| == |fx| && |fz0| == |fx| && |fy| == |fx| && |fz| == |fx|
    && |fx| % 8 == 0 && 0 <= sz <= sy <= sx
    && (forall q :: 0 <= q < |fx| && q % 8 == Bx ==> fx[q] == 0.0)
    && (forall q :: 0 <= q < |fy| && q % 8 == By ==> fy[q] == 0.0)
    && (forall q :: 0 <= q < |fz| && q % 8 == Bz ==> fz[q] == 0.0)
    && (forall q :: 0 <= q < |fx| && q % 8 == By && InteriorCell(|fx|, q - By, sx, sy, sz) ==>
          fx[q] == FxBy(fx0, fy0, q - By, sx, sy))
    && (forall q :: 0 <= q < |fx| && q % 8 == Bz && InteriorCell(|fx|, q - Bz, sx, sy, sz) ==>
          fx[q] == FxBz(fx0, fz0, q - Bz, sx, sy, sz))
    && (forall q :: 0 <= q < |fy| && q % 8 == Bx && InteriorCell(|fx|, q - Bx, sx, sy, sz) ==>
          fy[q] == FyBx(fx0, fy0, q - Bx, sx, sy))
    && (forall q :: 0 <= q < |fy| && q % 8 == Bz && InteriorCell(|fx|, q - Bz, sx, sy, sz) ==>
          fy[q] == FyBz(fy0, fz0, q - Bz, sx, sy, sz))
    && (forall q :: 0 <= q < |fz| && q % 8 == Bx && InteriorCell(|fx|, q - Bx, sx, sy, sz) ==>
          fz[q] == FzBx(fx0, fz0, q - Bx, sx, sy, sz))
    && (forall q :: 0 <= q < |fz| && q % 8 == By && InteriorCell(|fx|, q - By, sx, sy, sz) ==>
          fz[q] == FzBy(fy0, fz0, q - By, sx, sy, sz))
    && (forall q {:trigger fx[q]} :: 0 <= q < |fx| && q % 8 < Bx ==> fx[q] == fx0[q])
    && (forall q {:trigger fy[q]} :: 0 <= q < |fy| && q % 8 < Bx ==> fy[q] == fy0[q])
    && (forall q {:trigger fz[q]} :: 0 <= q < |fz| && q % 8 < Bx ==> fz[q] == fz0[q])
  }

  /** The six temporaries of constraint_transport_3d once its first loop
      has reached cell offset i. */
  ghost predicate AveragesUpTo3D(fx: seq<real>, fy: seq<real>, fz: seq<real>,
                                 txy: seq<real>, txz: seq<real>, tyx: seq<real>,
                                 tyz: seq<real>, tzx: seq<real>, tzy: seq<real>,
                                 sx: int, sy: int, sz: int, i: int)
  {
    && |fy| == |fx| && |fz| == |fx|
    && |txy| == |fx| / 8 && |txz| == |fx| / 8 && |tyx| == |fx| / 8
    && |tyz| == |fx| / 8 && |tzx| == |fx| / 8 && |tzy| == |fx| / 8
    && forall j :: 0 <= j < |fx| / 8 && 8 * j < i && InteriorCell(|fx|, 8 * j, sx, sy, sz) ==>
         && txy[j] == FxBy(fx, fy, 8 * j, sx, sy) && tyx[j] == FyBx(fx, fy, 8 * j, sx, sy)
         && tyz[j] == FyBz(fy, fz, 8 * j, sx, sy, sz) && tzy[j] == FzBy(fy, fz, 8 * j, sx, sy, sz)
         && tzx[j] == FzBx(fx, fz, 8 * j, sx, sy, sz) && txz[j] == FxBz(fx, fz, 8 * j, sx, sy, sz)
  }

  /** The six temporaries after the whole first loop. */
  ghost predicate TemporariesOf3D(fx: seq<real>, fy: seq<real>, fz: seq<real>,
                                  txy: seq<real>, txz: seq<real>, tyx: seq<real>,
                                  tyz: seq<real>, tzx: seq<real>, tzy: seq<real>,
                                  sx: int, sy: int, sz: int)
  {
    AveragesUpTo3D(fx, fy, fz, txy, txz, tyx, tyz, tzx, tzy, sx, sy, sz, |fx|)
  }

  /** One iteration of the first loop fills the six temporaries of cell i. */
  lemma AveragesStep3D(fx: seq<real>, fy: seq<real>, fz: seq<real>,
                       txy: seq<real>, txz: seq<real>, tyx: seq<real>,
                       tyz: seq<real>, tzx: seq<real>, tzy: seq<real>,
                       sx: int, sy: int, sz: int, i: int)
    requires AveragesUpTo3D(fx, fy, fz, txy, txz, tyx, tyz, tzx, tzy, sx, sy, sz, i)
    requires |fx| % 8 == 0 && i % 8 == 0 && InteriorCell(|fx|, i, sx, sy, sz)
    ensures AveragesUpTo3D(fx, fy, fz,
                           txy[i / 8 := FxBy(fx, fy, i, sx, sy)], txz[i / 8 := FxBz(fx, fz, i, sx, sy, sz)],
                           tyx[i / 8 := FyBx(fx, fy, i, sx, sy)], tyz[i / 8 := FyBz(fy, fz, i, sx, sy, sz)],
                           tzx[i / 8 := FzBx(fx, fz, i, sx, sy, sz)], tzy[i / 8 := FzBy(fy, fz, i, sx, sy, sz)],
                           sx, sy, sz, i + 8)
  {
  }

  /** Reaching i >= stride0 - sx is as good as reaching the end. */
  lemma AveragesDone3D(fx: seq<real>, fy: seq<real>, fz: seq<real>,
                       txy: seq<real>, txz: seq<real>, tyx: seq<real>,
                       tyz: seq<real>, tzx: seq<real>, tzy: seq<real>,
                       sx: int, sy: int, sz: int, i: int)
    requires AveragesUpTo3D(fx, fy, fz, txy, txz, tyx, tyz, tzx, tzy, sx, sy, sz, i) && i >= |fx| - sx
    ensures TemporariesOf3D(fx, fy, fz, txy, txz, tyx, tyz, tzx, tzy, sx, sy, sz)
  {
  }

  /** A column of zeros, one per cell: the normal-field slot of each flux. */
  function Zeros(m: nat): (z: seq<real>)
    ensures |z| == m && forall j :: 0 <= j < m ==> z[j] == 0.0
  {
    seq(m, _ => 0.0)
  }

  /** One flux array once the second loop of constraint_transport_3d has
      reached offset i: the field slots Bx, By, Bz of the cells before i
      hold the columns cx, cy, cz, everything else is untouched. */
  ghost predicate FieldSlotsUpTo(a0: seq<real>, a: seq<real>, cx: seq<real>, cy: seq<real>, cz: seq<real>, i: int)
  {
    && |a| == |a0| && |a0| % 8 == 0 && 0 <= i <= |a0| && i % 8 == 0
    && |cx| == |a0| / 8 && |cy| == |a0| / 8 && |cz| == |a0| / 8
    && (forall q :: 0 <= q < i && q % 8 == Bx ==> a[q] == cx[q / 8])
    && (forall q :: 0 <= q < i && q % 8 == By ==> a[q] == cy[q / 8])
    && (forall q :: 0 <= q < i && q % 8 == Bz ==> a[q] == cz[q / 8])
    && (forall q {:trigger a[q]} :: 0 <= q < |a| && (i <= q || q % 8 < Bx) ==> a[q] == a0[q])
  }

  /** One iteration of the second loop writes the three field slots of cell i. */
  lemma FieldSlotsStep(a0: seq<real>, a: seq<real>, cx: seq<real>, cy: seq<real>, cz: seq<real>, i: int)
    requires FieldSlotsUpTo(a0, a, cx, cy, cz, i) && i < |a0|
    ensures i + 8 <= |a0|
    ensures FieldSlotsUpTo(a0, a[i + Bx := cx[i / 8]][i + By := cy[i / 8]][i + Bz := cz[i / 8]], cx, cy, cz, i + 8)
  {
  }

  /** The fluxes after the whole second loop of constraint_transport_3d. */
  ghost predicate WrittenBack3D(fx0: seq<real>, fy0: seq<real>, fz0: seq<real>,
                                fx: seq<real>, fy: seq<real>, fz: seq<real>,
                                txy: seq<real>, txz: seq<real>, tyx: seq<real>,
                                tyz: seq<real>, tzx: seq<real>, tzy: seq<real>)
  {
    && FieldSlotsUpTo(fx0, fx, Zeros(|fx0| / 8), txy, txz, |fx0|)
    && FieldSlotsUpTo(fy0, fy, tyx, Zeros(|fx0| / 8), tyz, |fx0|)
    && FieldSlotsUpTo(fz0, fz, tzx, tzy, Zeros(|fx0| / 8), |fx0|)
  }

  /** What the second loop leaves in Fx. */
  lemma TransportedX3D(fx0: seq<real>, fy0: seq<real>, fz0: seq<real>,
                     txy: seq<real>, txz: seq<real>, tyx: seq<real>,
                     tyz: seq<real>, tzx: seq<real>, tzy: seq<real>,
                     sx: int, sy: int, sz: int, fx: seq<real>)
    requires 0 <= sz <= sy <= sx && TemporariesOf3D(fx0, fy0, fz0, txy, txz, tyx, tyz, tzx, tzy, sx, sy, sz)
    requires FieldSlotsUpTo(fx0, fx, Zeros(|fx0| / 8), txy, txz, |fx0|)
    ensures forall q :: 0 <= q < |fx| && q % 8 == Bx ==> fx[q] == 0.0
    ensures forall q :: 0 <= q < |fx| && q % 8 == By && InteriorCell(|fx|, q - By, sx, sy, sz) ==>
              fx[q] == FxBy(fx0, fy0, q - By, sx, sy)
    ensures forall q :: 0 <= q < |fx| && q % 8 == Bz && InteriorCell(|fx|, q - Bz, sx, sy, sz) ==>
              fx[q] == FxBz(fx0, fz0, q - Bz, sx, sy, sz)
  {
    forall q | 0 <= q < |fx| && InteriorCell(|fx|, q - q % 8, sx, sy, sz)
      ensures q % 8 == By ==> fx[q] == FxBy(fx0, fy0, q - By, sx, sy)
      ensures q % 8 == Bz ==> fx[q] == FxBz(fx0, fz0, q - Bz, sx, sy, sz)
    {
      assert q - q % 8 == 8 * (q / 8);
    }
  }

  /** What the second loop leaves in Fy. */
  lemma TransportedY3D(fx0: seq<real>, fy0: seq<real>, fz0: seq<real>,
                     txy: seq<real>, txz: seq<real>, tyx: seq<real>,
                     tyz: seq<real>, tzx: seq<real>, tzy: seq<real>,
                     sx: int, sy: int, sz: int, fy: seq<real>)
    requires 0 <= sz <= sy <= sx && TemporariesOf3D(fx0, fy0, fz0, txy, txz, tyx, tyz, tzx, tzy, sx, sy, sz)
    requires FieldSlotsUpTo(fy0, fy, tyx, Zeros(|fx0| / 8), tyz, |fx0|)
    ensures forall q :: 0 <= q < |fy| && q % 8 == By ==> fy[q] == 0.0
    ensures forall q :: 0 <= q < |fy| && q % 8 == Bx && InteriorCell(|fy|, q - Bx, sx, sy, sz) ==>
              fy[q] == FyBx(fx0, fy0, q - Bx, sx, sy)
    ensures forall q :: 0 <= q < |fy| && q % 8 == Bz && InteriorCell(|fy|, q - Bz, sx, sy, sz) ==>
              fy[q] == FyBz(fy0, fz0, q - Bz, sx, sy, sz)
  {
    forall q | 0 <= q < |fy| && InteriorCell(|fy|, q - q % 8, sx, sy, sz)
      ensures q % 8 == Bx ==> fy[q] == FyBx(fx0, fy0, q - Bx, sx, sy)
      ensures q % 8 == Bz ==> fy[q] == FyBz(fy0, fz0, q - Bz, sx, sy, sz)
    {
      assert q - q % 8 == 8 * (q / 8);
    }
  }

  /** What the second loop leaves in Fz. */
  lemma TransportedZ3D(fx0: seq<real>, fy0: seq<real>, fz0: seq<real>,
                     txy: seq<real>, txz: seq<real>, tyx: seq<real>,
                     tyz: seq<real>, tzx: seq<real>, tzy: seq<real>,
                     sx: int, sy: int, sz: int, fz: seq<real>)
    requires 0 <= sz <= sy <= sx && TemporariesOf3D(fx0, fy0, fz0, txy, txz, tyx, tyz, tzx, tzy, sx, sy, sz)
    requires FieldSlotsUpTo(fz0, fz, tzx, tzy, Zeros(|fx0| / 8), |fx0|)
    ensures forall q :: 0 <= q < |fz| && q % 8 == Bz ==> fz[q] == 0.0
    ensures forall q :: 0 <= q < |fz| && q % 8 == Bx && InteriorCell(|fz|, q - Bx, sx, sy, sz) ==>
              fz[q] == FzBx(fx0, fz0, q - Bx, sx, sy, sz)
    ensures forall q :: 0 <= q < |fz| && q % 8 == By && InteriorCell(|fz|, q - By, sx, sy, sz) ==>
              fz[q] == FzBy(fy0, fz0, q - By, sx, sy, sz)
  {
    forall q | 0 <= q < |fz| && InteriorCell(|fz|, q - q % 8, sx, sy, sz)
      ensures q % 8 == Bx ==> fz[q] == FzBx(fx0, fz0, q - Bx, sx, sy, sz)
      ensures q % 8 == By ==> fz[q] == FzBy(fy0, fz0, q - By, sx, sy, sz)
    {
      assert q - q % 8 == 8 * (q / 8);
    }
  }

  /** The two loops of constraint_transport_3d together transport the fluxes. */
  lemma WrittenBackTransported3D(fx0: seq<real>, fy0: seq<real>, fz0: seq<real>,
                                 txy: seq<real>, txz: seq<real>, tyx: seq<real>,
                                 tyz: seq<real>, tzx: seq<real>, tzy: seq<real>,
                                 fx: seq<real>, fy: seq<real>, fz: seq<real>, sx: int, sy: int, sz: int)
    requires 0 <= sz <= sy <= sx
    requires TemporariesOf3D(fx0, fy0, fz0, txy, txz, tyx, tyz, tzx, tzy, sx, sy, sz)
    requires WrittenBack3D(fx0, fy0, fz0, fx, fy, fz, txy, txz, tyx, tyz, tzx, tzy)
    ensures Transported3D(fx0, fy0, fz0, fx, fy, fz, sx, sy, sz)
  {
    TransportedX3D(fx0, fy0, fz0, txy, txz, tyx, tyz, tzx, tzy, sx, sy, sz, fx);
    TransportedY3D(fx0, fy0, fz0, txy, txz, tyx, tyz, tzx, tzy, sx, sy, sz, fy);
    TransportedZ3D(fx0, fy0, fz0, txy, txz, tyx, tyz, tzx, tzy, sx, sy, sz, fz);
  }
}
