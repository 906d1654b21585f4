/** The semi-discrete update of dUdt_1d/2d/3d: the time derivative L of the
    conserved state is minus the flux difference across each cell. In one
    dimension the update telescopes, so with the zero guard fluxes Fiph
    writes it conserves every conserved quantity in total; in two
    dimensions the field rates built from transported fluxes have zero
    corner divergence. */
module Update {
  import opened StateVec
  import opened Sweep
  import opened ConstraintTransport

  /** L after the loop of dUdt_1d: -(F[i] - F[i - S])/dx from S on, the
      entries before S untouched. */
  function Rate1D(l0: seq<real>, f: seq<real>, s: int, dx: real): (l: seq<real>)
    requires |f| == |l0| && 0 <= s && dx != 0.0
    ensures |l| == |l0|
    ensures forall i :: 0 <= i < |l| ==> l[i] == (if i < s then l0[i] else -(f[i] - f[i - s]) / dx)
  {
    seq(|l0|, i requires 0 <= i < |l0| => if i < s then l0[i] else -(f[i] - f[i - s]) / dx)
  }

  /** L after the loop of dUdt_2d, from sx on. */
  function Rate2D(l0: seq<real>, f: seq<real>, g: seq<real>, sx: int, sy: int, dx: real, dy: real): (l: seq<real>)
    requires |f| == |l0| && |g| == |l0| && 0 <= sy <= sx && dx != 0.0 && dy != 0.0
    ensures |l| == |l0|
    ensures forall i :: 0 <= i < |l| ==>
              l[i] == (if i < sx then l0[i] else -(f[i] - f[i - sx]) / dx - (g[i] - g[i - sy]) / dy)
  {
    seq(|l0|, i requires 0 <= i < |l0| =>
      if i < sx then l0[i] else -(f[i] - f[i - sx]) / dx - (g[i] - g[i - sy]) / dy)
  }

  /** L after the loop of dUdt_3d, from sx on. */
  function Rate3D(l0: seq<real>, f: seq<real>, g: seq<real>, h: seq<real>,
                  sx: int, sy: int, sz: int, dx: real, dy: real, dz: real): (l: seq<real>)
    requires |f| == |l0| && |g| == |l0| && |h| == |l0| && 0 <= sz <= sy <= sx
    requires dx != 0.0 && dy != 0.0 && dz != 0.0
    ensures |l| == |l0|
    ensures forall i :: 0 <= i < |l| ==>
              l[i] == (if i < sx then l0[i]
                       else -(f[i] - f[i - sx]) / dx - (g[i] - g[i - sy]) / dy - (h[i] - h[i - sz]) / dz)
  {
    seq(|l0|, i requires 0 <= i < |l0| =>
      if i < sx then l0[i] else -(f[i] - f[i - sx]) / dx - (g[i] - g[i - sy]) / dy - (h[i] - h[i - sz]) / dz)
  }

  // ------------------------------------------------------------ conservation

  /** c[lo] + ... + c[hi - 1]. */
  function Sum(c: seq<real>, lo: int, hi: int): real
    requires 0 <= lo <= hi <= |c|
    decreases hi - lo
  {
    if lo == hi then 0.0 else Sum(c, lo, hi - 1) + c[hi - 1]
  }

  /** Slot k of every cell of a: one conserved quantity over the grid. */
  function Column(a: seq<real>, k: int): (c: seq<real>)
    requires 0 <= k < 8
    ensures |c| == |a| / 8 && forall j :: 0 <= j < |c| ==> c[j] == a[8 * j + k]
  {
    seq(|a| / 8, j requires 0 <= j < |a| / 8 => a[8 * j + k])
  }

  /** Sum peeled from the front. */
  lemma {:induction false} SumFront(c: seq<real>, lo: int, hi: int)
    requires 0 <= lo < hi <= |c|
    ensures Sum(c, lo, hi) == c[lo] + Sum(c, lo + 1, hi)
    decreases hi - lo
  {
    if hi > lo + 1 {
      SumFront(c, lo, hi - 1);
    }
  }

  /** A sum of zeros. */
  lemma {:induction false} SumZero(c: seq<real>, lo: int, hi: int)
    requires 0 <= lo <= hi <= |c| && forall j :: lo <= j < hi ==> c[j] == 0.0
    ensures Sum(c, lo, hi) == 0.0
    decreases hi - lo
  {
    if lo < hi {
      SumZero(c, lo, hi - 1);
    }
  }

  /** The differences d[j] = c[j] - c[j - m] telescope: their sum over
      [m, hi) is the last m entries minus the first m. */
  lemma {:induction false} Telescope(d: seq<real>, c: seq<real>, m: int, hi: int)
    requires |d| == |c| && 0 < m <= hi <= |c|
    requires forall j :: m <= j < |c| ==> d[j] == c[j] - c[j - m]
    ensures Sum(d, m, hi) == Sum(c, hi - m, hi) - Sum(c, 0, m)
    decreases hi
  {
    if hi > m {
      Telescope(d, c, m, hi - 1);
      SumFront(c, hi - 1 - m, hi - 1);
    }
  }

  /** A common factor -1/dx comes out of a sum. */
  lemma {:induction false} SumScaled(r: seq<real>, d: seq<real>, dx: real, lo: int, hi: int)
    requires |r| == |d| && 0 <= lo <= hi <= |r| && dx != 0.0
    requires forall j :: lo <= j < hi ==> r[j] == -d[j] / dx
    ensures Sum(r, lo, hi) == -Sum(d, lo, hi) / dx
    decreases hi - lo
  {
    if lo < hi {
      SumScaled(r, d, dx, lo, hi - 1);
      assert -Sum(d, lo, hi - 1) / dx + -d[hi - 1] / dx == -(Sum(d, lo, hi - 1) + d[hi - 1]) / dx;
    }
  }

  /** With the fluxes zero on the first S entries and the last 2 S (what
      Fiph leaves there), the rates of dUdt_1d over the updated cells sum
      to zero in every slot: the update conserves each conserved quantity. */
  lemma Conserved1D(l0: seq<real>, f: seq<real>, s: int, dx: real, k: int)
    requires |f| == |l0| && |f| % 8 == 0 && 0 < s && s % 8 == 0 && 2 * s <= |f| && dx != 0.0 && 0 <= k < 8
    requires forall q :: 0 <= q < s ==> f[q] == 0.0
    requires forall q :: |f| - 2 * s <= q < |f| ==> f[q] == 0.0
    ensures Sum(Column(Rate1D(l0, f, s, dx), k), s / 8, |f| / 8) == 0.0
  {
    var c := Column(f, k);
    var r := Column(Rate1D(l0, f, s, dx), k);
    ColumnRates(l0, f, s, dx, k);
    ColumnGuards(f, s, k);
    TelescopedRates(r, c, s / 8, dx);
  }

  /** r holds the rates -(c[j] - c[j - m])/dx from m on. */
  ghost predicate DifferenceRates(r: seq<real>, c: seq<real>, m: int, dx: real)
  {
    |r| == |c| && 0 <= m && dx != 0.0 && forall j :: m <= j < |c| ==> r[j] == -(c[j] - c[j - m]) / dx
  }

  /** c is zero on its first m and its last m entries. */
  ghost predicate ZeroEnds(c: seq<real>, m: int)
  {
    && 0 <= m <= |c|
    && (forall j :: 0 <= j < m ==> c[j] == 0.0)
    && (forall j :: |c| - m <= j < |c| ==> c[j] == 0.0)
  }

  /** Rates -(c[j] - c[j - m])/dx over [m, |c|), with c zero on its first
      and last m entries, sum to zero. */
  lemma TelescopedRates(r: seq<real>, c: seq<real>, m: int, dx: real)
    requires 0 < m && 2 * m <= |c| && DifferenceRates(r, c, m, dx) && ZeroEnds(c, m)
    ensures Sum(r, m, |c|) == 0.0
  {
    ScaledDifferences(r, c, Differences(c, m), m, dx);
  }

  /** The same, for any d holding the differences of c. */
  lemma ScaledDifferences(r: seq<real>, c: seq<real>, d: seq<real>, m: int, dx: real)
    requires |d| == |c| && 0 < m && 2 * m <= |c| && DifferenceRates(r, c, m, dx) && ZeroEnds(c, m)
    requires forall j :: m <= j < |c| ==> d[j] == c[j] - c[j - m]
    ensures Sum(r, m, |c|) == 0.0
  {
    DifferencesSum(c, d, m);
    forall j | m <= j < |c|
      ensures r[j] == -d[j] / dx
    {
      assert d[j] == c[j] - c[j - m];
    }
    SumScaled(r, d, dx, m, |c|);
    assert -0.0 / dx == 0.0;
  }

  /** Differences of c with its first and last m entries zero sum to zero. */
  lemma DifferencesSum(c: seq<real>, d: seq<real>, m: int)
    requires |d| == |c| && 0 < m && 2 * m <= |c|
    requires forall j :: m <= j < |c| ==> d[j] == c[j] - c[j - m]
    requires forall j :: 0 <= j < m ==> c[j] == 0.0
    requires forall j :: |c| - m <= j < |c| ==> c[j] == 0.0
    ensures Sum(d, m, |c|) == 0.0
  {
    Telescope(d, c, m, |c|);
    SumZero(c, |c| - m, |c|);
    SumZero(c, 0, m);
  }

  /** d[j] = c[j] - c[j - m] from m on. */
  function Differences(c: seq<real>, m: int): (d: seq<real>)
    requires 0 <= m
    ensures |d| == |c| && forall j :: m <= j < |c| ==> d[j] == c[j] - c[j - m]
  {
    seq(|c|, j requires 0 <= j < |c| => if j < m then 0.0 else c[j] - c[j - m])
  }

  /** Slot k of the rates of dUdt_1d, cell by cell from cell S/8 on. */
  lemma ColumnRates(l0: seq<real>, f: seq<real>, s: int, dx: real, k: int)
    requires |f| == |l0| && 0 < s && s % 8 == 0 && dx != 0.0 && 0 <= k < 8
    ensures DifferenceRates(Column(Rate1D(l0, f, s, dx), k), Column(f, k), s / 8, dx)
  {
    SlotDifferences(Column(Rate1D(l0, f, s, dx), k), Column(f, k), Rate1D(l0, f, s, dx), f, s / 8, s, k, dx);
  }

  /** Slot k of rates l = -(f[i] - f[i - s])/dx, with s = 8 m, are the rates
      of slot k of f. */
  lemma SlotDifferences(r: seq<real>, c: seq<real>, l: seq<real>, f: seq<real>,
                        m: int, s: int, k: int, dx: real)
    requires |r| == |c| == |f| / 8 && |l| == |f| && 0 <= k < 8 && s == 8 * m && 0 <= m && dx != 0.0
    requires forall j :: 0 <= j < |r| ==> r[j] == l[8 * j + k]
    requires forall j :: 0 <= j < |c| ==> c[j] == f[8 * j + k]
    requires forall i :: s <= i < |l| ==> l[i] == -(f[i] - f[i - s]) / dx
    ensures DifferenceRates(r, c, m, dx)
  {
    forall j | m <= j < |c|
      ensures r[j] == -(c[j] - c[j - m]) / dx
    {
      var p := 8 * j + k;
      assert 8 * (j - m) + k == p - s;
      RateFromCells(r, c, l, f, j, m, p, s, dx);
    }
  }

  /** The rate of cell j read through the flat arrays at entry p. */
  lemma RateFromCells(r: seq<real>, c: seq<real>, l: seq<real>, f: seq<real>,
                      j: int, m: int, p: int, s: int, dx: real)
    requires 0 <= m <= j && j < |r| && j < |c| && 0 <= s <= p && p < |l| && p < |f| && dx != 0.0
    requires r[j] == l[p] && l[p] == -(f[p] - f[p - s]) / dx && c[j] == f[p] && c[j - m] == f[p - s]
    ensures r[j] == -(c[j] - c[j - m]) / dx
  {
  }

  /** Slot k of the guard cells: zero in the first S/8 cells and the last. */
  lemma ColumnGuards(f: seq<real>, s: int, k: int)
    requires |f| % 8 == 0 && 0 < s && s % 8 == 0 && 2 * s <= |f| && 0 <= k < 8
    requires forall q :: 0 <= q < s ==> f[q] == 0.0
    requires forall q :: |f| - 2 * s <= q < |f| ==> f[q] == 0.0
    ensures ZeroEnds(Column(f, k), s / 8)
  {
    var c, m := Column(f, k), s / 8;
    forall j | 0 <= j < m
      ensures c[j] == 0.0
    {
      assert 8 * j + k < s;
    }
    forall j | |c| - m <= j < |c|
      ensures c[j] == 0.0
    {
      assert |f| - 2 * s <= 8 * j + k < |f|;
    }
  }

  /** What dUdt_1d computes from a sweep's output conserves every slot. */
  lemma SweepConserved1D(c: Setup, g: Grid, f: seq<real>, l0: seq<real>, dx: real, k: int)
    requires Solvable(c, g) && SweepWritten(c, g, f) && |l0| == |f| && dx != 0.0 && 0 <= k < 8
    ensures Sum(Column(Rate1D(l0, f, c.s, dx), k), c.s / 8, |f| / 8) == 0.0
  {
    Conserved1D(l0, f, c.s, dx, k);
  }

  // ------------------------------------------------------ divergence in 2D

  /** The corner-centred divergence of the field rates kept in L, at the
      corner i - (sx + sy)/2. */
  function FieldDivergence2D(l: seq<real>, i: int, sx: int, sy: int, dx: real, dy: real): real
    requires 0 <= sy <= sx <= i - sx - sy && i + By < |l| && dx != 0.0 && dy != 0.0
  {
    Divergence2D(l[Bx + i], l[Bx + (i - sy)], l[Bx + (i - sx)], l[Bx + (i - sx - sy)],
                 l[By + i], l[By + (i - sx)], l[By + (i - sy)], l[By + (i - sx - sy)], dx, dy)
  }

  /** Slot t of cell j, and of the cells sx and sy before it. */
  lemma SlotsOfCell(j: int, sx: int, sy: int, t: int)
    requires j % 8 == 0 && sx % 8 == 0 && sy % 8 == 0 && 0 <= t < 8
    ensures (t + j) % 8 == t && (t + j - sx) % 8 == t && (t + j - sy) % 8 == t
  {
    var a, b, c := j / 8, sx / 8, sy / 8;
    assert t + j == 8 * a + t && t + j - sx == 8 * (a - b) + t && t + j - sy == 8 * (a - c) + t;
  }

  /** The transported fluxes the Bx and By rates of cell j read. */
  lemma TransportedAt(fx0: seq<real>, fy0: seq<real>, fx: seq<real>, fy: seq<real>, sx: int, sy: int, j: int)
    requires Transported2D(fx0, fy0, fx, fy, sx, sy) && j % 8 == 0 && sx % 8 == 0 && sy % 8 == 0
    requires InteriorCell(|fx|, j, sx, sy, 0) && InteriorCell(|fx|, j - sx, sx, sy, 0)
    requires InteriorCell(|fx|, j - sy, sx, sy, 0)
    ensures fx[Bx + j] == 0.0 && fx[Bx + j - sx] == 0.0
    ensures fy[Bx + j] == FyBx(fx0, fy0, j, sx, sy) && fy[Bx + j - sy] == FyBx(fx0, fy0, j - sy, sx, sy)
    ensures fy[By + j] == 0.0 && fy[By + j - sy] == 0.0
    ensures fx[By + j] == FxBy(fx0, fy0, j, sx, sy) && fx[By + j - sx] == FxBy(fx0, fy0, j - sx, sx, sy)
  {
    SlotsOfCell(j, sx, sy, Bx);
    SlotsOfCell(j, sx, sy, By);
    assert Bx + j - sy - Bx == j - sy && By + j - sx - By == j - sx;
    assert At(fx, Bx + j) == 0.0 && At(fx, Bx + j - sx) == 0.0;
    assert At(fy, Bx + j) == FyBx(fx0, fy0, j, sx, sy) && At(fy, Bx + j - sy) == FyBx(fx0, fy0, j - sy, sx, sy);
    assert At(fy, By + j) == 0.0 && At(fy, By + j - sy) == 0.0;
    assert At(fx, By + j) == FxBy(fx0, fy0, j, sx, sy) && At(fx, By + j - sx) == FxBy(fx0, fy0, j - sx, sx, sy);
  }

  /** The Bx and By rates dUdt_2d leaves at cell j are RateBx and RateBy
      of the raw fluxes. */
  lemma RatesAt(fx0: seq<real>, fy0: seq<real>, fx: seq<real>, fy: seq<real>, l0: seq<real>,
                sx: int, sy: int, dx: real, dy: real, j: int)
    requires Transported2D(fx0, fy0, fx, fy, sx, sy) && |l0| == |fx| && dx != 0.0 && dy != 0.0
    requires j % 8 == 0 && sx % 8 == 0 && sy % 8 == 0 && RateStencil(|fx|, j, sx, sy)
    ensures Rate2D(l0, fx, fy, sx, sy, dx, dy)[Bx + j] == RateBx(fx0, fy0, j, sx, sy, dx, dy)
    ensures Rate2D(l0, fx, fy, sx, sy, dx, dy)[By + j] == RateBy(fx0, fy0, j, sx, sy, dx, dy)
  {
    var l := Rate2D(l0, fx, fy, sx, sy, dx, dy);
    TransportedAt(fx0, fy0, fx, fy, sx, sy, j);
    assert l[Bx + j] == -(fx[Bx + j] - fx[Bx + j - sx]) / dx - (fy[Bx + j] - fy[Bx + j - sy]) / dy;
    assert l[By + j] == -(fx[By + j] - fx[By + j - sx]) / dx - (fy[By + j] - fy[By + j - sy]) / dy;
    RateBxFrom(fx0, fy0, fx, fy, l, sx, sy, dx, dy, j);
    RateByFrom(fx0, fy0, fx, fy, l, sx, sy, dx, dy, j);
  }

  /** The Bx rate of cell j, from the transported fluxes it reads. */
  lemma RateBxFrom(fx0: seq<real>, fy0: seq<real>, fx: seq<real>, fy: seq<real>, l: seq<real>,
                   sx: int, sy: int, dx: real, dy: real, j: int)
    requires |fx| == |fy| == |fx0| == |fy0| == |l| && 0 <= sy <= sx && dx != 0.0 && dy != 0.0
    requires InteriorCell(|fx|, j, sx, sy, 0) && InteriorCell(|fx|, j - sy, sx, sy, 0)
    requires fx[Bx + j] == 0.0 && fx[Bx + j - sx] == 0.0
    requires fy[Bx + j] == FyBx(fx0, fy0, j, sx, sy) && fy[Bx + j - sy] == FyBx(fx0, fy0, j - sy, sx, sy)
    requires l[Bx + j] == -(fx[Bx + j] - fx[Bx + j - sx]) / dx - (fy[Bx + j] - fy[Bx + j - sy]) / dy
    ensures l[Bx + j] == RateBx(fx0, fy0, j, sx, sy, dx, dy)
  {
  }

  /** The By rate of cell j, from the transported fluxes it reads. */
  lemma RateByFrom(fx0: seq<real>, fy0: seq<real>, fx: seq<real>, fy: seq<real>, l: seq<real>,
                   sx: int, sy: int, dx: real, dy: real, j: int)
    requires |fx| == |fy| == |fx0| == |fy0| == |l| && 0 <= sy <= sx && dx != 0.0 && dy != 0.0
    requires InteriorCell(|fx|, j, sx, sy, 0) && InteriorCell(|fx|, j - sx, sx, sy, 0)
    requires fy[By + j] == 0.0 && fy[By + j - sy] == 0.0
    requires fx[By + j] == FxBy(fx0, fy0, j, sx, sy) && fx[By + j - sx] == FxBy(fx0, fy0, j - sx, sx, sy)
    requires l[By + j] == -(fx[By + j] - fx[By + j - sx]) / dx - (fy[By + j] - fy[By + j - sy]) / dy
    ensures l[By + j] == RateBy(fx0, fy0, j, sx, sy, dx, dy)
  {
  }

  /** dUdt_2d after constraint transport keeps the magnetic field
      divergence-free: the corner divergence of its field rates is 0. */
  lemma TransportedRatesDivergenceFree(fx0: seq<real>, fy0: seq<real>, fx: seq<real>, fy: seq<real>,
                                       l0: seq<real>, sx: int, sy: int, dx: real, dy: real, i: int)
    requires Transported2D(fx0, fy0, fx, fy, sx, sy) && |l0| == |fx| && dx != 0.0 && dy != 0.0
    requires i % 8 == 0 && sx % 8 == 0 && sy % 8 == 0 && CornerStencil(|fx|, i, sx, sy)
    ensures FieldDivergence2D(Rate2D(l0, fx, fy, sx, sy, dx, dy), i, sx, sy, dx, dy) == 0.0
  {
    CornerCells(|fx|, i, sx, sy);
    TransportedRates(fx0, fy0, fx, fy, l0, sx, sy, dx, dy);
    DivergenceFree2D(fx0, fy0, i, sx, sy, dx, dy);
  }

  /** Every cell whose stencil lies inside the grid gets the rates RateBx
      and RateBy from dUdt_2d after constraint transport. */
  lemma TransportedRates(fx0: seq<real>, fy0: seq<real>, fx: seq<real>, fy: seq<real>,
                         l0: seq<real>, sx: int, sy: int, dx: real, dy: real)
    requires Transported2D(fx0, fy0, fx, fy, sx, sy) && |l0| == |fx| && dx != 0.0 && dy != 0.0
    requires sx % 8 == 0 && sy % 8 == 0
    ensures forall j {:trigger RateBx(fx0, fy0, j, sx, sy, dx, dy)} ::
              j % 8 == 0 && RateStencil(|fx|, j, sx, sy) ==>
                Rate2D(l0, fx, fy, sx, sy, dx, dy)[Bx + j] == RateBx(fx0, fy0, j, sx, sy, dx, dy)
    ensures forall j {:trigger RateBy(fx0, fy0, j, sx, sy, dx, dy)} ::
              j % 8 == 0 && RateStencil(|fx|, j, sx, sy) ==>
                Rate2D(l0, fx, fy, sx, sy, dx, dy)[By + j] == RateBy(fx0, fy0, j, sx, sy, dx, dy)
  {
    forall j | j % 8 == 0 && RateStencil(|fx|, j, sx, sy)
      ensures Rate2D(l0, fx, fy, sx, sy, dx, dy)[Bx + j] == RateBx(fx0, fy0, j, sx, sy, dx, dy)
      ensures Rate2D(l0, fx, fy, sx, sy, dx, dy)[By + j] == RateBy(fx0, fy0, j, sx, sy, dx, dy)
    {
      RatesAt(fx0, fy0, fx, fy, l0, sx, sy, dx, dy, j);
    }
  }

  /** Cell j and the cells sx and sy before it are interior. */
  predicate RateStencil(n: int, j: int, sx: int, sy: int)
  {
    InteriorCell(n, j, sx, sy, 0) && InteriorCell(n, j - sx, sx, sy, 0) && InteriorCell(n, j - sy, sx, sy, 0)
  }

  /** The four cells around a corner start at multiples of 8 and have
      their own stencils inside the grid. */
  lemma CornerCells(n: int, i: int, sx: int, sy: int)
    requires i % 8 == 0 && sx % 8 == 0 && sy % 8 == 0 && CornerStencil(n, i, sx, sy)
    ensures (i - sy) % 8 == 0 && (i - sx) % 8 == 0 && (i - sx - sy) % 8 == 0
    ensures RateStencil(n, i, sx, sy) && RateStencil(n, i - sy, sx, sy)
    ensures RateStencil(n, i - sx, sx, sy) && RateStencil(n, i - sx - sy, sx, sy)
  {
    DifferenceOfMultiples(i, sy);
    DifferenceOfMultiples(i, sx);
    DifferenceOfMultiples(i - sx, sy);
  }

  lemma DifferenceOfMultiples(x: int, y: int)
    requires x % 8 == 0 && y % 8 == 0
    ensures (x - y) % 8 == 0
  {
    var a, b := x / 8, y / 8;
    assert x - y == 8 * (a - b);
  }
}
