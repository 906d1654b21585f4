/** The back-end's process-wide state and its operations: lib_state, the
    slope_limiter function variable, libopstate, the strides and cell sizes, the
    internal buffers, and the loops of cons_to_prim_point, the array
    conversions, Fiph, constraint transport and dUdt_1d/2d/3d. Each method
    is proved equal to the functions of Convert, Cells, Sweep and
    ConstraintTransport. */
module Engine {
  import opened StateVec
  import opened Externals
  import opened Arith
  import opened Config
  import opened Wrappers
  import opened Limiters
  import opened Convert
  import opened Flux
  import opened Riemann
  import opened Reconstruct
  import opened Sweep
  import opened ConstraintTransport
  import opened Cells
  import opened Update

  /** enum LibraryOperationMode. */
  datatype OpState = Alive | Dead

  /** The guard cells initialize assumes on each side (Ng). */
  const GuardCells: int := 2

  /** a with the entries of b beyond |a| kept: memcpy of a over the head of b. */
  function Overlay(a: seq<real>, b: seq<real>): (r: seq<real>)
    requires |a| <= |b|
    ensures |r| == |b| && r[..|a|] == a && r[|a|..] == b[|a|..]
  {
    a + b[|a|..]
  }

  /** memcpy of stride[0] doubles into an array of that length copies it
      outright, and repeating the copy changes nothing. */
  lemma OverlayWhole(a: seq<real>, b: seq<real>)
    requires |a| <= |b|
    ensures |a| == |b| ==> Overlay(a, b) == a
    ensures Overlay(a, Overlay(a, b)) == Overlay(a, b)
  {
    var r := Overlay(a, b);
    assert r[|a|..] == b[|a|..];
    assert a + r[|a|..] == a + b[|a|..];
  }

  /** A fresh array holding the first n doubles of a (malloc and memcpy). */
  method CopyOf(a: array<real>, n: int) returns (r: array<real>)
    requires 0 <= n <= a.Length
    ensures fresh(r) && r.Length == n && r[..] == a[..n]
  {
    r := new real[n];
    var i := 0;
    while i < n
      invariant 0 <= i <= n
      invariant forall j :: 0 <= j < i ==> r[j] == a[j]
    {
      r[i] := a[i];
      i := i + 1;
    }
  }

  /** memcpy(dst, src, src.Length doubles). */
  method CopyInto(src: array<real>, dst: array<real>)
    requires src != dst && src.Length <= dst.Length
    modifies dst
    ensures dst[..] == Overlay(src[..], old(dst[..]))
  {
    var i := 0;
    while i < src.Length
      invariant 0 <= i <= src.Length
      invariant forall q :: 0 <= q < i ==> dst[q] == src[q]
      invariant forall q :: i <= q < dst.Length ==> dst[q] == old(dst[q])
    {
      dst[i] := src[i];
      i := i + 1;
    }
  }

  /** a[j] := x; b[j] := y, on two distinct temporaries. */
  method StorePair(a: array<real>, b: array<real>, j: int, x: real, y: real)
    requires a != b && 0 <= j < a.Length && j < b.Length
    modifies a, b
    ensures a[..] == old(a[..])[j := x] && b[..] == old(b[..])[j := y]
  {
    a[j], b[j] := x, y;
  }

  /** The field slots Bx, By, Bz of the cell at offset i get x, y, z. */
  method StoreFields(a: array<real>, i: int, x: real, y: real, z: real)
    requires 0 <= i && i + 8 <= a.Length
    modifies a
    ensures a[..] == old(a[..])[i + Bx := x][i + By := y][i + Bz := z]
  {
    a[i + Bx], a[i + By], a[i + Bz] := x, y, z;
  }

  /** a after its 8 entries at offset 8 j are overwritten with v. */
  method Store(a: array<real>, j: int, v: Vec8)
    requires 0 <= j && 8 * j + 8 <= a.Length
    modifies a
    ensures a[..] == Splice(old(a[..]), j, v)
  {
    var k := 0;
    while k < 8
      invariant 0 <= k <= 8
      invariant forall q :: 0 <= q < k ==> a[8 * j + q] == v[q]
      invariant forall q :: 0 <= q < a.Length && (q < 8 * j || 8 * j + k <= q) ==> a[q] == old(a[q])
    {
      a[8 * j + k] := v[k];
      k := k + 1;
    }
    StoreIsSplice(old(a[..]), a[..], j, v);
  }

  class Engine {
    /** sqrt, the quartic solvers and hllc_flux. */
    const ext: Ext

    var libState: LibraryState
    var slopeLimiter: Option<SlopeLimiter>   // None until the first set_state
    var opState: OpState
    var quiet: int
    var dimension: int
    var stride: seq<int>
    var dx: real
    var dy: real
    var dz: real
    var lastW: real                          // cons_to_prim_last_W

    var primitive: array<real>               // PrimitiveArray
    var fluxX: array<real>                   // FluxInterArray_x
    var fluxY: array<real>
    var fluxZ: array<real>
    var ux: array<real>                      // lib_ux
    var uy: array<real>
    var uz: array<real>

    /** The strides initialize sets: stride[3] = 8 and the others
        non-negative multiples of one cell (zero along an empty axis). */
    ghost predicate StridesShape()
      reads this`stride
    {
      && |stride| == 4 && stride[3] == 8
      && stride[0] >= 0 && stride[1] >= 0 && stride[2] >= 0
      && stride[2] % 8 == 0 && stride[1] % 8 == 0 && stride[0] % 8 == 0
    }

    /** The strides of a grid with a cell along every axis: each one a
        whole multiple of cells of the next. */
    ghost predicate StridesValid()
      reads this`stride
    {
      && StridesShape()
      && stride[3] <= stride[2] <= stride[1] <= stride[0]
    }

    /** The buffers of Alive mode: sized by stride[0] and pairwise distinct. */
    ghost predicate Allocated()
      reads this`stride, this`primitive, this`fluxX, this`fluxY, this`fluxZ, this`ux, this`uy, this`uz
    {
      && StridesShape()
      && primitive.Length == stride[0] && fluxX.Length == stride[0]
      && fluxY.Length == stride[0] && fluxZ.Length == stride[0]
      && ux.Length == stride[0] / 8 && uy.Length == stride[0] / 8 && uz.Length == stride[0] / 8
      && primitive != fluxX && primitive != fluxY && primitive != fluxZ
      && fluxX != fluxY && fluxX != fluxZ && fluxY != fluxZ
      && ux != uy && ux != uz && uy != uz
    }

    ghost predicate Valid()
      reads this`dimension, this`opState, this`stride
      reads this`primitive, this`fluxX, this`fluxY, this`fluxZ, this`ux, this`uy, this`uz
    {
      && ext.Valid() && IsAxis(dimension) && |stride| == 4
      && (opState == Alive ==> Allocated())
    }

    /** The static initial values: lib_state's initialiser, Dead mode,
        dimension 1, zeroed globals, no buffers. */
    constructor (e: Ext)
      requires e.Valid()
      ensures Valid() && ext == e
      ensures libState == InitialLibraryState && slopeLimiter == None && opState == Dead
      ensures quiet == 0 && dimension == 1 && stride == [0, 0, 0, 0]
      ensures dx == 0.0 && dy == 0.0 && dz == 0.0 && lastW == 0.0
    {
      ext := e;
      libState := InitialLibraryState;
      slopeLimiter := None;
      opState := Dead;
      quiet := 0;
      dimension := 1;
      stride := [0, 0, 0, 0];
      dx, dy, dz := 0.0, 0.0, 0.0;
      lastW := 0.0;
      primitive := new real[0];
      fluxX := new real[0];
      fluxY := new real[0];
      fluxZ := new real[0];
      ux := new real[0];
      uy := new real[0];
      uz := new real[0];
    }

    // ------------------------------------------------------ configuration

    /** set_state: stores the record and points slope_limiter at the
        selected limiter, minmod for an unknown mode. */
    method SetState(st: LibraryState) returns (status: int)
      modifies this`libState, this`slopeLimiter
      ensures status == 0
      ensures libState == st && slopeLimiter == Some(SelectLimiter(st.modeSlopeLimiter))
    {
      libState := st;
      var mode := libState.modeSlopeLimiter;
      if mode == SlopeLimiterMinmod {
        slopeLimiter := Some(Minmod);
      } else if mode == SlopeLimiterMonotizedCentral {
        slopeLimiter := Some(MonotonizedCentral);
      } else if mode == SlopeLimiterHarmonicMean {
        slopeLimiter := Some(HarmonicMean);
      } else {
        slopeLimiter := Some(Minmod);
      }
      status := 0;
    }

    method GetState() returns (st: LibraryState)
      ensures st == libState
    {
      st := libState;
    }

    // ---------------------------------------------------------- lifecycle

    /** initialize: Alive mode, strides of the Nx x Ny x Nz grid of 8-double
        cells, cell sizes over the interior N - 2 Ng cells, a private copy
        of P and fresh flux and 4-velocity buffers (their contents
        arbitrary, as malloc leaves them). An axis of no cells gives an
        empty grid: stride[0] = 0 and empty buffers. The C divides L by
        N - 4 without checking; the model requires it nonzero. */
    method Initialize(P: array<real>, nx: int, ny: int, nz: int, lx: real, ly: real, lz: real, q: int)
        returns (status: int)
      requires ext.Valid()
      requires nx >= 0 && ny >= 0 && nz >= 0
      requires nx != 2 * GuardCells && ny != 2 * GuardCells && nz != 2 * GuardCells
      requires P.Length >= GridStrides(nx, ny, nz)[0]
      modifies this`quiet, this`opState, this`stride, this`dimension, this`dx, this`dy, this`dz
      modifies this`primitive, this`fluxX, this`fluxY, this`fluxZ, this`ux, this`uy, this`uz
      ensures Valid() && status == 0
      ensures opState == Alive && quiet == q && dimension == 1
      ensures stride == GridStrides(nx, ny, nz)
      ensures dx == CellSize(lx, nx)
      ensures dy == CellSize(ly, ny)
      ensures dz == CellSize(lz, nz)
      ensures primitive[..] == P[..stride[0]]
      ensures fresh(primitive) && fresh(fluxX) && fresh(fluxY) && fresh(fluxZ)
      ensures fresh(ux) && fresh(uy) && fresh(uz)
    {
      AllocateBuffers(P, GridStrides(nx, ny, nz)[0]);
      AllocateCaches(GridStrides(nx, ny, nz)[0]);
      SetGrid(nx, ny, nz, lx, ly, lz, q);
      status := 0;
    }

    /** The globals initialize sets: Alive mode, dimension 1, the strides
        and the cell sizes. */
    method SetGrid(nx: int, ny: int, nz: int, lx: real, ly: real, lz: real, q: int)
      requires nx >= 0 && ny >= 0 && nz >= 0
      requires nx != 2 * GuardCells && ny != 2 * GuardCells && nz != 2 * GuardCells
      modifies this`quiet, this`opState, this`stride, this`dimension, this`dx, this`dy, this`dz
      ensures opState == Alive && quiet == q && dimension == 1 && stride == GridStrides(nx, ny, nz)
      ensures dx == CellSize(lx, nx) && dy == CellSize(ly, ny) && dz == CellSize(lz, nz)
    {
      quiet, opState, stride, dimension, dx, dy, dz :=
        q, Alive, GridStrides(nx, ny, nz), 1, CellSize(lx, nx), CellSize(ly, ny), CellSize(lz, nz);
    }


    /** The buffers of initialize: a copy of the first n doubles of P, and
        fresh flux buffers of n doubles. */
    method AllocateBuffers(P: array<real>, n: int)
      requires 0 <= n <= P.Length
      modifies this`primitive, this`fluxX, this`fluxY, this`fluxZ
      ensures primitive[..] == P[..n]
      ensures fresh(primitive) && fresh(fluxX) && fresh(fluxY) && fresh(fluxZ)
      ensures primitive.Length == n && fluxX.Length == n && fluxY.Length == n && fluxZ.Length == n
      ensures primitive != fluxX && primitive != fluxY && primitive != fluxZ
      ensures fluxX != fluxY && fluxX != fluxZ && fluxY != fluxZ
    {
      var fx := new real[n];
      var fy := new real[n];
      var fz := new real[n];
      var pr := CopyOf(P, n);
      primitive, fluxX, fluxY, fluxZ := pr, fx, fy, fz;
    }

    /** The 4-velocity buffers of initialize: n/8 doubles each. */
    method AllocateCaches(n: int)
      requires 0 <= n
      modifies this`ux, this`uy, this`uz
      ensures fresh(ux) && fresh(uy) && fresh(uz)
      ensures ux.Length == n / 8 && uy.Length == n / 8 && uz.Length == n / 8
      ensures ux != uy && ux != uz && uy != uz
    {
      var vx := new real[n / 8];
      var vy := new real[n / 8];
      var vz := new real[n / 8];
      ux, uy, uz := vx, vy, vz;
    }

    /** finalize: back to Dead mode; the buffers are released. */
    method Finalize() returns (status: int)
      requires Valid()
      modifies this`opState
      ensures Valid() && status == 0 && opState == Dead
    {
      opState := Dead;
      status := 0;
    }

    // ------------------------------------------------------------ hll_flux

    /** hll_flux: the state and flux of Hll, and max_lambda raised to the
        offered speed. */
    method HllFlux(pl: Vec8, pr: Vec8, s: real) returns (u: Vec8, f: Vec8)
      requires ext.Valid() && IsAxis(dimension) && libState.adiabaticGamma > 1.0 && Physical(pl) && Physical(pr)
      modifies this`libState
      ensures var h := Hll(ext, old(libState.adiabaticGamma), dimension, old(libState.modeQuarticSolver), pl, pr, s);
              && u == h.u && f == h.f
              && libState == old(libState).(maxLambda := RaiseMaxLambda(old(libState.maxLambda), h.ml))
      ensures libState.maxLambda >= old(libState.maxLambda)
    {
      var h := Hll(ext, libState.adiabaticGamma, dimension, libState.modeQuarticSolver, pl, pr, s);
      if libState.maxLambda < h.ml {
        libState := libState.(maxLambda := h.ml);
      }
      u, f := h.u, h.f;
    }

    // ---------------------------------------------------------------- Fiph

    /** What a sweep reads besides the arrays, with S = stride[dimension]. */
    function SetupNow(): Setup
      reads this`libState, this`slopeLimiter, this`dimension, this`stride
      requires |stride| == 4 && IsAxis(dimension)
    {
      Setup(ext, SchemeOf(libState), slopeLimiter, dimension, stride[dimension])
    }

    /** The arrays a sweep over P reads: P and the 4-velocity cache. */
    function GridOf(P: array<real>): Grid
      reads this`ux, this`uy, this`uz, P, ux, uy, uz
    {
      Grid(P[..], ux[..], uy[..], uz[..])
    }

    /** Fiph(P, F): F after the sweep along `dimension`, and max_lambda after
        every HLL interface has offered its speed. The C writes F[0 .. S) and
        F[stride[0] - 2 S .. stride[0]), so it needs 2 S <= stride[0]; it
        calls the slope limiter, so a PLM mode needs set_state to have been
        called (Solvable includes both). */
    method Fiph(P: array<real>, F: array<real>) returns (status: int)
      requires |stride| == 4 && IsAxis(dimension) && P.Length == stride[0] && F.Length == stride[0]
      requires F != P && F != ux && F != uy && F != uz
      requires Solvable(SetupNow(), GridOf(P))
      modifies this`libState, F
      ensures status == 0
      ensures SweepWritten(old(SetupNow()), old(GridOf(P)), F[..])
      ensures libState == old(libState).(maxLambda := RaiseAll(old(libState.maxLambda),
                Offers(old(SetupNow()), old(GridOf(P)), Interfaces(P.Length, old(stride[dimension])))))
    {
      var n := stride[0];
      var s := stride[dimension];
      ghost var c := SetupNow();
      ghost var g := GridOf(P);
      ghost var m0 := libState.maxLambda;
      ghost var nk := Interfaces(n, s);
      ghost var vs := Fluxes(c, g, nk);
      ghost var os := Offers(c, g, nk);
      assert SweepPlan(c, g, vs, os);
      var i := 0;
      while i < s
        invariant 0 <= i <= s && libState == old(libState)
        invariant forall q :: 0 <= q < i ==> F[q] == 0.0
      {
        F[i] := 0.0;
        i := i + 1;
      }
      i := s;
      var k := 0;
      while i < n - s * 2
        invariant 0 <= k <= nk && i == s + 8 * k
        invariant SetupNow() == c && GridOf(P) == g
        invariant (forall q :: 0 <= q < s ==> F[q] == 0.0) && CellsFrom(F[..], s, vs[..k])
        invariant libState == old(libState).(maxLambda := RaiseAll(m0, os[..k]))
      {
        InterfaceCount(n, s, k);
        InterfaceBlock(c, g, k);
        FiphInterface(P, F, i, k, c, g, vs, os, m0);
        i := i + 8;
        k := k + 1;
      }
      InterfaceCount(n, s, k);
      assert vs[..k] == vs && os[..k] == os;
      FiphTail(F, n, s, c, g, vs);
      status := 0;
    }

    /** The last loop of Fiph: F[stride[0] - 2 S .. stride[0]) zeroed, which
        completes the sweep. */
    method FiphTail(F: array<real>, n: int, s: int, ghost c: Setup, ghost g: Grid, ghost vs: seq<Vec8>)
      requires Solvable(c, g) && c.s == s && n == |g.p| == F.Length
      requires vs == Fluxes(c, g, Interfaces(n, s))
      requires (forall q :: 0 <= q < s ==> F[q] == 0.0) && CellsFrom(F[..], s, vs)
      modifies F
      ensures SweepWritten(c, g, F[..])
    {
      ghost var mid := F[..];
      var i := n - s * 2;
      while i < n
        invariant n - 2 * s <= i <= n
        invariant forall q :: 0 <= q < n - 2 * s ==> F[q] == mid[q]
        invariant forall q :: n - 2 * s <= q < i ==> F[q] == 0.0
      {
        F[i] := 0.0;
        i := i + 1;
      }
      if |vs| > 0 {
        InterfaceBlock(c, g, 0);
      }
      CellsFromKept(mid, F[..], s, vs);
    }

    /** One pass of the interface loop of Fiph: interface k's flux stored at
        &F[S + 8 k] and its speed offered to max_lambda. */
    method FiphInterface(P: array<real>, F: array<real>, i: int, k: int, ghost c: Setup, ghost g: Grid,
                         ghost vs: seq<Vec8>, ghost os: seq<Option<real>>, ghost m0: real)
      requires |stride| == 4 && IsAxis(dimension) && c == SetupNow() && g == GridOf(P) && SweepPlan(c, g, vs, os)
      requires F.Length == P.Length && F != P && F != ux && F != uy && F != uz
      requires 0 <= k < |vs| == |os| && i == c.s + 8 * k && i + 8 <= P.Length
      requires (forall q :: 0 <= q < c.s ==> F[q] == 0.0) && CellsFrom(F[..], c.s, vs[..k])
      requires libState.maxLambda == RaiseAll(m0, os[..k])
      modifies this`libState, F
      ensures SetupNow() == c && GridOf(P) == g
      ensures (forall q :: 0 <= q < c.s ==> F[q] == 0.0) && CellsFrom(F[..], c.s, vs[..k + 1])
      ensures libState == old(libState).(maxLambda := RaiseAll(m0, os[..k + 1]))
    {
      var f := InterfaceFlux(P, k, c, g, vs, os);
      StoreInterface(F, i, k, c.s, vs, f);
      RaiseAllPrefix(m0, os, k);
    }

    /** memcpy of interface k's flux to &F[i], i = S + 8 k: one more written
      interface. */
    method StoreInterface(F: array<real>, i: int, k: int, ghost s: int, ghost vs: seq<Vec8>, f: Vec8)
      requires 0 <= k < |vs| && i == s + 8 * k && i + 8 <= F.Length && f == vs[k]
      requires (forall q :: 0 <= q < s ==> F[q] == 0.0) && CellsFrom(F[..], s, vs[..k])
      modifies F
      ensures (forall q :: 0 <= q < s ==> F[q] == 0.0) && CellsFrom(F[..], s, vs[..k + 1])
    {
      ghost var before := F[..];
      assert 8 * (i / 8) == i;
      Store(F, i / 8, f);
      CellsFromStep(before, s, vs[..k], vs[k]);
      assert vs[..k] + [vs[k]] == vs[..k + 1];
    }

    /** The body of the interface loop of Fiph before the store: the edges
        of the selected reconstruction, then the selected Riemann solver. */
    method InterfaceFlux(P: array<real>, k: int, ghost c: Setup, ghost g: Grid,
                         ghost vs: seq<Vec8>, ghost os: seq<Option<real>>) returns (f: Vec8)
      requires |stride| == 4 && IsAxis(dimension) && c == SetupNow() && g == GridOf(P) && SweepPlan(c, g, vs, os)
      requires 0 <= k < |vs|
      modifies this`libState
      ensures f == vs[k]
      ensures libState == old(libState).(maxLambda := RaiseOne(old(libState.maxLambda), os[k]))
    {
      var ed := EdgesAt(SetupNow(), GridOf(P), k);
      if libState.modeRiemannSolver == RiemannSolverHLLC {
        f := ext.hllc(ed.pl, ed.pr, 0.0, dimension).f;
      } else {
        assert SolvableAt(c, g, k);
        var uStar;
        uStar, f := HllFlux(ed.pl, ed.pr, 0.0);
      }
    }

    // ------------------------------------------------ constraint transport

    /** constraint_transport_2d(Fx, Fy): the two averages of every interior
        cell into temporaries, then Fx[Bx] and Fy[By] of every cell zeroed
        and Fx[By], Fy[Bx] taken from the temporaries (which malloc leaves
        unset outside the interior cells). */
    method ConstraintTransport2D(Fx: array<real>, Fy: array<real>) returns (status: int)
      requires StridesValid() && Fx.Length == stride[0] && Fy.Length == stride[0] && Fx != Fy
      modifies Fx, Fy
      ensures status == 0
      ensures Transported2D(old(Fx[..]), old(Fy[..]), Fx[..], Fy[..], stride[1], stride[2])
    {
      var n, sx, sy := stride[0], stride[1], stride[2];
      ghost var fx0, fy0 := Fx[..], Fy[..];
      var fxBy, fyBx := Averages2D(Fx, Fy, n, sx, sy);
      WriteBack2D(Fx, Fy, fxBy, fyBx);
      WrittenBackTransported2D(fx0, fy0, Fx[..], Fy[..], fxBy[..], fyBx[..], sx, sy);
      status := 0;
    }

    /** The first loop of constraint_transport_2d: FxBy[i/8] and FyBx[i/8]
        for sx <= i < stride[0] - sx. */
    static method Averages2D(Fx: array<real>, Fy: array<real>, n: int, sx: int, sy: int)
        returns (fxBy: array<real>, fyBx: array<real>)
      requires Fx.Length == n && Fy.Length == n && n % 8 == 0 && 0 <= sy <= sx && sx % 8 == 0
      ensures fresh(fxBy) && fresh(fyBx) && fxBy.Length == n / 8 && fyBx.Length == n / 8
      ensures TemporariesOf2D(Fx[..], Fy[..], fxBy[..], fyBx[..], sx, sy)
    {
      fxBy := new real[n / 8];
      fyBx := new real[n / 8];
      var i := sx;
      while i < n - sx
        invariant sx <= i && i % 8 == 0
        invariant AveragesUpTo2D(Fx[..], Fy[..], fxBy[..], fyBx[..], sx, sy, i)
      {
        AveragesAt2D(Fx, Fy, fxBy, fyBx, sx, sy, i);
        i := i + 8;
      }
      AveragesDone2D(Fx[..], Fy[..], fxBy[..], fyBx[..], sx, sy, i);
    }

    /** One iteration of the first loop of constraint_transport_2d. */
    static method AveragesAt2D(Fx: array<real>, Fy: array<real>, fxBy: array<real>, fyBx: array<real>,
                               sx: int, sy: int, i: int)
      requires Fx.Length == Fy.Length && Fx.Length % 8 == 0 && i % 8 == 0
      requires InteriorCell(Fx.Length, i, sx, sy, 0)
      requires fxBy != fyBx && {fxBy, fyBx} !! {Fx, Fy}
      requires AveragesUpTo2D(Fx[..], Fy[..], fxBy[..], fyBx[..], sx, sy, i)
      modifies fxBy, fyBx
      ensures AveragesUpTo2D(Fx[..], Fy[..], fxBy[..], fyBx[..], sx, sy, i + 8)
    {
      AveragesStep2D(Fx[..], Fy[..], fxBy[..], fyBx[..], sx, sy, i);
      var xy, yx := Average(Fx[..], By + i, Fy[..], Bx + i, sy, sx), Average(Fy[..], Bx + i, Fx[..], By + i, sx, sy);
      StorePair(fxBy, fyBx, i / 8, xy, yx);
    }

    /** The second loop of constraint_transport_2d. */
    static method WriteBack2D(Fx: array<real>, Fy: array<real>, fxBy: array<real>, fyBx: array<real>)
      requires Fx != Fy && Fx.Length == Fy.Length && Fx.Length % 8 == 0
      requires fxBy.Length == Fx.Length / 8 && fyBx.Length == Fx.Length / 8
      requires fxBy != Fx && fxBy != Fy && fyBx != Fx && fyBx != Fy
      modifies Fx, Fy
      ensures WrittenBack2D(old(Fx[..]), old(Fy[..]), Fx[..], Fy[..], fxBy[..], fyBx[..])
    {
      ghost var fx0, fy0 := Fx[..], Fy[..];
      var n := Fx.Length;
      var i := 0;
      while i < n
        invariant WrittenUpTo2D(fx0, fy0, Fx[..], Fy[..], fxBy[..], fyBx[..], i)
      {
        WrittenStep2D(fx0, fy0, Fx[..], Fy[..], fxBy[..], fyBx[..], i);
        Fx[i + Bx], Fx[i + By] := 0.0, fxBy[i / 8];
        Fy[i + Bx], Fy[i + By] := fyBx[i / 8], 0.0;
        i := i + 8;
      }
    }

    /** constraint_transport_3d(Fx, Fy, Fz): the six averages of every
        interior cell into temporaries, then the normal field flux of each
        array zeroed and its two transverse ones taken from the temporaries. */
    method ConstraintTransport3D(Fx: array<real>, Fy: array<real>, Fz: array<real>) returns (status: int)
      requires StridesValid() && Fx.Length == stride[0] && Fy.Length == stride[0] && Fz.Length == stride[0]
      requires Fx != Fy && Fy != Fz && Fx != Fz
      modifies Fx, Fy, Fz
      ensures status == 0
      ensures Transported3D(old(Fx[..]), old(Fy[..]), old(Fz[..]), Fx[..], Fy[..], Fz[..],
                            stride[1], stride[2], stride[3])
    {
      var n, sx, sy, sz := stride[0], stride[1], stride[2], stride[3];
      ghost var fx0, fy0, fz0 := Fx[..], Fy[..], Fz[..];
      var fxBy, fxBz, fyBx, fyBz, fzBx, fzBy := Averages3D(Fx, Fy, Fz, n, sx, sy, sz);
      WriteBack3D(Fx, Fy, Fz, fxBy, fxBz, fyBx, fyBz, fzBx, fzBy);
      WrittenBackTransported3D(fx0, fy0, fz0, fxBy[..], fxBz[..], fyBx[..], fyBz[..], fzBx[..], fzBy[..],
                               Fx[..], Fy[..], Fz[..], sx, sy, sz);
      status := 0;
    }

    /** The first loop of constraint_transport_3d. */
    static method Averages3D(Fx: array<real>, Fy: array<real>, Fz: array<real>, n: int, sx: int, sy: int, sz: int)
        returns (fxBy: array<real>, fxBz: array<real>, fyBx: array<real>,
                 fyBz: array<real>, fzBx: array<real>, fzBy: array<real>)
      requires Fx.Length == n && Fy.Length == n && Fz.Length == n && n % 8 == 0
      requires 0 <= sz <= sy <= sx && sx % 8 == 0
      ensures fresh(fxBy) && fresh(fxBz) && fresh(fyBx) && fresh(fyBz) && fresh(fzBx) && fresh(fzBy)
      ensures fxBy.Length == n / 8 && fxBz.Length == n / 8 && fyBx.Length == n / 8
      ensures fyBz.Length == n / 8 && fzBx.Length == n / 8 && fzBy.Length == n / 8
      ensures fxBy != fxBz && fxBy != fyBx && fxBy != fyBz && fxBy != fzBx && fxBy != fzBy
      ensures fxBz != fyBx && fxBz != fyBz && fxBz != fzBx && fxBz != fzBy
      ensures fyBx != fyBz && fyBx != fzBx && fyBx != fzBy && fyBz != fzBx && fyBz != fzBy && fzBx != fzBy
      ensures TemporariesOf3D(Fx[..], Fy[..], Fz[..], fxBy[..], fxBz[..], fyBx[..], fyBz[..], fzBx[..], fzBy[..],
                              sx, sy, sz)
    {
      fxBy := new real[n / 8];
      fxBz := new real[n / 8];
      fyBz := new real[n / 8];
      fyBx := new real[n / 8];
      fzBx := new real[n / 8];
      fzBy := new real[n / 8];
      var i := sx;
      while i < n - sx
        invariant sx <= i && i % 8 == 0
        invariant AveragesUpTo3D(Fx[..], Fy[..], Fz[..], fxBy[..], fxBz[..], fyBx[..], fyBz[..], fzBx[..], fzBy[..],
                                 sx, sy, sz, i)
      {
        AveragesAt3D(Fx, Fy, Fz, fxBy, fxBz, fyBx, fyBz, fzBx, fzBy, sx, sy, sz, i);
        i := i + 8;
      }
      AveragesDone3D(Fx[..], Fy[..], Fz[..], fxBy[..], fxBz[..], fyBx[..], fyBz[..], fzBx[..], fzBy[..],
                     sx, sy, sz, i);
    }

    /** One iteration of the first loop of constraint_transport_3d. */
    static method AveragesAt3D(Fx: array<real>, Fy: array<real>, Fz: array<real>,
                               fxBy: array<real>, fxBz: array<real>, fyBx: array<real>,
                               fyBz: array<real>, fzBx: array<real>, fzBy: array<real>,
                               sx: int, sy: int, sz: int, i: int)
      requires Fx.Length == Fy.Length == Fz.Length && Fx.Length % 8 == 0 && i % 8 == 0
      requires InteriorCell(Fx.Length, i, sx, sy, sz)
      requires fxBy != fxBz && fxBy != fyBx && fxBy != fyBz && fxBy != fzBx && fxBy != fzBy
      requires fxBz != fyBx && fxBz != fyBz && fxBz != fzBx && fxBz != fzBy
      requires fyBx != fyBz && fyBx != fzBx && fyBx != fzBy && fyBz != fzBx && fyBz != fzBy && fzBx != fzBy
      requires {fxBy, fxBz, fyBx, fyBz, fzBx, fzBy} !! {Fx, Fy, Fz}
      requires AveragesUpTo3D(Fx[..], Fy[..], Fz[..], fxBy[..], fxBz[..], fyBx[..], fyBz[..], fzBx[..], fzBy[..],
                              sx, sy, sz, i)
      modifies fxBy, fxBz, fyBx, fyBz, fzBx, fzBy
      ensures AveragesUpTo3D(Fx[..], Fy[..], Fz[..], fxBy[..], fxBz[..], fyBx[..], fyBz[..], fzBx[..], fzBy[..],
                             sx, sy, sz, i + 8)
    {
      ghost var fx, fy, fz := Fx[..], Fy[..], Fz[..];
      AveragesStep3D(fx, fy, fz, fxBy[..], fxBz[..], fyBx[..], fyBz[..], fzBx[..], fzBy[..], sx, sy, sz, i);
      var xy, yx := Average(Fx[..], By + i, Fy[..], Bx + i, sy, sx), Average(Fy[..], Bx + i, Fx[..], By + i, sx, sy);
      var yz, zy := Average(Fy[..], Bz + i, Fz[..], By + i, sz, sy), Average(Fz[..], By + i, Fy[..], Bz + i, sy, sz);
      var zx, xz := Average(Fz[..], Bx + i, Fx[..], Bz + i, sx, sz), Average(Fx[..], Bz + i, Fz[..], Bx + i, sz, sx);
      StorePair(fxBy, fyBx, i / 8, xy, yx);
      StorePair(fyBz, fzBy, i / 8, yz, zy);
      StorePair(fzBx, fxBz, i / 8, zx, xz);
    }

    /** The second loop of constraint_transport_3d. */
    static method WriteBack3D(Fx: array<real>, Fy: array<real>, Fz: array<real>,
                              fxBy: array<real>, fxBz: array<real>, fyBx: array<real>,
                              fyBz: array<real>, fzBx: array<real>, fzBy: array<real>)
      requires Fx != Fy && Fy != Fz && Fx != Fz
      requires Fx.Length == Fy.Length == Fz.Length && Fx.Length % 8 == 0
      requires fxBy.Length == Fx.Length / 8 && fxBz.Length == Fx.Length / 8 && fyBx.Length == Fx.Length / 8
      requires fyBz.Length == Fx.Length / 8 && fzBx.Length == Fx.Length / 8 && fzBy.Length == Fx.Length / 8
      requires {fxBy, fxBz, fyBx, fyBz, fzBx, fzBy} !! {Fx, Fy, Fz}
      modifies Fx, Fy, Fz
      ensures WrittenBack3D(old(Fx[..]), old(Fy[..]), old(Fz[..]), Fx[..], Fy[..], Fz[..],
                            fxBy[..], fxBz[..], fyBx[..], fyBz[..], fzBx[..], fzBy[..])
    {
      ghost var fx0, fy0, fz0 := Fx[..], Fy[..], Fz[..];
      var n := Fx.Length;
      ghost var zs := Zeros(n / 8);
      var i := 0;
      while i < n
        invariant FieldSlotsUpTo(fx0, Fx[..], zs, fxBy[..], fxBz[..], i)
        invariant FieldSlotsUpTo(fy0, Fy[..], fyBx[..], zs, fyBz[..], i)
        invariant FieldSlotsUpTo(fz0, Fz[..], fzBx[..], fzBy[..], zs, i)
      {
        FieldSlotsStep(fx0, Fx[..], zs, fxBy[..], fxBz[..], i);
        FieldSlotsStep(fy0, Fy[..], fyBx[..], zs, fyBz[..], i);
        FieldSlotsStep(fz0, Fz[..], fzBx[..], fzBy[..], zs, i);
        StoreFields(Fx, i, 0.0, fxBy[i / 8], fxBz[i / 8]);
        StoreFields(Fy, i, fyBx[i / 8], 0.0, fyBz[i / 8]);
        StoreFields(Fz, i, fzBx[i / 8], fzBy[i / 8], 0.0);
        i := i + 8;
      }
    }

    // --------------------------------------------------- cons_to_prim_point

    /** cons_to_prim_use_estimate as a flag. */
    function UseEstimate(): bool
      reads this`libState
    {
      libState.consToPrimUseEstimate != 0
    }

    /** cons_to_prim_point(U, P) with guess the 8 doubles of P on entry. On 0
        the new P is the solution, n_iter is added to cons_to_prim_iter and
        W is kept in cons_to_prim_last_W; on 1 nothing changes. */
    method ConsToPrimPoint(u: Vec8, guess: Vec8) returns (status: int, p: Vec8)
      requires ext.Valid() && u[Dens] > 0.0
      requires GuessUsable(libState.adiabaticGamma, UseEstimate(), guess)
      modifies this`libState, this`lastW
      ensures status == 0 || status == 1
      ensures var r := ConsToPrimSpec(ext, old(libState.adiabaticGamma), old(UseEstimate()), u, guess);
              && (status == 1 <==> r.Unsolved?)
              && (r.Unsolved? ==> p == guess && libState == old(libState) && lastW == old(lastW))
              && (r.Solved? ==> p == r.p && lastW == r.w
                                && libState == old(libState).(consToPrimIter := old(libState.consToPrimIter) + r.nIter))
    {
      var gamma := libState.adiabaticGamma;
      var est := UseEstimate();
      var k := KnownsOf(gamma, u);
      var zw := StartZW(ext, gamma, est, u, guess);
      ghost var target := Run(k, zw.0, zw.1, Iterate(zw.0, zw.1, 0, Free));
      var z, w, n, phase := zw.0, zw.1, 0, Free;
      var found := false;
      while !found
        invariant !found ==> GoodIterate(Iterate(z, w, n, phase)) && Run(k, zw.0, zw.1, Iterate(z, w, n, phase)) == target
        invariant found ==> target == Found(z, w, n, phase)
        decreases if found then 0 else 1, if phase == Free then 1 else 0, NewtonMaxIter - n
      {
        var pre := Pressure(k, phase, z, w);
        var step := NewtonStep(k, pre, z, w);
        if step.None? {
          // the C would go on with an infinite or undefined correction
          status, p := 1, guess;
          return;
        }
        var c := step.value;
        var zNew := ClampZ(z - c.dz, z);
        var wNew := ClampW(w - c.dw);
        var conv := Converged(c, zNew, wNew);
        z, w := zNew, wNew;
        if conv {
          if pre >= PresFloor {
            found := true;
          } else {
            n := 0;
            phase := Floor;
            z, w := zw.0, zw.1;
          }
        }
        var capped := n == NewtonMaxIter;
        n := n + 1;
        if capped {
          if pre < PresFloor {
            n := 0;
            phase := Floor;
            z, w := zw.0, zw.1;
          } else {
            status, p := 1, guess;
            return;
          }
        }
      }
      libState := libState.(consToPrimIter := libState.consToPrimIter + n);
      p := Recover(k, u, z, w, phase);
      lastW := w;
      status := 0;
    }

    // ------------------------------------------------- the array conversions

    /** cons_to_prim_array writes the 4-velocity cache: PLM4Velocity in Alive mode. */
    function WritesCache(): bool
      reads this`libState, this`opState
    {
      libState.modeReconstruct == ReconstructPLM4Velocity && opState == Alive
    }

    /** What the loop of cons_to_prim_array starts from: P after the memcpy
        from PrimitiveArray (Alive mode and P another array), no failures,
        and the current counters and cache. */
    ghost function ArrayStart(P: array<real>): Conversion
      reads this`opState, this`libState, this`lastW, this`primitive, this`ux, this`uy, this`uz
      reads P, primitive, ux, uy, uz
      requires opState == Alive && P != primitive ==> primitive.Length <= P.Length
    {
      Conversion(if opState == Alive && P != primitive then Overlay(primitive[..], P[..]) else P[..],
                 0, libState.consToPrimIter, lastW, ux[..], uy[..], uz[..])
    }

    /** What cons_to_prim_array carries: P, the failure count, the
        iteration counter, last_W and the cache. */
    ghost function Snapshot(P: array<real>, failures: int): Conversion
      reads this`libState, this`lastW, this`ux, this`uy, this`uz, P, ux, uy, uz
    {
      Conversion(P[..], failures, libState.consToPrimIter, lastW, ux[..], uy[..], uz[..])
    }

    /** cons_to_prim_array(U, P, N): the new P, the failure count it returns,
        the counters and the cache are those of ConvertCells. */
    method ConsToPrimArray(U: array<real>, P: array<real>, N: int) returns (failures: int)
      requires Valid()
      requires P != ux && P != uy && P != uz && U != P && U != ux && U != uy && U != uz
      requires opState == Alive && P != primitive ==> primitive.Length <= P.Length
      requires ConvertibleCons(libState.adiabaticGamma, UseEstimate(), U[..], ArrayStart(P).p, N)
      requires CacheFits(WritesCache(), ArrayStart(P), N)
      modifies this`libState, this`lastW, P, ux, uy, uz
      ensures var r := ConvertCells(ext, old(libState.adiabaticGamma), old(UseEstimate()), old(WritesCache()),
                                    old(U[..]), old(ArrayStart(P)), N);
              && failures == r.failures && 0 <= failures <= N
              && P[..] == r.p && lastW == r.lastW && ux[..] == r.ux && uy[..] == r.uy && uz[..] == r.uz
              && libState == old(libState).(consToPrimIter := r.iter)
    {
      if opState == Alive && P != primitive {
        CopyInto(primitive, P);
      }
      ghost var start := old(ArrayStart(P));
      assert Snapshot(P, 0) == start;
      ghost var gamma, est, us := libState.adiabaticGamma, UseEstimate(), U[..];
      ghost var o := Outcomes(ext, gamma, est, us, start.p, N);
      assert OutcomesOf(o, ext, gamma, est, us, start.p);
      failures := ConvertLoop(U, P, N, start, o, WritesCache(), gamma, est, us);
    }

    /** The loop of cons_to_prim_array over the cells of the outcomes o. */
    method ConvertLoop(U: array<real>, P: array<real>, N: int, ghost start: Conversion, ghost o: seq<PointResult>,
                       cache: bool, ghost gamma: real, ghost est: bool, ghost us: seq<real>)
        returns (failures: int)
      requires ext.Valid() && libState.adiabaticGamma == gamma && UseEstimate() == est
      requires P != ux && P != uy && P != uz && U != P && U != ux && U != uy && U != uz
      requires |o| == N && cache == WritesCache() && CacheFits(cache, start, |o|)
      requires cache ==> |o| <= ux.Length && |o| <= uy.Length && |o| <= uz.Length
      requires cache ==> ux != uy && ux != uz && uy != uz
      requires U[..] == us && ConvertibleCons(gamma, est, us, start.p, |o|)
      requires OutcomesOf(o, ext, gamma, est, us, start.p)
      requires Snapshot(P, 0) == start
      modifies this`libState, this`lastW, P, ux, uy, uz
      ensures libState == old(libState).(consToPrimIter := libState.consToPrimIter)
      ensures Snapshot(P, failures) == ApplyCells(start, o, cache)
    {
      failures := 0;
      var j := 0;
      ghost var vx, vy, vz := ux, uy, uz;
      while j < N
        invariant 0 <= j <= N && U[..] == us
        invariant libState == old(libState).(consToPrimIter := libState.consToPrimIter)
        invariant ux == vx && uy == vy && uz == vz
        invariant Snapshot(P, failures) == ApplyCells(start, o[..j], cache)
      {
        failures := Pass(U, P, j, failures, start, o, cache, gamma, est, us);
        j := j + 1;
      }
      ApplyCellsWhole(start, o, cache);
    }

    /** One pass of the loop of cons_to_prim_array, at cell j. */
    method Pass(U: array<real>, P: array<real>, j: int, failures: int, ghost start: Conversion, ghost o: seq<PointResult>,
                cache: bool, ghost gamma: real, ghost est: bool, ghost us: seq<real>)
        returns (failures': int)
      requires ext.Valid() && libState.adiabaticGamma == gamma && UseEstimate() == est
      requires P != ux && P != uy && P != uz && U != P && U != ux && U != uy && U != uz
      requires 0 <= j < |o| && CacheFits(cache, start, |o|)
      requires cache ==> |o| <= ux.Length && |o| <= uy.Length && |o| <= uz.Length
      requires cache ==> ux != uy && ux != uz && uy != uz
      requires U[..] == us && ConvertibleCons(gamma, est, us, start.p, |o|)
      requires OutcomesOf(o, ext, gamma, est, us, start.p)
      requires Snapshot(P, failures) == ApplyCells(start, o[..j], cache)
      modifies this`libState, this`lastW, P, ux, uy, uz
      ensures libState == old(libState).(consToPrimIter := libState.consToPrimIter)
      ensures Snapshot(P, failures') == ApplyCells(start, o[..j + 1], cache)
    {
      ghost var before := ApplyCells(start, o[..j], cache);
      ApplyCellsStep(start, o, j, cache);
      ApplyCellsUntouched(start, o, j, cache);
      failures' := ConvertCell(U, P, j, failures, start.p, before, o, gamma, est, us);
      CacheCell(P, j, failures', start, o, cache);
    }

    /** The pass of the loop of cons_to_prim_array at cell j up to the cache:
        cons_to_prim_point on the cell. */
    method ConvertCell(U: array<real>, P: array<real>, j: int, failures: int, ghost ps: seq<real>,
                       ghost before: Conversion, ghost o: seq<PointResult>,
                       ghost gamma: real, ghost est: bool, ghost us: seq<real>)
        returns (failures': int)
      requires ext.Valid() && libState.adiabaticGamma == gamma && UseEstimate() == est
      requires U != P && P != ux && P != uy && P != uz
      requires 0 <= j < |o| && 8 * |o| <= |ps| == |before.p| && U[..] == us && ConvertibleCons(gamma, est, us, ps, |o|)
      requires OutcomesOf(o, ext, gamma, est, us, ps)
      requires Snapshot(P, failures) == before && Block(before.p, j) == Block(ps, j)
      modifies this`libState, this`lastW, P
      ensures libState == old(libState).(consToPrimIter := libState.consToPrimIter)
      ensures Snapshot(P, failures') == ApplyPoint(before, j, o[j])
    {
      var status, p := SolveCell(U, P, j, o, gamma, est, us, ps);
      failures' := failures + status;
      if status == 0 {
        Store(P, j, p);
      }
    }

    /** cons_to_prim_point on cell j of U with the guess in cell j of P,
        which are those of the outcome o[j]. */
    method SolveCell(U: array<real>, P: array<real>, j: int, ghost o: seq<PointResult>,
                     ghost gamma: real, ghost est: bool, ghost us: seq<real>, ghost ps: seq<real>)
        returns (status: int, p: Vec8)
      requires ext.Valid() && libState.adiabaticGamma == gamma && UseEstimate() == est
      requires 0 <= j < |o| && U[..] == us && ConvertibleCons(gamma, est, us, ps, |o|)
      requires 8 * |o| <= P.Length && Block(P[..], j) == Block(ps, j)
      requires OutcomesOf(o, ext, gamma, est, us, ps)
      modifies this`libState, this`lastW
      ensures status == 0 || status == 1
      ensures status == 1 <==> o[j].Unsolved?
      ensures o[j].Unsolved? ==> p == Block(ps, j) && libState == old(libState) && lastW == old(lastW)
      ensures o[j].Solved? ==> p == o[j].p && lastW == o[j].w
                               && libState == old(libState).(consToPrimIter := old(libState.consToPrimIter) + o[j].nIter)
    {
      var u := Cell(U[..], 8 * j);
      var guess := Cell(P[..], 8 * j);
      assert u == Block(us, j) && guess == Block(ps, j);
      status, p := ConsToPrimPoint(u, guess);
    }

    /** The rest of the pass at cell j: its cache entry from last_W, when
        the cache is written. */
    method CacheCell(P: array<real>, j: int, ghost failures: int,
                     ghost start: Conversion, ghost o: seq<PointResult>, cache: bool)
      requires P != ux && P != uy && P != uz
      requires CacheFits(cache, start, |o|) && 0 <= j < |o| && 8 * |o| <= |start.p|
      requires cache ==> |o| <= ux.Length && |o| <= uy.Length && |o| <= uz.Length
      requires cache ==> ux != uy && ux != uz && uy != uz
      requires Snapshot(P, failures) == ApplyPoint(ApplyCells(start, o[..j], cache), j, o[j])
      requires !cache ==> Snapshot(P, failures) == ApplyCells(start, o[..j + 1], cache)
      modifies ux, uy, uz
      ensures Snapshot(P, failures) == ApplyCells(start, o[..j + 1], cache)
    {
      if cache {
        ApplyCellsStep(start, o, j, cache);
        CacheVelocity(P, j, failures, ApplyPoint(ApplyCells(start, o[..j], cache), j, o[j]));
      }
    }

    /** The cache entry of cell j: last_W times the velocity now in the cell. */
    method CacheVelocity(P: array<real>, j: int, ghost failures: int, ghost mid: Conversion)
      requires P != ux && P != uy && P != uz && ux != uy && ux != uz && uy != uz
      requires 0 <= j && 8 * j + 8 <= P.Length && j < ux.Length && j < uy.Length && j < uz.Length
      requires Snapshot(P, failures) == mid
      modifies ux, uy, uz
      ensures Snapshot(P, failures) == ApplyCache(mid, j)
    {
      ux[j] := FourVelocity(lastW, P[8 * j + Vx]);
      uy[j] := FourVelocity(lastW, P[8 * j + Vy]);
      uz[j] := FourVelocity(lastW, P[8 * j + Vz]);
    }

    /** prim_to_cons_array(P, U, N): the first N cells of U converted. */
    method PrimToConsArray(P: array<real>, U: array<real>, N: int) returns (status: int)
      requires ext.Valid() && libState.adiabaticGamma != 1.0 && P != U
      requires ConvertiblePrims(P[..], N) && 8 * N <= U.Length
      modifies U
      ensures status == 0
      ensures U[..] == PrimToConsCells(ext, libState.adiabaticGamma, P[..], old(U[..]), N)
    {
      var gamma := libState.adiabaticGamma;
      ghost var p := P[..];
      ghost var cs := ConvertedPrims(ext, gamma, p, N);
      ghost var u0 := U[..];
      var j := 0;
      while j < N
        invariant 0 <= j <= N && P[..] == p
        invariant U[..] == SpliceAll(u0, cs[..j])
      {
        var cell := Cell(P[..], 8 * j);
        assert cell == Block(p, j);
        var c := PrimToCons(ext, gamma, cell);
        SpliceAllStep(u0, cs, j);
        Store(U, j, c);
        j := j + 1;
      }
      SpliceAllWhole(u0, cs);
      status := 0;
    }

    // ---------------------------------------------------------------- dUdt

    /** What a sweep along axis a reads besides the arrays. */
    function SetupAlong(a: int): Setup
      reads this`libState, this`slopeLimiter, this`stride
      requires |stride| == 4 && IsAxis(a)
    {
      Setup(ext, SchemeOf(libState), slopeLimiter, a, stride[a])
    }

    /** What cons_to_prim_array(U, PrimitiveArray, stride[0]/8) makes of the
        primitive array, the counters and the cache. */
    ghost function Converted(U: array<real>): Conversion
      reads this, U, primitive, ux, uy, uz
      requires ext.Valid() && |stride| == 4
      requires ConvertibleCons(libState.adiabaticGamma, UseEstimate(), U[..], ArrayStart(primitive).p, stride[0] / 8)
      requires CacheFits(WritesCache(), ArrayStart(primitive), stride[0] / 8)
    {
      ConvertCells(ext, libState.adiabaticGamma, UseEstimate(), WritesCache(), U[..], ArrayStart(primitive), stride[0] / 8)
    }

    /** The arrays the sweeps of dUdt read: the converted primitives and cache. */
    ghost function ConvertedGrid(U: array<real>): Grid
      reads this, U, primitive, ux, uy, uz
      requires ext.Valid() && |stride| == 4
      requires ConvertibleCons(libState.adiabaticGamma, UseEstimate(), U[..], ArrayStart(primitive).p, stride[0] / 8)
      requires CacheFits(WritesCache(), ArrayStart(primitive), stride[0] / 8)
    {
      var r := Converted(U);
      Grid(r.p, r.ux, r.uy, r.uz)
    }

    /** What dUdt over the first d axes demands in Alive mode: L another
        array of stride[0] doubles, U convertible into the primitive array,
        cell sizes that can be divided by, every sweep solvable on the
        converted primitives, and, for constraint transport, a cell along
        every axis. */
    ghost predicate Ready(U: array<real>, L: array<real>, d: int)
      reads this, U, primitive, ux, uy, uz
    {
      && Valid() && opState == Alive && 1 <= d <= 3 && libState.adiabaticGamma > 1.0
      && (2 <= d ==> StridesValid())
      && L.Length == stride[0]
      && L != primitive && L != fluxX && L != fluxY && L != fluxZ && L != ux && L != uy && L != uz
      && U != primitive && U != ux && U != uy && U != uz
      && ConvertibleCons(libState.adiabaticGamma, UseEstimate(), U[..], ArrayStart(primitive).p, stride[0] / 8)
      && dx != 0.0 && (2 <= d ==> dy != 0.0) && (d == 3 ==> dz != 0.0)
      && Solvable(SetupAlong(1), ConvertedGrid(U))
      && (2 <= d ==> Solvable(SetupAlong(2), ConvertedGrid(U)))
      && (d == 3 ==> Solvable(SetupAlong(3), ConvertedGrid(U)))
    }

    /** dUdt_1d(U, L): 1 in Dead mode, with nothing changed; otherwise
        Advance1D. */
    method DUdt1D(U: array<real>, L: array<real>) returns (failures: int)
      requires Valid() && (opState == Alive ==> Ready(U, L, 1))
      modifies this`libState, this`lastW, this`dimension, primitive, fluxX, ux, uy, uz, L
      ensures opState == Dead ==>
                && failures == 1 && libState == old(libState) && lastW == old(lastW) && dimension == old(dimension)
                && unchanged(primitive, fluxX, ux, uy, uz, L)
      ensures opState == Alive ==> Advanced1D(old(Converted(U)), old(SetupAlong(1)), old(libState), libState,
                                              old(L[..]), Conversion(primitive[..], failures, libState.consToPrimIter,
                                              lastW, ux[..], uy[..], uz[..]), fluxX[..], L[..], dx) && dimension == 1
    {
      if opState == Dead {
        return 1;
      }
      failures := Advance1D(U, L);
    }

    /** dUdt_1d in Alive mode: the primitives converted from U, the x
        sweep into FluxInterArray_x, and L from S = stride[1] on minus the
        flux difference over dx; the conversion failures are returned. */
    method Advance1D(U: array<real>, L: array<real>) returns (failures: int)
      requires Ready(U, L, 1)
      modifies this`libState, this`lastW, this`dimension, primitive, fluxX, ux, uy, uz, L
      ensures Advanced1D(old(Converted(U)), old(SetupAlong(1)), old(libState), libState,
                         old(L[..]), Conversion(primitive[..], failures, libState.consToPrimIter,
                         lastW, ux[..], uy[..], uz[..]), fluxX[..], L[..], dx) && dimension == 1
    {
      ghost var r, c, m0, l0 := Converted(U), SetupAlong(1), libState.maxLambda, L[..];
      failures := ConsToPrimArray(U, primitive, stride[0] / 8);
      Sweep1D(L, c, Grid(r.p, r.ux, r.uy, r.uz), m0, l0);
    }

    /** dUdt_1d after the conversion: dimension 1, Fiph(P, F) and the loop
        over L. */
    method Sweep1D(L: array<real>, ghost c: Setup, ghost g: Grid, ghost m0: real, ghost l0: seq<real>)
      requires ext.Valid() && Allocated() && L.Length == stride[0] && dx != 0.0
      requires L != primitive && L != fluxX && L != ux && L != uy && L != uz
      requires c == SetupAlong(1) && g == GridOf(primitive) && m0 == libState.maxLambda && l0 == L[..]
      requires Solvable(c, g)
      modifies this`libState, this`dimension, fluxX, L
      ensures dimension == 1 && libState == old(libState).(maxLambda := libState.maxLambda)
      ensures Swept1D(c, g, m0, libState.maxLambda, l0, fluxX[..], L[..], dx)
    {
      assert fluxX.Length != ux.Length;
      dimension := 1;
      assert SetupNow() == c;
      var status := Fiph(primitive, fluxX);
      var s := stride[dimension];
      RateLoop1D(fluxX, L, stride[0], s, dx);
      forall k | 0 <= k < 8
        ensures Sum(Column(L[..], k), s / 8, stride[0] / 8) == 0.0
      {
        SweepConserved1D(c, g, fluxX[..], l0, dx, k);
      }
    }

    /** The loop of dUdt_1d: L[i] = -(F[i] - F[i - S])/dx for S <= i < n. */
    static method RateLoop1D(F: array<real>, L: array<real>, n: int, s: int, dx: real)
      requires F != L && F.Length == n && L.Length == n && 0 <= s <= n && dx != 0.0
      modifies L
      ensures L[..] == Rate1D(old(L[..]), F[..], s, dx)
    {
      ghost var r := Rate1D(L[..], F[..], s, dx);
      var i := s;
      while i < n
        invariant s <= i <= n
        invariant forall q :: 0 <= q < n ==> L[q] == (if q < i then r[q] else old(L[q]))
      {
        L[i] := -(F[i] - F[i - s]) / dx;
        i := i + 1;
      }
      assert L[..] == r;
    }

    /** dUdt_2d(U, L): 1 in Dead mode, with nothing changed; otherwise
        Advance2D. */
    method DUdt2D(U: array<real>, L: array<real>) returns (failures: int, ghost fx0: seq<real>, ghost fy0: seq<real>)
      requires Valid() && (opState == Alive ==> Ready(U, L, 2))
      modifies this`libState, this`lastW, this`dimension, primitive, fluxX, fluxY, ux, uy, uz, L
      ensures opState == Dead ==>
                && failures == 1 && libState == old(libState) && lastW == old(lastW) && dimension == old(dimension)
                && unchanged(primitive, fluxX, fluxY, ux, uy, uz, L)
      ensures opState == Alive ==> Advanced2D(old(Converted(U)), old(SetupAlong(1)), old(SetupAlong(2)),
                                              old(libState), libState, old(L[..]),
                                              Conversion(primitive[..], failures, libState.consToPrimIter,
                                              lastW, ux[..], uy[..], uz[..]),
                                              fx0, fy0, fluxX[..], fluxY[..], L[..], dx, dy) && dimension == 2
    {
      if opState == Dead {
        return 1, [], [];
      }
      failures, fx0, fy0 := Advance2D(U, L);
    }

    /** dUdt_2d in Alive mode: the primitives converted from U, the x and y
        sweeps into FluxInterArray_x and _y (fx0, fy0), constraint transport
        of the two, and L from sx = stride[1] on minus the two flux
        differences; the conversion failures are returned. */
    method Advance2D(U: array<real>, L: array<real>) returns (failures: int, ghost fx0: seq<real>, ghost fy0: seq<real>)
      requires Ready(U, L, 2)
      modifies this`libState, this`lastW, this`dimension, primitive, fluxX, fluxY, ux, uy, uz, L
      ensures Advanced2D(old(Converted(U)), old(SetupAlong(1)), old(SetupAlong(2)), old(libState), libState,
                         old(L[..]), Conversion(primitive[..], failures, libState.consToPrimIter,
                         lastW, ux[..], uy[..], uz[..]), fx0, fy0, fluxX[..], fluxY[..], L[..], dx, dy)
      ensures dimension == 2
    {
      ghost var r, cx, cy, m0, l0 := Converted(U), SetupAlong(1), SetupAlong(2), libState.maxLambda, L[..];
      failures := ConsToPrimArray(U, primitive, stride[0] / 8);
      fx0, fy0 := Sweep2D(L, cx, cy, Grid(r.p, r.ux, r.uy, r.uz), m0, l0);
    }

    /** dUdt_2d after the conversion: Fiph along x and y, constraint
        transport and the loop over L. */
    method Sweep2D(L: array<real>, ghost cx: Setup, ghost cy: Setup, ghost g: Grid, ghost m0: real, ghost l0: seq<real>)
        returns (ghost fx0: seq<real>, ghost fy0: seq<real>)
      requires ext.Valid() && Allocated() && StridesValid() && L.Length == stride[0] && dx != 0.0 && dy != 0.0
      requires L != primitive && L != fluxX && L != fluxY && L != ux && L != uy && L != uz
      requires cx == SetupAlong(1) && cy == SetupAlong(2) && g == GridOf(primitive)
      requires m0 == libState.maxLambda && l0 == L[..]
      requires Solvable(cx, g) && Solvable(cy, g)
      modifies this`libState, this`dimension, fluxX, fluxY, L
      ensures dimension == 2 && libState == old(libState).(maxLambda := libState.maxLambda)
      ensures Swept2D(cx, cy, g, m0, libState.maxLambda, l0, fx0, fy0, fluxX[..], fluxY[..], L[..], dx, dy)
    {
      assert fluxX.Length != ux.Length;
      dimension := 1;
      assert SetupNow() == cx;
      var status := Fiph(primitive, fluxX);
      fx0 := fluxX[..];
      dimension := 2;
      assert SetupNow() == cy;
      status := Fiph(primitive, fluxY);
      fy0 := fluxY[..];
      status := ConstraintTransport2D(fluxX, fluxY);
      RateLoop2D(fluxX, fluxY, L, stride[0], stride[1], stride[2], dx, dy);
      forall i | i % 8 == 0 && CornerStencil(stride[0], i, stride[1], stride[2])
        ensures FieldDivergence2D(L[..], i, stride[1], stride[2], dx, dy) == 0.0
      {
        TransportedRatesDivergenceFree(fx0, fy0, fluxX[..], fluxY[..], l0, stride[1], stride[2], dx, dy, i);
      }
    }

    /** The loop of dUdt_2d: L[i] = -(F[i] - F[i - sx])/dx - (G[i] - G[i - sy])/dy
        for sx <= i < n. */
    static method RateLoop2D(F: array<real>, G: array<real>, L: array<real>, n: int, sx: int, sy: int, dx: real, dy: real)
      requires F != L && G != L && F.Length == n && G.Length == n && L.Length == n
      requires 0 <= sy <= sx <= n && dx != 0.0 && dy != 0.0
      modifies L
      ensures L[..] == Rate2D(old(L[..]), F[..], G[..], sx, sy, dx, dy)
    {
      ghost var r := Rate2D(L[..], F[..], G[..], sx, sy, dx, dy);
      var i := sx;
      while i < n
        invariant sx <= i <= n
        invariant forall q :: 0 <= q < n ==> L[q] == (if q < i then r[q] else old(L[q]))
      {
        L[i] := -(F[i] - F[i - sx]) / dx - (G[i] - G[i - sy]) / dy;
        i := i + 1;
      }
      assert L[..] == r;
    }

    /** dUdt_3d(U, L): 1 in Dead mode, with nothing changed; otherwise
        Advance3D. */
    method DUdt3D(U: array<real>, L: array<real>)
        returns (failures: int, ghost fx0: seq<real>, ghost fy0: seq<real>, ghost fz0: seq<real>)
      requires Valid() && (opState == Alive ==> Ready(U, L, 3))
      modifies this`libState, this`lastW, this`dimension, primitive, fluxX, fluxY, fluxZ, ux, uy, uz, L
      ensures opState == Dead ==>
                && failures == 1 && libState == old(libState) && lastW == old(lastW) && dimension == old(dimension)
                && unchanged(primitive, fluxX, fluxY, fluxZ, ux, uy, uz, L)
      ensures opState == Alive ==> Advanced3D(old(Converted(U)), old(SetupAlong(1)), old(SetupAlong(2)),
                                              old(SetupAlong(3)), old(libState), libState, old(L[..]),
                                              Conversion(primitive[..], failures, libState.consToPrimIter,
                                              lastW, ux[..], uy[..], uz[..]),
                                              fx0, fy0, fz0, fluxX[..], fluxY[..], fluxZ[..], L[..], dx, dy, dz)
                                   && dimension == 3
    {
      if opState == Dead {
        return 1, [], [], [];
      }
      failures, fx0, fy0, fz0 := Advance3D(U, L);
    }

    /** dUdt_3d in Alive mode: the conversion, the three sweeps (fx0, fy0,
        fz0), constraint transport of the three, and L from sx = stride[1]
        on minus the three flux differences. */
    method Advance3D(U: array<real>, L: array<real>)
        returns (failures: int, ghost fx0: seq<real>, ghost fy0: seq<real>, ghost fz0: seq<real>)
      requires Ready(U, L, 3)
      modifies this`libState, this`lastW, this`dimension, primitive, fluxX, fluxY, fluxZ, ux, uy, uz, L
      ensures Advanced3D(old(Converted(U)), old(SetupAlong(1)), old(SetupAlong(2)), old(SetupAlong(3)),
                         old(libState), libState, old(L[..]),
                         Conversion(primitive[..], failures, libState.consToPrimIter, lastW, ux[..], uy[..], uz[..]),
                         fx0, fy0, fz0, fluxX[..], fluxY[..], fluxZ[..], L[..], dx, dy, dz)
      ensures dimension == 3
    {
      ghost var r, cx, cy, cz := Converted(U), SetupAlong(1), SetupAlong(2), SetupAlong(3);
      ghost var m0, l0 := libState.maxLambda, L[..];
      failures := ConsToPrimArray(U, primitive, stride[0] / 8);
      fx0, fy0, fz0 := Sweep3D(L, cx, cy, cz, Grid(r.p, r.ux, r.uy, r.uz), m0, l0);
    }

    /** dUdt_3d after the conversion: Fiph along x, y and z, constraint
        transport and the loop over L. */
    method Sweep3D(L: array<real>, ghost cx: Setup, ghost cy: Setup, ghost cz: Setup, ghost g: Grid,
                   ghost m0: real, ghost l0: seq<real>)
        returns (ghost fx0: seq<real>, ghost fy0: seq<real>, ghost fz0: seq<real>)
      requires ext.Valid() && Allocated() && StridesValid() && L.Length == stride[0]
      requires dx != 0.0 && dy != 0.0 && dz != 0.0
      requires L != primitive && L != fluxX && L != fluxY && L != fluxZ && L != ux && L != uy && L != uz
      requires cx == SetupAlong(1) && cy == SetupAlong(2) && cz == SetupAlong(3) && g == GridOf(primitive)
      requires m0 == libState.maxLambda && l0 == L[..]
      requires Solvable(cx, g) && Solvable(cy, g) && Solvable(cz, g)
      modifies this`libState, this`dimension, fluxX, fluxY, fluxZ, L
      ensures dimension == 3 && libState == old(libState).(maxLambda := libState.maxLambda)
      ensures Swept3D(cx, cy, cz, g, m0, libState.maxLambda, l0, fx0, fy0, fz0, fluxX[..], fluxY[..], fluxZ[..],
                      L[..], dx, dy, dz)
    {
      assert fluxX.Length != ux.Length;
      dimension := 1;
      assert SetupNow() == cx;
      var status := Fiph(primitive, fluxX);
      fx0 := fluxX[..];
      dimension := 2;
      assert SetupNow() == cy;
      status := Fiph(primitive, fluxY);
      fy0 := fluxY[..];
      dimension := 3;
      assert SetupNow() == cz;
      status := Fiph(primitive, fluxZ);
      fz0 := fluxZ[..];
      status := ConstraintTransport3D(fluxX, fluxY, fluxZ);
      RateLoop3D(fluxX, fluxY, fluxZ, L, stride[0], stride[1], stride[2], stride[3], dx, dy, dz);
    }

    /** The loop of dUdt_3d: the three flux differences for sx <= i < n. */
    static method RateLoop3D(F: array<real>, G: array<real>, H: array<real>, L: array<real>,
                             n: int, sx: int, sy: int, sz: int, dx: real, dy: real, dz: real)
      requires F != L && G != L && H != L && F.Length == n && G.Length == n && H.Length == n && L.Length == n
      requires 0 <= sz <= sy <= sx <= n && dx != 0.0 && dy != 0.0 && dz != 0.0
      modifies L
      ensures L[..] == Rate3D(old(L[..]), F[..], G[..], H[..], sx, sy, sz, dx, dy, dz)
    {
      ghost var r := Rate3D(L[..], F[..], G[..], H[..], sx, sy, sz, dx, dy, dz);
      var i := sx;
      while i < n
        invariant sx <= i <= n
        invariant forall q :: 0 <= q < n ==> L[q] == (if q < i then r[q] else old(L[q]))
      {
        L[i] := -(F[i] - F[i - sx]) / dx - (G[i] - G[i - sy]) / dy - (H[i] - H[i - sz]) / dz;
        i := i + 1;
      }
      assert L[..] == r;
    }
  }

  /** What the part of dUdt_1d after the conversion leaves, given the x
      sweep setup c and the grid g it reads: the sweep of g in f, max_lambda
      m raised from m0 by the speeds its interfaces offer, and L the update
      of l0, whose every conserved quantity sums to zero over the cells from
      S on. */
  ghost predicate Swept1D(c: Setup, g: Grid, m0: real, m: real, l0: seq<real>, f: seq<real>, l: seq<real>, dx: real)
  {
    && Solvable(c, g) && SweepWritten(c, g, f) && |l0| == |f| && dx != 0.0
    && l == Rate1D(l0, f, c.s, dx)
    && m == RaiseAll(m0, Offers(c, g, Interfaces(|f|, c.s)))
    && forall k :: 0 <= k < 8 ==> Sum(Column(l, k), c.s / 8, |l| / 8) == 0.0
  }

  /** What dUdt_1d leaves in Alive mode, given the conversion r of U and the
      x sweep setup c on the state before it: the primitives, failure count,
      counters and cache of r (now), lib_state with r's iteration count, and
      Swept1D on the converted primitives. */
  ghost predicate Advanced1D(r: Conversion, c: Setup, st0: LibraryState, st: LibraryState, l0: seq<real>,
                             now: Conversion, f: seq<real>, l: seq<real>, dx: real)
  {
    && now == r && st == st0.(consToPrimIter := r.iter, maxLambda := st.maxLambda)
    && Swept1D(c, Grid(r.p, r.ux, r.uy, r.uz), st0.maxLambda, st.maxLambda, l0, f, l, dx)
  }

  /** What the part of dUdt_2d after the conversion leaves, given the x and
      y sweep setups cx, cy and the grid g: the two sweeps of g in fx0 and
      fy0; fx and fy their constraint transport; max_lambda m raised from m0
      by the x interfaces, then the y ones; and L the update of l0, whose
      field rates have zero corner divergence at every corner with its whole
      stencil inside the grid. */
  ghost predicate Swept2D(cx: Setup, cy: Setup, g: Grid, m0: real, m: real, l0: seq<real>,
                          fx0: seq<real>, fy0: seq<real>, fx: seq<real>, fy: seq<real>, l: seq<real>, dx: real, dy: real)
  {
    && Solvable(cx, g) && Solvable(cy, g) && SweepWritten(cx, g, fx0) && SweepWritten(cy, g, fy0)
    && Transported2D(fx0, fy0, fx, fy, cx.s, cy.s) && |l0| == |fx| && dx != 0.0 && dy != 0.0
    && l == Rate2D(l0, fx, fy, cx.s, cy.s, dx, dy)
    && m == RaiseAll(RaiseAll(m0, Offers(cx, g, Interfaces(|fx|, cx.s))), Offers(cy, g, Interfaces(|fx|, cy.s)))
    && forall i :: i % 8 == 0 && CornerStencil(|l|, i, cx.s, cy.s) ==> FieldDivergence2D(l, i, cx.s, cy.s, dx, dy) == 0.0
  }

  /** What dUdt_2d leaves in Alive mode: the conversion r of U as in
      Advanced1D, and Swept2D on the converted primitives. */
  ghost predicate Advanced2D(r: Conversion, cx: Setup, cy: Setup, st0: LibraryState, st: LibraryState, l0: seq<real>,
                             now: Conversion, fx0: seq<real>, fy0: seq<real>, fx: seq<real>, fy: seq<real>,
                             l: seq<real>, dx: real, dy: real)
  {
    && now == r && st == st0.(consToPrimIter := r.iter, maxLambda := st.maxLambda)
    && Swept2D(cx, cy, Grid(r.p, r.ux, r.uy, r.uz), st0.maxLambda, st.maxLambda, l0, fx0, fy0, fx, fy, l, dx, dy)
  }

  /** What the part of dUdt_3d after the conversion leaves: as Swept2D with
      the three sweeps fx0, fy0, fz0, their three-dimensional constraint
      transport and the three-term update of l0. */
  ghost predicate Swept3D(cx: Setup, cy: Setup, cz: Setup, g: Grid, m0: real, m: real, l0: seq<real>,
                          fx0: seq<real>, fy0: seq<real>, fz0: seq<real>, fx: seq<real>, fy: seq<real>, fz: seq<real>,
                          l: seq<real>, dx: real, dy: real, dz: real)
  {
    && Solvable(cx, g) && Solvable(cy, g) && Solvable(cz, g)
    && SweepWritten(cx, g, fx0) && SweepWritten(cy, g, fy0) && SweepWritten(cz, g, fz0)
    && Transported3D(fx0, fy0, fz0, fx, fy, fz, cx.s, cy.s, cz.s) && |l0| == |fx|
    && dx != 0.0 && dy != 0.0 && dz != 0.0
    && l == Rate3D(l0, fx, fy, fz, cx.s, cy.s, cz.s, dx, dy, dz)
    && m == RaiseAll(RaiseAll(RaiseAll(m0, Offers(cx, g, Interfaces(|fx|, cx.s))),
                              Offers(cy, g, Interfaces(|fx|, cy.s))),
                     Offers(cz, g, Interfaces(|fx|, cz.s)))
  }

  /** What dUdt_3d leaves in Alive mode: the conversion r of U as in
      Advanced1D, and Swept3D on the converted primitives. */
  ghost predicate Advanced3D(r: Conversion, cx: Setup, cy: Setup, cz: Setup, st0: LibraryState, st: LibraryState,
                             l0: seq<real>, now: Conversion, fx0: seq<real>, fy0: seq<real>, fz0: seq<real>,
                             fx: seq<real>, fy: seq<real>, fz: seq<real>, l: seq<real>, dx: real, dy: real, dz: real)
  {
    && now == r && st == st0.(consToPrimIter := r.iter, maxLambda := st.maxLambda)
    && Swept3D(cx, cy, cz, Grid(r.p, r.ux, r.uy, r.uz), st0.maxLambda, st.maxLambda, l0,
               fx0, fy0, fz0, fx, fy, fz, l, dx, dy, dz)
  }

  /** The cell size L/(N - 2 Ng) along an axis of N cells and length L. */
  function CellSize(l: real, n: int): real
    requires n != 2 * GuardCells
  {
    l / (n - 2 * GuardCells) as real
  }

  /** stride[] of an Nx x Ny x Nz grid of 8-double cells: non-negative
      multiples of 8, zero exactly when some axis is empty, and nested when
      every axis has a cell. */
  function GridStrides(nx: int, ny: int, nz: int): (s: seq<int>)
    requires nx >= 0 && ny >= 0 && nz >= 0
    ensures |s| == 4 && s[3] == 8 && s[0] >= 0 && s[1] >= 0 && s[2] >= 0
    ensures s[2] % 8 == 0 && s[1] % 8 == 0 && s[0] % 8 == 0
    ensures s[0] == 0 <==> nx == 0 || ny == 0 || nz == 0
    ensures nx >= 1 && ny >= 1 && nz >= 1 ==> s[3] <= s[2] <= s[1] <= s[0]
  {
    MulNonNegative(ny, nz);
    MulNonNegative(nx, ny * nz);
    MultipleOfEight(nz);
    MultipleOfEight(ny * nz);
    MultipleOfEight(nx * (ny * nz));
    NestedStrides(nx, ny, nz);
    [nx * (ny * nz) * 8, ny * nz * 8, nz * 8, 8]
  }

  lemma NestedStrides(nx: int, ny: int, nz: int)
    requires nx >= 0 && ny >= 0 && nz >= 0
    ensures nx >= 1 && ny >= 1 && nz >= 1 ==> nz * 8 <= ny * nz * 8 <= nx * (ny * nz) * 8
  {
    if nx >= 1 && ny >= 1 && nz >= 1 {
      MulAtLeastOne(ny, nz);
      MulAtLeastOne(nx, ny * nz);
      MulMonotoneInt(nz, ny * nz);
      MulMonotoneInt(ny * nz, nx * (ny * nz));
    }
  }

  lemma MulNonNegative(a: int, b: int)
    requires a >= 0 && b >= 0
    ensures a * b >= 0 && (a * b == 0 <==> a == 0 || b == 0)
  {
    if a >= 1 && b >= 1 { MulAtLeastOne(a, b); }
  }

  lemma MulMonotoneInt(a: int, b: int)
    requires a <= b
    ensures a * 8 <= b * 8
  {
  }

  lemma MultipleOfEight(m: int)
    ensures (m * 8) % 8 == 0 && (m * 8) / 8 == m
  {
  }

  /** An array after Store at cell j is the splice of that cell. */
  lemma StoreIsSplice(before: seq<real>, after: seq<real>, j: int, c: Vec8)
    requires |after| == |before| && 0 <= j && 8 * j + 8 <= |before|
    requires Cell(after, 8 * j) == c
    requires forall q :: 0 <= q < |before| && (q < 8 * j || 8 * j + 8 <= q) ==> after[q] == before[q]
    ensures after == Splice(before, j, c)
  {
    var r := Splice(before, j, c);
    forall q | 0 <= q < |before|
      ensures after[q] == r[q]
    {
      if 8 * j <= q < 8 * j + 8 {
        assert r[q] == Block(r, j)[q - 8 * j];
      }
    }
  }

  lemma MulAtLeastOne(a: int, b: int)
    requires a >= 1 && b >= 1
    ensures a * b >= 1 && a * b >= b
  {
    assert a * b == (a - 1) * b + b;
    assert (a - 1) * b >= 0;
  }
}
