/** The array conversions cons_to_prim_array and prim_to_cons_array as
    folds over the cells, and what they amount to cell by cell. Engine's
    methods of the same names are the loops, proved equal to these. */
module Cells {
  import opened StateVec
  import opened Externals
  import opened Arith
  import opened Convert
  import opened RoundTrip

  // -------------------------------------------------- prim_to_cons_array

  /** Every one of the first n cells can be converted by prim_to_cons_point. */
  ghost predicate ConvertiblePrims(p: seq<real>, n: int)
  {
    0 <= n && 8 * n <= |p| && forall j :: 0 <= j < n ==> Block(p, j)[Rho] != 0.0 && V2(Block(p, j)) < 1.0
  }

  /** The cells of cs written over the first |cs| cells of u, in order. */
  function SpliceAll(u: seq<real>, cs: seq<Vec8>): (r: seq<real>)
    requires 8 * |cs| <= |u|
    ensures |r| == |u|
    ensures forall q :: 8 * |cs| <= q < |u| ==> r[q] == u[q]
  {
    if |cs| == 0 then u
    else Splice(SpliceAll(u, cs[..|cs| - 1]), |cs| - 1, cs[|cs| - 1])
  }

  /** Writing one more cell. */
  lemma SpliceAllStep(u: seq<real>, cs: seq<Vec8>, j: int)
    requires 8 * |cs| <= |u| && 0 <= j < |cs|
    ensures SpliceAll(u, cs[..j + 1]) == Splice(SpliceAll(u, cs[..j]), j, cs[j])
  {
    assert cs[..j + 1][..j] == cs[..j];
  }

  lemma SpliceAllWhole(u: seq<real>, cs: seq<Vec8>)
    requires 8 * |cs| <= |u|
    ensures SpliceAll(u, cs[..|cs|]) == SpliceAll(u, cs)
  {
    assert cs[..|cs|] == cs;
  }

  /** Each cell of the result is the cell written there. */
  lemma {:induction false} SpliceAllAt(u: seq<real>, cs: seq<Vec8>, j: int)
    requires 8 * |cs| <= |u| && 0 <= j < |cs|
    ensures Block(SpliceAll(u, cs), j) == cs[j]
  {
    var k := |cs| - 1;
    if j < k {
      SpliceAllAt(u, cs[..k], j);
      SpliceOtherBlock(SpliceAll(u, cs[..k]), k, cs[k], j);
    }
  }

  /** prim_to_cons_point on each of the first n cells of p. */
  function ConvertedPrims(e: Ext, gamma: real, p: seq<real>, n: int): (cs: seq<Vec8>)
    requires e.Valid() && gamma != 1.0 && ConvertiblePrims(p, n)
    ensures |cs| == n
    ensures forall j :: 0 <= j < n ==> cs[j] == PrimToCons(e, gamma, Block(p, j))
  {
    seq(n, j requires 0 <= j < n => PrimToCons(e, gamma, Block(p, j)))
  }

  /** u after prim_to_cons_array(p, u, n): the first n cells converted. */
  function PrimToConsCells(e: Ext, gamma: real, p: seq<real>, u: seq<real>, n: int): (r: seq<real>)
    requires e.Valid() && gamma != 1.0 && ConvertiblePrims(p, n) && 8 * n <= |u|
    ensures |r| == |u|
    ensures forall q :: 8 * n <= q < |u| ==> r[q] == u[q]
  {
    SpliceAll(u, ConvertedPrims(e, gamma, p, n))
  }

  /** Each converted cell is prim_to_cons_point of the same cell of p: the
      cells are independent. */
  lemma PrimToConsCellsAt(e: Ext, gamma: real, p: seq<real>, u: seq<real>, n: int, j: int)
    requires e.Valid() && gamma != 1.0 && ConvertiblePrims(p, n) && 8 * n <= |u| && 0 <= j < n
    ensures Block(PrimToConsCells(e, gamma, p, u, n), j) == PrimToCons(e, gamma, Block(p, j))
  {
    SpliceAllAt(u, ConvertedPrims(e, gamma, p, n), j);
  }

  // -------------------------------------------------- cons_to_prim_array

  /** What cons_to_prim_array carries from cell to cell: the primitive
      array, the failure count it returns, lib_state.cons_to_prim_iter,
      cons_to_prim_last_W and the 4-velocity cache. */
  datatype Conversion = Conversion(p: seq<real>, failures: int, iter: int, lastW: real,
                                   ux: seq<real>, uy: seq<real>, uz: seq<real>)

  /** The requirements of cons_to_prim_point on each of the first n cells. */
  ghost predicate ConvertibleCons(gamma: real, est: bool, u: seq<real>, p: seq<real>, n: int)
  {
    0 <= n && 8 * n <= |u| && 8 * n <= |p|
    && forall j {:trigger Block(u, j)} :: 0 <= j < n ==> Block(u, j)[Dens] > 0.0 && GuessUsable(gamma, est, Block(p, j))
  }

  /** The cache is written (mode PLM4Velocity, Alive) and has room for n cells. */
  predicate CacheFits(cache: bool, s: Conversion, n: int)
  {
    cache ==> n <= |s.ux| && |s.uy| == |s.ux| && |s.uz| == |s.ux|
  }

  /** cons_to_prim_point on each of the first n cells, from the conserved
      state and the guess already in that cell. Every cell is written only
      by its own call, so these are the guesses the loop reads. */
  function Outcomes(e: Ext, gamma: real, est: bool, u: seq<real>, p: seq<real>, n: int): (o: seq<PointResult>)
    requires e.Valid() && ConvertibleCons(gamma, est, u, p, n)
    ensures |o| == n
    ensures forall j {:trigger Block(u, j)} :: 0 <= j < n ==> o[j] == ConsToPrimSpec(e, gamma, est, Block(u, j), Block(p, j))
    decreases n
  {
    if n == 0 then []
    else
      assert ConvertibleCons(gamma, est, u, p, n - 1) by {
        forall j | 0 <= j < n - 1 ensures Block(u, j)[Dens] > 0.0 && GuessUsable(gamma, est, Block(p, j)) {
          assert Block(u, j) == Block(u, j);
        }
      }
      Outcomes(e, gamma, est, u, p, n - 1) + [ConsToPrimSpec(e, gamma, est, Block(u, n - 1), Block(p, n - 1))]
  }

  /** o holds what cons_to_prim_point gives on each of its cells. */
  ghost predicate OutcomesOf(o: seq<PointResult>, e: Ext, gamma: real, est: bool, u: seq<real>, p: seq<real>)
    requires e.Valid() && ConvertibleCons(gamma, est, u, p, |o|)
  {
    forall j {:trigger Block(u, j)} :: 0 <= j < |o| ==> o[j] == ConsToPrimSpec(e, gamma, est, Block(u, j), Block(p, j))
  }

  /** One pass of the loop of cons_to_prim_array at cell j, given what
      cons_to_prim_point did there; then, when the cache is written, the
      cache entry of the cell. */
  function ApplyCell(s: Conversion, j: int, res: PointResult, cache: bool): (r: Conversion)
    requires 0 <= j && 8 * j + 8 <= |s.p| && CacheFits(cache, s, j + 1)
    ensures |r.p| == |s.p| && |r.ux| == |s.ux| && |r.uy| == |s.uy| && |r.uz| == |s.uz|
    ensures forall q :: 0 <= q < |s.p| && (q < 8 * j || 8 * j + 8 <= q) ==> r.p[q] == s.p[q]
  {
    if cache then ApplyCache(ApplyPoint(s, j, res), j) else ApplyPoint(s, j, res)
  }

  /** What cons_to_prim_point leaves at cell j: on success the cell, the
      iteration count and last_W are updated, on failure only the failure
      count. */
  function ApplyPoint(s: Conversion, j: int, res: PointResult): (r: Conversion)
    requires 0 <= j && 8 * j + 8 <= |s.p|
    ensures r.ux == s.ux && r.uy == s.uy && r.uz == s.uz && |r.p| == |s.p|
  {
    match res
    case Unsolved => s.(failures := s.failures + 1)
    case Solved(p, n, w) => s.(p := Splice(s.p, j, p), iter := s.iter + n, lastW := w)
  }

  /** The cache entry of cell j: last_W times the cell's velocity. */
  function ApplyCache(t: Conversion, j: int): (r: Conversion)
    requires 0 <= j && 8 * j + 8 <= |t.p| && j < |t.ux| && j < |t.uy| && j < |t.uz|
    ensures r.p == t.p && r.failures == t.failures && r.iter == t.iter && r.lastW == t.lastW
    ensures |r.ux| == |t.ux| && |r.uy| == |t.uy| && |r.uz| == |t.uz|
    ensures r.ux[j] == FourVelocity(t.lastW, t.p[8 * j + Vx])
  {
    t.(ux := t.ux[j := FourVelocity(t.lastW, t.p[8 * j + Vx])],
       uy := t.uy[j := FourVelocity(t.lastW, t.p[8 * j + Vy])],
       uz := t.uz[j := FourVelocity(t.lastW, t.p[8 * j + Vz])])
  }

  /** A cached 4-velocity component u = W v. */
  function FourVelocity(w: real, v: real): real
  {
    w * v
  }

  /** The state after the loop has run over the cells of the outcomes o. */
  function ApplyCells(start: Conversion, o: seq<PointResult>, cache: bool): (r: Conversion)
    requires 8 * |o| <= |start.p| && CacheFits(cache, start, |o|)
    ensures |r.p| == |start.p| && |r.ux| == |start.ux| && |r.uy| == |start.uy| && |r.uz| == |start.uz|
    ensures forall q :: 8 * |o| <= q < |start.p| ==> r.p[q] == start.p[q]
    ensures start.failures <= r.failures <= start.failures + |o|
  {
    if |o| == 0 then start
    else ApplyCell(ApplyCells(start, o[..|o| - 1], cache), |o| - 1, o[|o| - 1], cache)
  }

  /** One more pass of the loop. */
  lemma ApplyCellsStep(start: Conversion, o: seq<PointResult>, j: int, cache: bool)
    requires 0 <= j < |o| && 8 * |o| <= |start.p| && CacheFits(cache, start, |o|)
    ensures ApplyCells(start, o[..j + 1], cache) == ApplyCell(ApplyCells(start, o[..j], cache), j, o[j], cache)
  {
    assert o[..j + 1][..j] == o[..j];
  }

  /** Before its pass, cell j still holds its starting value: the guess. */
  lemma ApplyCellsUntouched(start: Conversion, o: seq<PointResult>, j: int, cache: bool)
    requires 0 <= j < |o| && 8 * |o| <= |start.p| && CacheFits(cache, start, |o|)
    ensures Block(ApplyCells(start, o[..j], cache).p, j) == Block(start.p, j)
  {
    var s := ApplyCells(start, o[..j], cache);
    assert s.p[8 * j..8 * j + 8] == start.p[8 * j..8 * j + 8];
  }

  lemma ApplyCellsWhole(start: Conversion, o: seq<PointResult>, cache: bool)
    requires 8 * |o| <= |start.p| && CacheFits(cache, start, |o|)
    ensures ApplyCells(start, o[..|o|], cache) == ApplyCells(start, o, cache)
  {
    assert o[..|o|] == o;
  }

  /** cons_to_prim_array(u, start.p, n). */
  function ConvertCells(e: Ext, gamma: real, est: bool, cache: bool, u: seq<real>, start: Conversion, n: int): (r: Conversion)
    requires e.Valid() && ConvertibleCons(gamma, est, u, start.p, n) && CacheFits(cache, start, n)
  {
    ApplyCells(start, Outcomes(e, gamma, est, u, start.p, n), cache)
  }

  /** A cell's new state: the solution, or the guess left in place. */
  function CellAfter(res: PointResult, guess: Vec8): Vec8
  {
    match res
    case Solved(p, _, _) => p
    case Unsolved => guess
  }

  /** Each cell after the loop is what its own outcome made of it. */
  lemma {:induction false} ApplyCellsAt(start: Conversion, o: seq<PointResult>, cache: bool, j: int)
    requires 8 * |o| <= |start.p| && CacheFits(cache, start, |o|) && 0 <= j < |o|
    ensures Block(ApplyCells(start, o, cache).p, j) == CellAfter(o[j], Block(start.p, j))
  {
    var o' := o[..|o| - 1];
    var s := ApplyCells(start, o', cache);
    var r := ApplyCells(start, o, cache);
    assert Block(s.p, |o| - 1) == Block(start.p, |o| - 1);
    if j < |o| - 1 {
      ApplyCellsAt(start, o', cache, j);
      assert forall q :: 8 * j <= q < 8 * j + 8 ==> r.p[q] == s.p[q];
      assert Block(r.p, j) == Block(s.p, j);
    }
  }

  /** The cells are independent: each converted cell is cons_to_prim_point
      of that cell's conserved state and guess alone. */
  lemma ConvertCellsAt(e: Ext, gamma: real, est: bool, cache: bool, u: seq<real>, start: Conversion, n: int, j: int)
    requires e.Valid() && ConvertibleCons(gamma, est, u, start.p, n) && CacheFits(cache, start, n)
    requires 0 <= j < n
    ensures Block(ConvertCells(e, gamma, est, cache, u, start, n).p, j)
            == CellAfter(ConsToPrimSpec(e, gamma, est, Block(u, j), Block(start.p, j)), Block(start.p, j))
  {
    ApplyCellsAt(start, Outcomes(e, gamma, est, u, start.p, n), cache, j);
  }

  /** The number of failures among the outcomes. */
  function Failures(o: seq<PointResult>): (c: int)
    ensures 0 <= c <= |o|
  {
    if |o| == 0 then 0 else Failures(o[..|o| - 1]) + (if o[|o| - 1].Unsolved? then 1 else 0)
  }

  /** The count cons_to_prim_array returns is exactly the number of cells
      cons_to_prim_point failed on. */
  lemma {:induction false} FailureCount(start: Conversion, o: seq<PointResult>, cache: bool)
    requires 8 * |o| <= |start.p| && CacheFits(cache, start, |o|)
    ensures ApplyCells(start, o, cache).failures == start.failures + Failures(o)
  {
    if |o| > 0 {
      FailureCount(start, o[..|o| - 1], cache);
    }
  }

  /** The cache entry of the last cell is cons_to_prim_last_W times the
      cell's new velocity, and last_W is the W of the latest solved cell: on
      a failed cell it is the W of an earlier cell (or of an earlier call). */
  lemma CachedVelocity(start: Conversion, o: seq<PointResult>)
    requires 8 * |o| <= |start.p| && CacheFits(true, start, |o|) && |o| > 0
    ensures var j := |o| - 1;
            var prev := ApplyCells(start, o[..j], true);
            var r := ApplyCells(start, o, true);
            && (o[j].Solved? ==> r.lastW == o[j].w && r.ux[j] == FourVelocity(o[j].w, o[j].p[Vx]))
            && (o[j].Unsolved? ==> r.lastW == prev.lastW && r.ux[j] == FourVelocity(prev.lastW, start.p[8 * j + Vx]))
  {
    var j := |o| - 1;
    var prev := ApplyCells(start, o[..j], true);
    assert prev.p[8 * j + Vx] == start.p[8 * j + Vx];
  }

  // ------------------------------------------------------- round trip

  /** The conditions under which the warm start recovers a cell exactly. */
  ghost predicate WarmStartable(e: Ext, gamma: real, p: Vec8)
  {
    && e.Valid() && gamma > 1.0 && Physical(p)
    && p[Bx] == 0.0 && p[By] == 0.0 && p[Bz] == 0.0
    && p[Pre] >= PresFloor
    && LorentzOfVelocity(e, p) < BigW
    && V2(p) >= 0.0 && p[Rho] * Enthalpy(gamma, p) * (1.0 / (1.0 - V2(p))) < BigZ
    && Det(WarmStartJacobian(e, gamma, p)) != 0.0
  }

  /** prim_to_cons_array followed by cons_to_prim_array, warm-started from
      the same primitives, gives the primitives back with no failure, one
      iteration per cell, on field-free states the Newton step leaves fixed. */
  lemma ArrayRoundTrip(e: Ext, gamma: real, p: seq<real>, u: seq<real>, n: int, start: Conversion)
    requires e.Valid() && gamma > 1.0 && 0 <= n && 8 * n <= |p| && 8 * n <= |u| && start.p == p
    requires forall j :: 0 <= j < n ==> WarmStartable(e, gamma, Block(p, j))
    ensures ConvertiblePrims(p, n)
    ensures ConvertibleCons(gamma, false, PrimToConsCells(e, gamma, p, u, n), p, n)
    ensures var r := ConvertCells(e, gamma, false, false, PrimToConsCells(e, gamma, p, u, n), start, n);
            r.p == p && r.failures == start.failures && r.iter == start.iter + n
  {
    var uc := PrimToConsCells(e, gamma, p, u, n);
    ConvertedCellsSolve(e, gamma, p, u, n, uc);
    SolvedOutcomes(e, gamma, uc, start, n);
  }

  /** Every cell prim_to_cons_array wrote converts back to its primitives in
      one Newton iteration. */
  lemma ConvertedCellsSolve(e: Ext, gamma: real, p: seq<real>, u: seq<real>, n: int, uc: seq<real>)
    requires e.Valid() && gamma > 1.0 && 0 <= n && 8 * n <= |p| && 8 * n <= |u|
    requires forall j :: 0 <= j < n ==> WarmStartable(e, gamma, Block(p, j))
    requires ConvertiblePrims(p, n) && uc == PrimToConsCells(e, gamma, p, u, n)
    ensures ConvertibleCons(gamma, false, uc, p, n)
    ensures forall j {:trigger Block(uc, j)} :: 0 <= j < n ==>
      ConsToPrimSpec(e, gamma, false, Block(uc, j), Block(p, j)) == Solved(Block(p, j), 1, LorentzOfVelocity(e, Block(p, j)))
  {
    forall j | 0 <= j < n
      ensures Block(uc, j) == PrimToCons(e, gamma, Block(p, j))
      ensures Block(uc, j)[Dens] > 0.0
      ensures ConsToPrimSpec(e, gamma, false, Block(uc, j), Block(p, j))
              == Solved(Block(p, j), 1, LorentzOfVelocity(e, Block(p, j)))
    {
      PrimToConsCellsAt(e, gamma, p, u, n, j);
      CellRoundTrip(e, gamma, Block(p, j), Block(uc, j));
    }
  }

  /** Conversions whose every cell solves to its own guess leave the array,
      the failure count and all but the iteration count as they were. */
  lemma SolvedOutcomes(e: Ext, gamma: real, uc: seq<real>, start: Conversion, n: int)
    requires e.Valid() && ConvertibleCons(gamma, false, uc, start.p, n)
    requires forall j {:trigger Block(uc, j)} :: 0 <= j < n ==>
      ConsToPrimSpec(e, gamma, false, Block(uc, j), Block(start.p, j)) == Solved(Block(start.p, j), 1, LorentzOfVelocity(e, Block(start.p, j)))
    ensures var r := ConvertCells(e, gamma, false, false, uc, start, n);
            r.p == start.p && r.failures == start.failures && r.iter == start.iter + n
  {
    var o := Outcomes(e, gamma, false, uc, start.p, n);
    assert forall j :: 0 <= j < n ==> o[j].Solved? && o[j].p == Block(start.p, j) && o[j].nIter == 1 by {
      forall j | 0 <= j < n ensures o[j].Solved? && o[j].p == Block(start.p, j) && o[j].nIter == 1 {
        assert Block(uc, j) == Block(uc, j);
      }
    }
    SolvedInPlace(start, o);
  }

  lemma CellRoundTrip(e: Ext, gamma: real, q: Vec8, c: Vec8)
    requires WarmStartable(e, gamma, q) && c == PrimToCons(e, gamma, q)
    ensures c[Dens] > 0.0
    ensures ConsToPrimSpec(e, gamma, false, c, q) == Solved(q, 1, LorentzOfVelocity(e, q))
  {
    WarmStartRoundTrip(e, gamma, q);
  }

  /** Outcomes that each solve their cell to the guess already there, in one
      iteration, leave the array as it was and count no failure. */
  lemma {:induction false} SolvedInPlace(start: Conversion, o: seq<PointResult>)
    requires 8 * |o| <= |start.p|
    requires forall j :: 0 <= j < |o| ==> o[j].Solved? && o[j].p == Block(start.p, j) && o[j].nIter == 1
    ensures var r := ApplyCells(start, o, false);
            r.p == start.p && r.failures == start.failures && r.iter == start.iter + |o|
  {
    if |o| > 0 {
      var j := |o| - 1;
      SolvedInPlace(start, o[..j]);
      SpliceOwnBlock(start.p, j);
    }
  }
}
