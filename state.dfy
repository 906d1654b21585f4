/** The 8-slot state vector of one cell, shared by the conserved and the
    primitive representation (the magnetic slots are the same in both). */
module StateVec {

  // Conserved slots
  const Dens: int := 0
  const Tau: int := 1
  const Sx: int := 2
  const Sy: int := 3
  const Sz: int := 4
  const Bx: int := 5
  const By: int := 6
  const Bz: int := 7

  // Primitive slots (Bx, By, Bz are shared)
  const Rho: int := 0
  const Pre: int := 1
  const Vx: int := 2
  const Vy: int := 3
  const Vz: int := 4

  /** Eight contiguous doubles of the flat grid array. */
  type Vec8 = s: seq<real> | |s| == 8 witness [0.0, 0.0, 0.0, 0.0, 0.0, 0.0, 0.0, 0.0]

  function Zero8(): (z: Vec8)
    ensures forall k :: 0 <= k < 8 ==> z[k] == 0.0
  {
    [0.0, 0.0, 0.0, 0.0, 0.0, 0.0, 0.0, 0.0]
  }

  /** Squared 3-velocity of a primitive state. */
  function V2(p: Vec8): real
  {
    p[Vx] * p[Vx] + p[Vy] * p[Vy] + p[Vz] * p[Vz]
  }

  /** Squared magnetic field (same slots in both representations). */
  function B2(s: Vec8): (r: real)
    ensures r >= 0.0
  {
    assert s[Bx] * s[Bx] >= 0.0 && s[By] * s[By] >= 0.0 && s[Bz] * s[Bz] >= 0.0;
    s[Bx] * s[Bx] + s[By] * s[By] + s[Bz] * s[Bz]
  }

  /** A primitive state on which every division of the flux and conversion
      formulas is well defined: positive density and pressure, sub-luminal. */
  ghost predicate Physical(p: Vec8)
  {
    p[Rho] > 0.0 && p[Pre] > 0.0 && V2(p) < 1.0
  }

  /** The 8 doubles of the state that starts at flat offset i. */
  function Cell(a: seq<real>, i: int): (c: Vec8)
    requires 0 <= i && i + 8 <= |a|
    ensures forall k :: 0 <= k < 8 ==> c[k] == a[i + k]
  {
    a[i..i + 8]
  }

  /** The state of cell j of a flat array: the 8 doubles from offset 8 j. */
  function Block(a: seq<real>, j: int): (c: Vec8)
    requires 0 <= j && 8 * j + 8 <= |a|
    ensures forall k :: 0 <= k < 8 ==> c[k] == a[8 * j + k]
  {
    a[8 * j..8 * j + 8]
  }

  lemma V2NonNegative(p: Vec8)
    ensures V2(p) >= 0.0
  {
    assert p[Vx] * p[Vx] >= 0.0;
    assert p[Vy] * p[Vy] >= 0.0;
    assert p[Vz] * p[Vz] >= 0.0;
  }

  /** Cell j of a replaced by c. */
  function Splice(a: seq<real>, j: int, c: Vec8): (r: seq<real>)
    requires 0 <= j && 8 * j + 8 <= |a|
    ensures |r| == |a| && Block(r, j) == c
    ensures forall q :: 0 <= q < |a| && (q < 8 * j || 8 * j + 8 <= q) ==> r[q] == a[q]
  {
    a[..8 * j] + c + a[8 * j + 8..]
  }

  /** Splicing one cell leaves every other cell as it was. */
  lemma SpliceOtherBlock(a: seq<real>, k: int, c: Vec8, j: int)
    requires 0 <= k && 8 * k + 8 <= |a| && 0 <= j && 8 * j + 8 <= |a| && j != k
    ensures Block(Splice(a, k, c), j) == Block(a, j)
  {
    var r := Splice(a, k, c);
    assert forall q :: 8 * j <= q < 8 * j + 8 ==> r[q] == a[q];
    assert r[8 * j..8 * j + 8] == a[8 * j..8 * j + 8];
  }

  /** Writing a cell's own state back leaves the array as it was: a cell
      whose conversion fails keeps its primitives. */
  lemma SpliceOwnBlock(a: seq<real>, j: int)
    requires 0 <= j && 8 * j + 8 <= |a|
    ensures Splice(a, j, Block(a, j)) == a
  {
    assert a[..8 * j] + a[8 * j..8 * j + 8] + a[8 * j + 8..] == a;
  }

  /** The state read at flat offset 8 j is cell j: the address arithmetic
      &P[i] of the sweeps and the cell index i/8 of the conversions agree. */
  lemma CellIsBlock(a: seq<real>, j: int)
    requires 0 <= j && 8 * j + 8 <= |a|
    ensures Cell(a, 8 * j) == Block(a, j)
    ensures forall i {:trigger Cell(a, i)} :: 0 <= i && i + 8 <= |a| && i % 8 == 0 ==> Cell(a, i) == Block(a, i / 8)
  {
  }

  /** The cells from offset s on hold vs, one after the other. */
  predicate CellsFrom(a: seq<real>, s: int, vs: seq<Vec8>)
  {
    && 0 <= s && s % 8 == 0 && s + 8 * |vs| <= |a|
    && forall j :: 0 <= j < |vs| ==> Cell(a, s + 8 * j) == vs[j]
  }

  /** Cells that hold the same values agree entry by entry. */
  lemma CellsFromUnique(a: seq<real>, b: seq<real>, s: int, vs: seq<Vec8>, q: int)
    requires CellsFrom(a, s, vs) && CellsFrom(b, s, vs) && s <= q < s + 8 * |vs|
    ensures a[q] == b[q]
  {
    var j := (q - s) / 8;
    assert 0 <= j < |vs| && s + 8 * j <= q < s + 8 * j + 8;
    assert Cell(a, s + 8 * j) == vs[j] == Cell(b, s + 8 * j);
    assert a[q] == Cell(a, s + 8 * j)[q - s - 8 * j];
    assert b[q] == Cell(b, s + 8 * j)[q - s - 8 * j];
  }

  /** Splicing the next cell after those already written. */
  lemma CellsFromStep(a: seq<real>, s: int, vs: seq<Vec8>, v: Vec8)
    requires CellsFrom(a, s, vs) && s + 8 * |vs| + 8 <= |a|
    ensures s / 8 + |vs| >= 0 && 8 * (s / 8 + |vs|) + 8 <= |a|
    ensures CellsFrom(Splice(a, s / 8 + |vs|, v), s, vs + [v])
  {
    var b := s / 8 + |vs|;
    assert 8 * b == s + 8 * |vs|;
    var r := Splice(a, b, v);
    forall j | 0 <= j < |vs| + 1
      ensures Cell(r, s + 8 * j) == (vs + [v])[j]
    {
      if j < |vs| {
        assert 8 * (s / 8 + j) == s + 8 * j;
        SpliceOtherBlock(a, b, v, s / 8 + j);
        assert Cell(r, s + 8 * j) == Block(r, s / 8 + j);
        assert Cell(a, s + 8 * j) == Block(a, s / 8 + j);
      } else {
        assert Cell(r, s + 8 * j) == Block(r, b);
      }
    }
  }

  /** Cells from s on that the new array agrees with keep their values. */
  lemma CellsFromKept(a: seq<real>, a': seq<real>, s: int, vs: seq<Vec8>)
    requires CellsFrom(a, s, vs) && |a'| == |a|
    requires forall q :: s <= q < s + 8 * |vs| ==> a'[q] == a[q]
    ensures CellsFrom(a', s, vs)
  {
    forall j | 0 <= j < |vs|
      ensures Cell(a', s + 8 * j) == vs[j]
    {
      assert Cell(a', s + 8 * j) == Cell(a, s + 8 * j);
    }
  }
}
