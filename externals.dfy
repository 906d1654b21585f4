/** Collaborators the back-end calls but whose code is not part of this
    model: the C library square root, the quartic root finders and the HLLC
    solver. They are given to the model as function values. */
module Externals {
  import opened StateVec

  /** The coefficients d4 x^4 + d3 x^3 + d2 x^2 + d1 x + d0 handed to new_QuarticEquation. */
  datatype Quartic = Quartic(d4: real, d3: real, d2: real, d1: real, d0: real)

  /** What solve_quartic_equation reports: its return value nr, the four root
      slots, and how many real roots the pairs (r1, r2) and (r3, r4) hold. */
  datatype QuarticRoots = QuarticRoots(nr: int, r1: real, r2: real, r3: real, r4: real,
                                       nr12: int, nr34: int)

  /** The star state and flux written by hllc_flux. */
  datatype StarFlux = StarFlux(u: Vec8, f: Vec8)

  datatype Ext = Ext(
    sqrt: real -> real,                              // sqrt from math.h
    solveQuartic: Quartic -> QuarticRoots,           // solve_quartic_equation
    approx1: (Quartic, real) -> real,                // solve_quartic_approx1, from a seed
    approx2: (Quartic, real) -> real,                // solve_quartic_approx2, from a seed
    hllc: (Vec8, Vec8, real, int) -> StarFlux,       // hllc_flux after hllc_set_dimension(d)
    indeterminate: real)                             // the value an unset local double holds
  {
    /** What Valid() assumes: sqrt is the non-negative square root on the
        non-negative reals. (That hllc_flux leaves max_lambda alone and that
        every collaborator is deterministic follow from modelling them as
        function values.) */
    ghost predicate Valid()
    {
      forall x :: 0.0 <= x ==> 0.0 <= sqrt(x) && sqrt(x) * sqrt(x) == x
    }
  }

  lemma SqrtPositive(e: Ext, x: real)
    requires e.Valid() && x > 0.0
    ensures e.sqrt(x) > 0.0
  {
    assert e.sqrt(x) * e.sqrt(x) == x;
  }

  lemma SquareBelowOne(r: real)
    requires 0.0 <= r < 1.0
    ensures r * r < 1.0
  {
    assert r * r <= r * 1.0;
  }

  lemma SqrtAtLeastOne(e: Ext, x: real)
    requires e.Valid() && x >= 1.0
    ensures e.sqrt(x) >= 1.0
  {
    var r := e.sqrt(x);
    assert r >= 0.0 && r * r == x;
    if r < 1.0 {
      SquareBelowOne(r);
    }
  }

  lemma SqrtAtMostOne(e: Ext, x: real)
    requires e.Valid() && 0.0 <= x <= 1.0
    ensures 0.0 <= e.sqrt(x) <= 1.0
  {
    var r := e.sqrt(x);
    assert r >= 0.0 && r * r == x;
  }

  lemma SqrtOfOne(e: Ext)
    requires e.Valid()
    ensures e.sqrt(1.0) == 1.0
  {
    SqrtAtLeastOne(e, 1.0);
    SqrtAtMostOne(e, 1.0);
  }
}
