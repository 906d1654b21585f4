/** hll_flux: the HLL approximate Riemann solver at one interface, as a
    function of the two reconstructed primitive states. Its effect on
    lib_state.max_lambda is applied by Engine.HllFlux. */
module Riemann {
  import opened StateVec
  import opened Externals
  import opened Arith
  import opened Convert
  import opened Flux

  /** One component of the intermediate HLL state,
      (ap ur - am ul + fl - fr)/(ap - am). */
  function StateComponent(ap: real, am: real, ul: real, ur: real, fl: real, fr: real): real
    requires ap != am
  {
    (ap * ur - am * ul + (fl - fr)) / (ap - am)
  }

  /** One component of the HLL flux, (ap fl - am fr + ap am (ur - ul))/(ap - am). */
  function FluxComponent(ap: real, am: real, ul: real, ur: real, fl: real, fr: real): real
    requires ap != am
  {
    (ap * fl - am * fr + ap * am * (ur - ul)) / (ap - am)
  }

  /** The intermediate HLL state (ap Ur - am Ul + Fl - Fr)/(ap - am), component-wise. */
  function HllState(ap: real, am: real, ul: Vec8, ur: Vec8, fl: Vec8, fr: Vec8): (u: Vec8)
    requires ap != am
    ensures forall k :: 0 <= k < 8 ==> u[k] == StateComponent(ap, am, ul[k], ur[k], fl[k], fr[k])
  {
    seq(8, k requires 0 <= k < 8 => StateComponent(ap, am, ul[k], ur[k], fl[k], fr[k]))
  }

  /** The HLL flux (ap Fl - am Fr + ap am (Ur - Ul))/(ap - am), component-wise. */
  function HllBlendFlux(ap: real, am: real, ul: Vec8, ur: Vec8, fl: Vec8, fr: Vec8): (f: Vec8)
    requires ap != am
    ensures forall k :: 0 <= k < 8 ==> f[k] == FluxComponent(ap, am, ul[k], ur[k], fl[k], fr[k])
  {
    seq(8, k requires 0 <= k < 8 => FluxComponent(ap, am, ul[k], ur[k], fl[k], fr[k]))
  }

  /** The HLL flux satisfies the jump condition across each outer wave:
      F* - Fl = am (U* - Ul) and F* - Fr = ap (U* - Ur). */
  lemma {:induction false} HllJumpConditions(ap: real, am: real, ul: Vec8, ur: Vec8, fl: Vec8, fr: Vec8, k: int)
    requires ap != am && 0 <= k < 8
    ensures HllBlendFlux(ap, am, ul, ur, fl, fr)[k] - fl[k] == am * (HllState(ap, am, ul, ur, fl, fr)[k] - ul[k])
    ensures HllBlendFlux(ap, am, ul, ur, fl, fr)[k] - fr[k] == ap * (HllState(ap, am, ul, ur, fl, fr)[k] - ur[k])
  {
    JumpLeft(ap, am, ul[k], ur[k], fl[k], fr[k]);
    JumpRight(ap, am, ul[k], ur[k], fl[k], fr[k]);
  }

  /** The jump across the left wave for one component. */
  lemma JumpLeft(ap: real, am: real, ul: real, ur: real, fl: real, fr: real)
    requires ap != am
    ensures FluxComponent(ap, am, ul, ur, fl, fr) - fl == am * (StateComponent(ap, am, ul, ur, fl, fr) - ul)
  {
    var d := ap - am;
    var us := StateComponent(ap, am, ul, ur, fl, fr);
    var fs := FluxComponent(ap, am, ul, ur, fl, fr);
    DivCancel(ap * ur - am * ul + (fl - fr), d);
    DivCancel(ap * fl - am * fr + ap * am * (ur - ul), d);
    assert (fs - fl) * d == fs * d - fl * d;
    assert (am * (us - ul)) * d == am * (us * d) - am * (ul * d);
    assert (fs - fl) * d == (am * (us - ul)) * d;
    MulCancel(fs - fl, am * (us - ul), d);
  }

  /** The jump across the right wave for one component. */
  lemma JumpRight(ap: real, am: real, ul: real, ur: real, fl: real, fr: real)
    requires ap != am
    ensures FluxComponent(ap, am, ul, ur, fl, fr) - fr == ap * (StateComponent(ap, am, ul, ur, fl, fr) - ur)
  {
    var d := ap - am;
    var us := StateComponent(ap, am, ul, ur, fl, fr);
    var fs := FluxComponent(ap, am, ul, ur, fl, fr);
    DivCancel(ap * ur - am * ul + (fl - fr), d);
    DivCancel(ap * fl - am * fr + ap * am * (ur - ul), d);
    assert (fs - fr) * d == fs * d - fr * d;
    assert (ap * (us - ur)) * d == ap * (us * d) - ap * (ur * d);
    assert (fs - fr) * d == (ap * (us - ur)) * d;
    MulCancel(fs - fr, ap * (us - ur), d);
  }

  /** What hll_flux writes (U and F) and the speed ml it offers to
      max_lambda. */
  datatype HllResult = HllResult(u: Vec8, f: Vec8, ml: real)

  /** The envelope of the two sides' speed bounds. */
  function Envelope(l: FluxEval, r: FluxEval): (s: (real, real))
    ensures s.0 >= l.ap && s.0 >= r.ap && (s.0 == l.ap || s.0 == r.ap)
    ensures s.1 <= l.am && s.1 <= r.am && (s.1 == l.am || s.1 == r.am)
  {
    (if l.ap > r.ap then l.ap else r.ap, if l.am < r.am then l.am else r.am)
  }

  /** The part of hll_flux after the two sides' states, fluxes and speed
      bounds are known. The blend is evaluated only on the branch that uses
      it, where am < ap. */
  function HllCombine(ul: Vec8, ur: Vec8, el: FluxEval, er: FluxEval, s: real): (r: HllResult)
    requires Abs(el.ap) <= 1.0 && Abs(el.am) <= 1.0 && Abs(er.ap) <= 1.0 && Abs(er.am) <= 1.0
    ensures 0.0 <= r.ml <= 1.0
  {
    var sp := Envelope(el, er);
    var ap := sp.0;
    var am := sp.1;
    var ml := if Abs(am) < Abs(ap) then Abs(ap) else Abs(am);
    if s <= am then HllResult(ul, el.f, ml)
    else if am < s && s <= ap then
      HllResult(HllState(ap, am, ul, ur, el.f, er.f), HllBlendFlux(ap, am, ul, ur, el.f, er.f), ml)
    else HllResult(ur, er.f, ml)
  }

  /** hll_flux(pl, pr, U, F, s), apart from the max_lambda update. */
  function Hll(e: Ext, gamma: real, dim: int, mode: int, pl: Vec8, pr: Vec8, s: real): (r: HllResult)
    requires e.Valid() && gamma > 1.0 && Physical(pl) && Physical(pr) && IsAxis(dim)
    ensures 0.0 <= r.ml <= 1.0
  {
    var ul := PrimToCons(e, gamma, pl);
    var ur := PrimToCons(e, gamma, pr);
    HllCombine(ul, ur, FluxAndEval(e, gamma, dim, mode, ul, pl), FluxAndEval(e, gamma, dim, mode, ur, pr), s)
  }

  /** Which side's state and flux hll_flux returns, for each range of s; the
      offered speed is max(|ap|, |am|) of the envelope. The boundary s == ap
      belongs to the blend. */
  lemma HllSelection(ul: Vec8, ur: Vec8, el: FluxEval, er: FluxEval, s: real)
    requires Abs(el.ap) <= 1.0 && Abs(el.am) <= 1.0 && Abs(er.ap) <= 1.0 && Abs(er.am) <= 1.0
    ensures var ap := Max2(el.ap, er.ap);
            var am := Min2(el.am, er.am);
            var r := HllCombine(ul, ur, el, er, s);
            && r.ml == Max2(Abs(ap), Abs(am))
            && (s <= am ==> r.u == ul && r.f == el.f)
            && (am < s <= ap ==>
                  r.u == HllState(ap, am, ul, ur, el.f, er.f) && r.f == HllBlendFlux(ap, am, ul, ur, el.f, er.f))
            && (ap < s && am < s ==> r.u == ur && r.f == er.f)
  {
  }

  /** Consistency: with the same state and flux on both sides every branch
      returns that state and flux. */
  lemma HllCombineConsistent(u: Vec8, ev: FluxEval, s: real)
    requires Abs(ev.ap) <= 1.0 && Abs(ev.am) <= 1.0
    ensures HllCombine(u, u, ev, ev, s).u == u && HllCombine(u, u, ev, ev, s).f == ev.f
  {
    var ap := ev.ap;
    var am := ev.am;
    if am < s && s <= ap {
      forall k | 0 <= k < 8
        ensures HllState(ap, am, u, u, ev.f, ev.f)[k] == u[k]
        ensures HllBlendFlux(ap, am, u, u, ev.f, ev.f)[k] == ev.f[k]
      {
        BlendOfEqualSides(ap, am, u[k], ev.f[k]);
      }
    }
  }

  /** hll_flux on equal sides returns the side's conserved state and its
      physical flux. */
  lemma HllConsistent(e: Ext, gamma: real, dim: int, mode: int, p: Vec8, s: real)
    requires e.Valid() && gamma > 1.0 && Physical(p) && IsAxis(dim)
    ensures Hll(e, gamma, dim, mode, p, p, s).u == PrimToCons(e, gamma, p)
    ensures Hll(e, gamma, dim, mode, p, p, s).f == PhysicalFlux(e, gamma, dim, PrimToCons(e, gamma, p), p)
  {
    var u := PrimToCons(e, gamma, p);
    HllCombineConsistent(u, FluxAndEval(e, gamma, dim, mode, u, p), s);
  }

  lemma BlendOfEqualSides(ap: real, am: real, x: real, g: real)
    requires ap > am
    ensures StateComponent(ap, am, x, x, g, g) == x
    ensures FluxComponent(ap, am, x, x, g, g) == g
  {
    assert ap * x - am * x + (g - g) == x * (ap - am);
    assert ap * g - am * g + ap * am * (x - x) == g * (ap - am);
    DivCancel(x * (ap - am), ap - am);
    DivCancel(g * (ap - am), ap - am);
    MulCancel((x * (ap - am)) / (ap - am), x, ap - am);
    MulCancel((g * (ap - am)) / (ap - am), g, ap - am);
  }

  /** The max_lambda update of hll_flux: raised to ml when below it. */
  function RaiseMaxLambda(m: real, ml: real): (r: real)
    ensures r >= m && r >= ml
    ensures r == m || r == ml
  {
    if m < ml then ml else m
  }
}
