/** The adiabatic (gamma-law) equation of state: eos_pre, eos_sie, eos_cs2. */
module Eos {
  import opened Arith

  /** Pressure from density and specific internal energy. */
  function EosPre(gamma: real, rho: real, sie: real): real
  {
    sie * (rho * (gamma - 1.0))
  }

  /** Specific internal energy from density and pressure. */
  function EosSie(gamma: real, rho: real, pre: real): (e: real)
    requires rho != 0.0 && gamma != 1.0
    ensures rho > 0.0 && gamma > 1.0 ==> (e > 0.0 <==> pre > 0.0) && (e == 0.0 <==> pre == 0.0)
  {
    SieSign(gamma, rho, pre);
    pre / (rho * (gamma - 1.0))
  }

  lemma SieSign(gamma: real, rho: real, pre: real)
    requires rho != 0.0 && gamma != 1.0
    ensures rho > 0.0 && gamma > 1.0 ==>
      var e := pre / (rho * (gamma - 1.0));
      (e > 0.0 <==> pre > 0.0) && (e == 0.0 <==> pre == 0.0)
  {
    if rho > 0.0 && gamma > 1.0 {
      MulPositive(rho, gamma - 1.0);
      DivSign(pre, rho * (gamma - 1.0));
    }
  }

  /** Squared sound speed gamma p / (rho h). */
  function EosCs2(gamma: real, rho: real, pre: real): (cs2: real)
    requires rho > 0.0 && pre >= 0.0 && gamma > 1.0
    ensures 0.0 <= cs2 < gamma - 1.0
    ensures cs2 > 0.0 <==> pre > 0.0
  {
    var e := EosSie(gamma, rho, pre);
    SoundSpeedBound(gamma, rho, pre, e);
    gamma * pre / (pre + rho + rho * e)
  }

  lemma SoundSpeedBound(gamma: real, rho: real, pre: real, e: real)
    requires rho > 0.0 && pre >= 0.0 && gamma > 1.0
    requires e == pre / (rho * (gamma - 1.0))
    ensures pre + rho + rho * e > 0.0
    ensures 0.0 <= gamma * pre / (pre + rho + rho * e) < gamma - 1.0
    ensures gamma * pre / (pre + rho + rho * e) > 0.0 <==> pre > 0.0
  {
    var g1 := gamma - 1.0;
    MulPositive(rho, g1);
    DivCancel(pre, rho * g1);
    assert (rho * e) * g1 == pre;
    DivSign(pre, rho * g1);
    assert rho * e >= 0.0 by {
      if e > 0.0 { MulPositive(rho, e); }
    }
    var den := pre + rho + rho * e;
    assert g1 * den == gamma * pre + g1 * rho;
    MulPositive(g1, rho);
    DivBelow(gamma * pre, den, g1);
    assert gamma * pre >= 0.0;
    DivSign(gamma * pre, den);
    if pre > 0.0 { MulPositive(gamma, pre); }
  }

  /** eos_pre and eos_sie are inverse to each other at fixed density. */
  lemma PreSieRoundTrip(gamma: real, rho: real, pre: real, sie: real)
    requires rho != 0.0 && gamma != 1.0
    ensures EosPre(gamma, rho, EosSie(gamma, rho, pre)) == pre
    ensures EosSie(gamma, rho, EosPre(gamma, rho, sie)) == sie
  {
    var d := rho * (gamma - 1.0);
    assert d != 0.0;
    assert (pre / d) * d == pre;
    assert (sie * d) / d == sie;
  }
}
