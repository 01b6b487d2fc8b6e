/** Recovery of primitive variables (con2prim_robust.hpp): the master function of one unknown mu,
    its search interval, and the unwrapping of a root. */
module ConToPrim {
  import opened Reals
  import opened Vectors
  import opened PrimToCon
  import opened RootFind

  /** GetFloors at one position: it receives a density and overwrites it. */
  datatype Floor = Floor(rho: real, sie: real, temp: real)

  /** What the kernel takes from outside: std::sqrt, the floors and ceilings at this cell, and the
      equation of state as functions of density, specific energy or temperature, and Ye. */
  datatype Env = Env(sqrt: real -> real, floors: real -> Floor, floorScale: real, gamMax: real, sieMax: real,
                     pressure: (real, real, real) -> real,
                     sieOfTemp: (real, real, real) -> real,
                     tempOfSie: (real, real, real) -> real,
                     pressureOfTemp: (real, real, real) -> real,
                     gamma1: (real, real, real) -> real)
  {
    function RhoFloor(): real { floors(0.0).rho * floorScale }

    /** The energy floor at density rho. The temperature floor is converted at the floor density,
        because GetFloors has overwritten the density it was given. */
    function SieFloor(rho: real, ye: real): real {
      var fl := floors(rho);
      Max(fl.sie * floorScale, sieOfTemp(fl.rho, fl.temp, ye))
    }

    function RhoHat(D: real, iW: real): real {
      if D * iW <= RhoFloor() then RhoFloor() else D * iW
    }

    function SieHat(trial: real, floor: real): real {
      if trial <= floor then floor else if trial > sieMax then sieMax else trial
    }

    /** p / (rho (1 + eps)), with the source's guard on the denominator. */
    function AHat(rho: real, eps: real, ye: real): real {
      var p := pressure(rho, eps, ye);
      p / MakePositive(rho * (1.0 + eps) + p - p)
    }

    /** (1 + a)(1 + eps): the specific enthalpy the master function works with. */
    function Enthalpy(rho: real, eps: real, ye: real): real {
      (1.0 + AHat(rho, eps, ye)) * (1.0 + eps)
    }

    /** The EOS honours the enthalpy bound h0 on every floored state; the ceilings are sane. */
    ghost predicate Admissible(h0: real, ye: real) {
      && IsSqrt(sqrt) && h0 > 0.0 && gamMax >= 1.0
      && forall rho, eps ::
           rho >= RhoFloor() && (eps >= SieFloor(rho, ye) || eps == sieMax) ==> Enthalpy(rho, eps, ye) >= h0
    }
  }

  /** The specific energy before flooring. */
  function SieTrial(mu: real, qbar: real, rbarsq: real, vhatsq: real, W: real): real {
    W * (qbar - mu * rbarsq) + vhatsq * W * Ratio(W, 1.0 + W)
  }

  /** max(nu_a, nu_b). */
  function NuHat(a: real, eps: real, iW: real, qbar: real, mu: real, rbarsq: real): real {
    Max((1.0 + a) * (1.0 + eps) * iW, (1.0 + a) * (1.0 + qbar - mu * rbarsq))
  }

  function VsqTrial(mu: real, rbarsq: real): real { mu * mu * rbarsq }

  /** v0^2: the speed of a fluid with momentum r and enthalpy h0, capped by the Lorentz ceiling. */
  function VelocityBound(rsq: real, h0: real, gamMax: real): (v: real)
    requires h0 > 0.0 && rsq >= 0.0 && gamMax >= 1.0
    ensures 0.0 <= v < 1.0
  {
    VelocityBoundRange(rsq, h0, gamMax);
    Min(KinematicSpeed(rsq, h0), LorentzCeiling(gamMax))
  }

  /** z^2 / (1 + z^2) with z = r / h0. */
  function KinematicSpeed(rsq: real, h0: real): (v: real)
    requires h0 > 0.0 && rsq >= 0.0
    ensures 0.0 <= v < 1.0
  {
    var h2 := h0 * h0;
    SquareIsPos(h0, h2);
    var zsq := rsq / h2;
    DivNonneg(rsq, h2);
    DivNonneg(zsq, 1.0 + zsq);
    DivLe(zsq, 1.0 + zsq, 1.0);
    zsq / (1.0 + zsq)
  }

  lemma VelocityBoundRange(rsq: real, h0: real, g: real)
    requires h0 > 0.0 && rsq >= 0.0 && g >= 1.0
    ensures 0.0 <= KinematicSpeed(rsq, h0) < 1.0 && 0.0 <= LorentzCeiling(g) < 1.0
  {
    hide KinematicSpeed;
    CeilingRange(g);
  }

  /** Everything the master function derives from one value of mu. */
  datatype Hat = Hat(x: real, rbarsq: real, qbar: real, vhatsq: real, iW: real, W: real, rho: real, eps: real,
                     flags: Flags)

  datatype Flags = Flags(densityFloor: bool, energyFloor: bool, energyMax: bool, gammaMax: bool) {
    predicate Any() { densityFloor || energyFloor || energyMax || gammaMax }
  }

  /** The arguments of the Residual constructor. */
  datatype Problem = Problem(D: real, q: real, bsq: real, bsqRpsq: real, rsq: real, rbsq: real, h0: real, ye: real,
                             env: Env)
  {
    ghost predicate Admissible() {
      && env.Admissible(h0, ye)
      && bsq >= 0.0 && rsq >= 0.0 && 0.0 <= rbsq <= bsq * rsq
    }

    function V0sq(): real
      requires h0 > 0.0 && rsq >= 0.0 && env.gamMax >= 1.0
    {
      VelocityBound(rsq, h0, env.gamMax)
    }

    function X(mu: real): real { Ratio(1.0, 1.0 + mu * bsq) }

    function RbarSq(mu: real, x: real): real { x * (x * rsq + mu * (1.0 + x) * rbsq) }

    function Qbar(mu: real, x: real): real {
      var mux := mu * x;
      q - 0.5 * (bsq + mux * mux * bsqRpsq)
    }

    /** aux_func: mu sqrt(h0^2 + rbar^2(mu)) - 1, whose root bounds the search interval. */
    function Aux(mu: real): real {
      AuxAt(env.sqrt, h0, RbarSq(mu, X(mu)), mu)
    }

    function State(mu: real): Hat
      requires h0 > 0.0 && rsq >= 0.0 && env.gamMax >= 1.0
    {
      var x := X(mu);
      var rbarsq := RbarSq(mu, x);
      var qbar := Qbar(mu, x);
      var trial := VsqTrial(mu, rbarsq);
      var vhatsq := if trial > V0sq() then V0sq() else trial;
      var iW := env.sqrt(1.0 - vhatsq);
      var W := Ratio(1.0, iW);
      var rho := env.RhoHat(D, iW);
      var floor := env.SieFloor(env.RhoHat(D, Ratio(1.0, W)), ye);
      var sieTrial := SieTrial(mu, qbar, rbarsq, vhatsq, W);
      Hat(x, rbarsq, qbar, vhatsq, iW, W, rho, env.SieHat(sieTrial, floor),
          Flags(D * Ratio(1.0, W) <= env.RhoFloor(), sieTrial <= floor,
                floor < sieTrial && sieTrial > env.sieMax, trial > V0sq()))
    }

    /** max(nu_a, nu_b) + mu rbar^2, the reciprocal of the mu that the state implies. */
    function Denominator(mu: real): real
      requires h0 > 0.0 && rsq >= 0.0 && env.gamMax >= 1.0
    {
      var s := State(mu);
      var a := env.AHat(s.rho, s.eps, ye);
      NuHat(a, s.eps, s.iW, s.qbar, mu, s.rbarsq) + mu * s.rbarsq
    }

    /** The master function, Residual::operator(). */
    function Value(mu: real): real
      requires Admissible() && mu >= 0.0
    {
      DenominatorPositive(this, mu);
      mu - 1.0 / Denominator(mu)
    }
  }

  // ---------- the state at any mu >= 0 ----------

  /** rbar^2 lies between 0 and r^2: the field only redistributes momentum. */
  lemma RbarBounds(p: Problem, mu: real)
    requires mu >= 0.0 && p.bsq >= 0.0 && p.rsq >= 0.0 && 0.0 <= p.rbsq <= p.bsq * p.rsq
    ensures 0.0 <= p.RbarSq(mu, p.X(mu)) <= p.rsq
  {
    MulNonneg(mu, p.bsq);
    var d := 1.0 + mu * p.bsq;
    var x := p.X(mu);
    DivPos(1.0, d);
    DivLe(1.0, d, 1.0);
    RbarRange(mu, p.bsq, p.rsq, p.rbsq, x);
  }

  lemma RbarRange(mu: real, bsq: real, rsq: real, rbsq: real, x: real)
    requires mu >= 0.0 && bsq >= 0.0 && rsq >= 0.0 && 0.0 <= rbsq <= bsq * rsq
    requires 0.0 < x <= 1.0 && x * (1.0 + mu * bsq) == 1.0
    ensures 0.0 <= x * (x * rsq + mu * (1.0 + x) * rbsq) <= rsq
  {
    var w := mu * (1.0 + x);
    MulNonneg(mu, 1.0 + x);
    MulNonneg(x, rsq);
    MulNonneg(w, rbsq);
    MulNonneg(x, x * rsq + w * rbsq);
    MulMono(rbsq, bsq * rsq, x * w);
    calc {
      x * (x * rsq + w * rbsq);
      x * x * rsq + rbsq * (x * w);
    <=
      x * x * rsq + (bsq * rsq) * (x * w);
      { assert x * mu * bsq == 1.0 - x; }
      x * x * rsq + (1.0 - x) * (1.0 + x) * rsq;
      rsq;
    }
  }

  /** The Lorentz factor of the state is well defined. */
  lemma VelocitySane(p: Problem, mu: real)
    requires p.Admissible() && mu >= 0.0
    ensures var s := p.State(mu);
            && s.rbarsq >= 0.0 && 0.0 <= s.vhatsq < 1.0 && s.vhatsq <= VsqTrial(mu, s.rbarsq)
            && 0.0 < s.iW <= 1.0 && Sq(s.iW) == 1.0 - s.vhatsq
            && s.W >= 1.0 && Prod(s.W, s.iW) == 1.0 && Ratio(1.0, s.W) == s.iW
  {
    RbarBounds(p, mu);
    var s := p.State(mu);
    TrialNonneg(mu, s.rbarsq);
    LorentzSane(p.env.sqrt, s.vhatsq);
  }

  lemma TrialNonneg(mu: real, r: real)
    requires r >= 0.0
    ensures VsqTrial(mu, r) >= 0.0
  {
    SquareNonneg(mu);
    var m := mu * mu;
    MulNonneg(m, r);
  }

  lemma LorentzSane(sqrt: real -> real, v: real)
    requires IsSqrt(sqrt) && 0.0 <= v < 1.0
    ensures var iW := sqrt(1.0 - v);
            && 0.0 < iW <= 1.0 && Sq(iW) == 1.0 - v
            && Ratio(1.0, iW) >= 1.0 && Prod(Ratio(1.0, iW), iW) == 1.0 && Ratio(1.0, Ratio(1.0, iW)) == iW
  {
    var iW := sqrt(1.0 - v);
    SquareOrder(iW, 1.0);
    ReciprocalOfReciprocal(iW, 1.0 / iW);
  }

  /** The floored state honours the enthalpy bound. */
  lemma StateEnthalpy(p: Problem, mu: real)
    requires p.Admissible() && mu >= 0.0
    ensures var s := p.State(mu); p.env.Enthalpy(s.rho, s.eps, p.ye) >= p.h0
  {
    VelocitySane(p, mu);
    var s := p.State(mu);
    assert s.rho >= p.env.RhoFloor();
    assert s.eps >= p.env.SieFloor(s.rho, p.ye) || s.eps == p.env.sieMax;
  }

  /** What the flags mean: the quantity a flag names sits at its bound. */
  lemma StateFlags(p: Problem, mu: real)
    requires p.Admissible() && mu >= 0.0
    ensures var s := p.State(mu);
            && (s.flags.gammaMax ==> s.vhatsq == p.V0sq() < VsqTrial(mu, s.rbarsq))
            && (s.flags.densityFloor ==> s.rho == p.env.RhoFloor() >= Prod(p.D, s.iW))
            && (s.flags.energyFloor ==> s.eps == p.env.SieFloor(s.rho, p.ye))
            && (s.flags.energyMax ==> s.eps == p.env.sieMax)
  {
    hide VsqTrial, VelocityBound, SieTrial, Ratio, Env.SieFloor, Problem.X, Problem.RbarSq, Problem.Qbar, Problem.V0sq,
         Sq, Env.Admissible;
    VelocitySane(p, mu);
  }

  /** What the state at mu is, in the terms of what GetFloors, GetCeilings and the equation of state return
      there: the density carries D unless it is at its floor, the energy is the trial energy unless one of
      the two energy floors or the ceiling stops it, and each flag says exactly when. */
  ghost predicate HonoursLimits(p: Problem, mu: real, h: Hat) {
    var least := p.env.floors(0.0).rho * p.env.floorScale;
    var fl := p.env.floors(h.rho);
    var sie, cold := fl.sie * p.env.floorScale, p.env.sieOfTemp(fl.rho, fl.temp, p.ye);
    && h.W >= 1.0
    && var trial := h.W * (h.qbar - mu * h.rbarsq) + h.vhatsq * h.W * (h.W / (1.0 + h.W));
    && h.rho >= least && h.rho >= p.D * h.iW
    && (h.flags.densityFloor <==> p.D * h.iW <= least)
    && h.rho == (if h.flags.densityFloor then least else p.D * h.iW)
    && (h.eps == p.env.sieMax || (h.eps >= sie && h.eps >= cold))
    && (h.flags.energyFloor <==> trial <= sie || trial <= cold)
    && (h.flags.energyFloor ==> h.eps >= sie && h.eps >= cold && (h.eps == sie || h.eps == cold))
    && (h.flags.energyMax <==> !h.flags.energyFloor && trial > p.env.sieMax)
    && (h.flags.energyMax ==> h.eps == p.env.sieMax)
    && (!h.flags.energyFloor && !h.flags.energyMax ==> h.eps == trial)
  }

  lemma LimitsHonoured(p: Problem, mu: real, h: Hat)
    requires p.Admissible() && mu >= 0.0
    requires p.h0 > 0.0 && p.rsq >= 0.0 && p.env.gamMax >= 1.0 && h == p.State(mu)
    ensures HonoursLimits(p, mu, h)
  {
    hide *;
    VelocitySane(p, mu);
    var trial := SieTrial(mu, h.qbar, h.rbarsq, h.vhatsq, h.W);
    StateDensity(p, mu, h);
    StateEnergy(p, mu, h);
    TrialIs(mu, h.qbar, h.rbarsq, h.vhatsq, h.W);
    DensityLimits(p.env, p.D, h.iW);
    EnergyLimits(p.env, h.rho, trial, p.ye);
    HonoursIs(p, mu, h, trial);
  }

  lemma StateDensity(p: Problem, mu: real, h: Hat)
    requires p.h0 > 0.0 && p.rsq >= 0.0 && p.env.gamMax >= 1.0 && h == p.State(mu) && Ratio(1.0, h.W) == h.iW
    ensures h.rho == p.env.RhoHat(p.D, h.iW) && (h.flags.densityFloor <==> p.D * h.iW <= p.env.RhoFloor())
  {
    hide Problem.X, Problem.RbarSq, Problem.Qbar, Problem.V0sq, VsqTrial, SieTrial, Env.SieFloor, Env.SieHat, Ratio,
         Env.RhoFloor, Env.RhoHat;
  }

  lemma StateEnergy(p: Problem, mu: real, h: Hat)
    requires p.h0 > 0.0 && p.rsq >= 0.0 && p.env.gamMax >= 1.0 && h == p.State(mu) && Ratio(1.0, h.W) == h.iW
    ensures var trial, floor := SieTrial(mu, h.qbar, h.rbarsq, h.vhatsq, h.W), p.env.SieFloor(h.rho, p.ye);
            && h.eps == p.env.SieHat(trial, floor) && (h.flags.energyFloor <==> trial <= floor)
            && (h.flags.energyMax <==> floor < trial && trial > p.env.sieMax)
  {
    hide Problem.X, Problem.RbarSq, Problem.Qbar, Problem.V0sq, VsqTrial, SieTrial, Env.SieFloor, Env.SieHat, Ratio,
         Env.RhoFloor, Env.RhoHat;
  }

  lemma TrialIs(mu: real, qbar: real, rbarsq: real, vhatsq: real, W: real)
    requires W >= 1.0
    ensures SieTrial(mu, qbar, rbarsq, vhatsq, W) == W * (qbar - mu * rbarsq) + vhatsq * W * (W / (1.0 + W))
  {
  }

  lemma DensityLimits(env: Env, D: real, iW: real)
    ensures var least := env.floors(0.0).rho * env.floorScale;
            && env.RhoFloor() == least
            && env.RhoHat(D, iW) == (if D * iW <= least then least else D * iW)
  {
  }

  lemma EnergyLimits(env: Env, rho: real, trial: real, ye: real)
    ensures var fl := env.floors(rho);
            var sie, cold, eps := fl.sie * env.floorScale, env.sieOfTemp(fl.rho, fl.temp, ye), env.SieHat(trial, env.SieFloor(rho, ye));
            && (trial <= env.SieFloor(rho, ye) <==> trial <= sie || trial <= cold)
            && (if trial <= sie || trial <= cold then eps >= sie && eps >= cold && (eps == sie || eps == cold)
                else if trial > env.sieMax then eps == env.sieMax else eps == trial)
  {
  }

  lemma HonoursIs(p: Problem, mu: real, h: Hat, trial: real)
    requires h.W >= 1.0 && trial == h.W * (h.qbar - mu * h.rbarsq) + h.vhatsq * h.W * (h.W / (1.0 + h.W))
    requires var least := p.env.floors(0.0).rho * p.env.floorScale;
             && (h.flags.densityFloor <==> p.D * h.iW <= least)
             && h.rho == (if p.D * h.iW <= least then least else p.D * h.iW)
    requires var fl := p.env.floors(h.rho);
             var sie, cold := fl.sie * p.env.floorScale, p.env.sieOfTemp(fl.rho, fl.temp, p.ye);
             && (h.flags.energyFloor <==> trial <= sie || trial <= cold)
             && (h.flags.energyMax <==> !h.flags.energyFloor && trial > p.env.sieMax)
             && (if trial <= sie || trial <= cold then h.eps >= sie && h.eps >= cold && (h.eps == sie || h.eps == cold)
                 else if trial > p.env.sieMax then h.eps == p.env.sieMax else h.eps == trial)
    ensures HonoursLimits(p, mu, h)
  {
  }

  /** The cap on the squared speed is the lesser of r^2 / (h0^2 + r^2) and 1 - 1 / gammaMax^2. */
  lemma CapIsLesser(p: Problem)
    requires p.h0 > 0.0 && p.rsq >= 0.0 && p.env.gamMax >= 1.0
    ensures var v, k, g := p.V0sq(), p.h0 * p.h0 + p.rsq, p.env.gamMax * p.env.gamMax;
            && Prod(v, k) <= p.rsq && Prod(1.0 - v, g) >= 1.0 && (Prod(v, k) == p.rsq || Prod(1.0 - v, g) == 1.0)
  {
    hide KinematicSpeed, LorentzCeiling;
    var kin, cap := KinematicSpeed(p.rsq, p.h0), LorentzCeiling(p.env.gamMax);
    KinematicIs(p.rsq, p.h0);
    CeilingIs(p.env.gamMax);
    SquarePos(p.h0);
    MulMono(p.V0sq(), kin, p.h0 * p.h0 + p.rsq);
    MulMono(1.0 - cap, 1.0 - p.V0sq(), p.env.gamMax * p.env.gamMax) by { SquareNonneg(p.env.gamMax); }
  }

  lemma KinematicIs(rsq: real, h0: real)
    requires h0 > 0.0 && rsq >= 0.0
    ensures Prod(KinematicSpeed(rsq, h0), h0 * h0 + rsq) == rsq
  {
    var h2 := h0 * h0;
    SquareIsPos(h0, h2);
    var z := rsq / h2;
    DivNonneg(rsq, h2);
    DivMul(rsq, h2);
    DivMul(z, 1.0 + z);
    KinematicProduct(z / (1.0 + z), z, h2, rsq);
  }

  lemma KinematicProduct(f: real, z: real, h2: real, rsq: real)
    requires f * (1.0 + z) == z && z * h2 == rsq
    ensures Prod(f, h2 + rsq) == rsq
  {
    assert f * (h2 + z * h2) == (f * (1.0 + z)) * h2;
  }

  lemma CeilingIs(g: real)
    requires g >= 1.0
    ensures Prod(1.0 - LorentzCeiling(g), g * g) == 1.0
  {
    CeilingRange(g);
    DivMul(1.0, g * g);
  }

  lemma Defined(p: Problem)
    requires p.Admissible()
    ensures p.h0 > 0.0 && p.rsq >= 0.0 && p.env.gamMax >= 1.0
  {
  }

  lemma UnflooredParts(p: Problem, mu: real, s: Hat)
    requires p.Admissible() && mu >= 0.0 && s == p.State(mu) && Ratio(1.0, s.W) == s.iW && !s.flags.Any()
    ensures s.vhatsq == VsqTrial(mu, s.rbarsq) && s.rho == Prod(p.D, s.iW)
    ensures s.eps == SieTrial(mu, s.qbar, s.rbarsq, s.vhatsq, s.W)
  {
    hide VsqTrial, VelocityBound, SieTrial, Ratio, Env.SieFloor, Problem.X, Problem.RbarSq, Problem.Qbar, Problem.V0sq,
         Sq, Env.Admissible;
  }

  /** Without any flag the state conserves mass and energy: rho W == D and
      (1 + eps) / W == 1 + qbar - mu rbar^2, at the speed mu rbar. */
  lemma UnflooredConserves(p: Problem, mu: real)
    requires p.Admissible() && mu >= 0.0 && !p.State(mu).flags.Any()
    ensures var s := p.State(mu);
            && s.vhatsq == VsqTrial(mu, s.rbarsq) && Prod(s.rho, s.W) == p.D
            && Prod(1.0 + s.eps, s.iW) == 1.0 + s.qbar - Prod(mu, s.rbarsq)
  {
    hide *;
    Defined(p);
    VelocitySane(p, mu);
    var s := p.State(mu);
    UnflooredParts(p, mu, s);
    MassBack(p.D, s.iW, s.W, s.rho);
    EnergyBack(mu, s.qbar, s.rbarsq, s.vhatsq, s.W, s.iW, s.eps);
  }

  lemma MassBack(D: real, iW: real, W: real, rho: real)
    requires Prod(W, iW) == 1.0 && rho == Prod(D, iW)
    ensures Prod(rho, W) == D
  {
    assert D * iW * W == D * (W * iW);
  }

  /** ehat_mu undoes the energy balance, whatever the speed is. */
  lemma EnergyBack(mu: real, qbar: real, r: real, V: real, W: real, iW: real, eps: real)
    requires W >= 1.0 && Prod(W, iW) == 1.0 && Sq(iW) == 1.0 - V && eps == SieTrial(mu, qbar, r, V, W)
    ensures Prod(1.0 + eps, iW) == 1.0 + qbar - Prod(mu, r)
  {
    hide Ratio, Sq;
    KineticPart(V, iW, W);
    var y := qbar - mu * r;
    assert 1.0 + eps == W * y + W;
    assert (W * y + W) * iW == (W * iW) * (1.0 + y);
  }

  lemma KineticPart(V: real, iW: real, W: real)
    requires Prod(W, iW) == 1.0 && Sq(iW) == 1.0 - V && W > 0.0
    ensures V * W * Ratio(W, 1.0 + W) == W - 1.0
  {
    var q := W / (1.0 + W);
    DivMul(W, 1.0 + W);
    assert W * W * (iW * iW) == 1.0 by { assert W * W * (iW * iW) == (W * iW) * (W * iW); }
    assert V * (W * W) == (W - 1.0) * (W + 1.0);
    var lhs := V * W * q;
    assert lhs * (1.0 + W) == V * W * W by { assert lhs * (1.0 + W) == V * W * (q * (1.0 + W)); }
    DivIs(V * W * W, 1.0 + W, lhs);
    DivIs(V * W * W, 1.0 + W, W - 1.0);
  }

  lemma ReciprocalOfReciprocal(a: real, b: real)
    requires 0.0 < a <= 1.0 && b == 1.0 / a
    ensures b >= 1.0 && b * a == 1.0 && 1.0 / b == a
  {
    assert b * a == 1.0;
    if b < 1.0 { MulMonoStrict(b, 1.0, a); }
    DivIs(1.0, b, a);
  }

  /** h / W + mu rbar^2. */
  function NuBound(h: real, iW: real, mu: real, rbarsq: real): real { h * iW + mu * rbarsq }

  /** The denominator in terms of the state. */
  lemma DenominatorIs(p: Problem, mu: real, s: Hat, a: real)
    requires p.h0 > 0.0 && p.rsq >= 0.0 && p.env.gamMax >= 1.0 && s == p.State(mu) && a == p.env.AHat(s.rho, s.eps, p.ye)
    ensures p.Denominator(mu) == NuHat(a, s.eps, s.iW, s.qbar, mu, s.rbarsq) + Prod(mu, s.rbarsq)
  {
    hide Problem.State, NuHat, Env.AHat;
  }

  /** nu >= nu_a. */
  lemma NuHatAtLeast(a: real, eps: real, iW: real, qbar: real, mu: real, r: real, h: real)
    requires h == Prod(1.0 + a, 1.0 + eps)
    ensures NuHat(a, eps, iW, qbar, mu, r) + Prod(mu, r) >= NuBound(h, iW, mu, r)
  {
  }

  lemma EnthalpyIs(env: Env, rho: real, eps: real, ye: real, a: real)
    requires a == env.AHat(rho, eps, ye)
    ensures env.Enthalpy(rho, eps, ye) == Prod(1.0 + a, 1.0 + eps)
  {
    hide Env.AHat;
  }

  lemma DenominatorPositive(p: Problem, mu: real)
    requires p.Admissible() && mu >= 0.0
    ensures p.Denominator(mu) > 0.0
    ensures var s := p.State(mu); p.Denominator(mu) >= NuBound(p.h0, s.iW, mu, s.rbarsq)
  {
    hide *;
    Defined(p);
    VelocitySane(p, mu);
    StateEnthalpy(p, mu);
    var s := p.State(mu);
    var a := p.env.AHat(s.rho, s.eps, p.ye);
    DenominatorIs(p, mu, s, a);
    EnthalpyIs(p.env, s.rho, s.eps, p.ye, a);
    NuHatAtLeast(a, s.eps, s.iW, s.qbar, mu, s.rbarsq, p.env.Enthalpy(s.rho, s.eps, p.ye));
    DenominatorBound(p.h0, p.env.Enthalpy(s.rho, s.eps, p.ye), s.iW, mu, s.rbarsq, p.Denominator(mu));
  }

  lemma DenominatorBound(h0: real, h: real, iW: real, mu: real, r: real, den: real)
    requires h >= h0 > 0.0 && iW > 0.0 && mu >= 0.0 && r >= 0.0
    requires den >= NuBound(h, iW, mu, r)
    ensures den > 0.0 && den >= NuBound(h0, iW, mu, r)
  {
    MulMono(h0, h, iW);
    MulPos(h0, iW);
    MulNonneg(mu, r);
  }

  // ---------- the bracket ----------

  lemma ProductBound(y: real, s: real, t: real)
    requires y >= 0.0 && s >= 0.0 && t >= 0.0 && Sq(y) >= t && Sq(s) >= t
    ensures Prod(y, s) >= t
  {
    hide *;
    ProdMono(t, t, Sq(s));
    ProdMono(Sq(s), t, Sq(y)) by { SqNonneg(s); }
    SquareOfProduct(y, s, t);
    ProdNonneg(y, s);
    SqOrder(t, Prod(y, s));
  }

  lemma SquareOfProduct(y: real, s: real, t: real)
    ensures Sq(Prod(y, s)) == Prod(Sq(s), Sq(y)) && Prod(t, t) == Sq(t) && Prod(Sq(s), t) == Prod(t, Sq(s))
  {
    assert y * s * (y * s) == (s * s) * (y * y);
  }

  /** The lower end of the search interval always lies below the root. */
  lemma NegativeAtZero(p: Problem)
    requires p.Admissible()
    ensures p.Value(0.0) < 0.0
  {
    DenominatorPositive(p, 0.0);
    DivPos(1.0, p.Denominator(0.0));
  }

  /** Every mu beyond the root of aux_func lies at or above the root of the master function,
      whatever the floors, the ceilings and the equation of state do. */
  lemma NonnegativeBeyondAux(p: Problem, mu: real)
    requires p.Admissible() && mu >= 0.0 && p.Aux(mu) >= 0.0
    ensures p.Value(mu) >= 0.0
  {
    var den := p.Denominator(mu);
    var md := Prod(mu, den);
    BeyondAuxState(p, mu, p.State(mu), den, md);
    ValueSign(p, mu, den, md);
  }

  lemma BeyondAuxState(p: Problem, mu: real, s: Hat, den: real, md: real)
    requires p.Admissible() && mu >= 0.0 && p.Aux(mu) >= 0.0
    requires s == p.State(mu) && den == p.Denominator(mu) && md == Prod(mu, den)
    requires p.h0 > 0.0
    ensures md >= 1.0
  {
    hide *;
    VelocitySane(p, mu);
    DenominatorPositive(p, mu);
    StateRbar(p, mu);
    AuxSquared(p, mu, s.rbarsq);
    BeyondAux(den, p.h0, s.iW, mu, s.rbarsq, s.vhatsq, md);
  }

  lemma StateRbar(p: Problem, mu: real)
    requires p.Admissible()
    ensures p.State(mu).rbarsq == p.RbarSq(mu, p.X(mu))
  {
  }

  lemma ValueSign(p: Problem, mu: real, den: real, md: real)
    requires p.Admissible() && mu >= 0.0 && den == p.Denominator(mu) && md == Prod(mu, den)
    ensures p.Value(mu) >= 0.0 <==> 1.0 <= md
    ensures p.Value(mu) == 0.0 <==> 1.0 == md
  {
    hide Problem.Denominator, Problem.Admissible;
    DenominatorPositive(p, mu);
    InverseSign(mu, den, md);
  }

  lemma InverseSign(mu: real, den: real, md: real)
    requires den > 0.0 && md == Prod(mu, den)
    ensures mu - 1.0 / den >= 0.0 <==> 1.0 <= md
    ensures mu - 1.0 / den == 0.0 <==> 1.0 == md
  {
    DivLe(1.0, den, mu);
    DivIs(1.0, den, mu);
  }

  /** Why: whichever of the two speed bounds is active, mu (h0 / W + mu rbar^2) >= 1. */
  lemma BeyondAux(den: real, h0: real, iW: real, mu: real, r: real, vhatsq: real, md: real)
    requires den >= NuBound(h0, iW, mu, r) && mu >= 0.0 && h0 > 0.0 && iW >= 0.0
    requires Sq(iW) == 1.0 - vhatsq && vhatsq <= VsqTrial(mu, r)
    requires Sq(Prod(mu, h0)) >= 1.0 - VsqTrial(mu, r)
    requires md == Prod(mu, den)
    ensures md >= 1.0
  {
    hide *;
    var A, y := VsqTrial(mu, r), Prod(mu, h0);
    ProdNonneg(mu, h0);
    ProdNonneg(y, iW);
    if A < 1.0 { ProductBound(y, iW, 1.0 - A); }
    ProdMono(mu, NuBound(h0, iW, mu, r), den);
    DenominatorExpand(h0, iW, mu, r);
  }

  lemma DenominatorExpand(h0: real, iW: real, mu: real, r: real)
    ensures Prod(mu, NuBound(h0, iW, mu, r)) == Prod(Prod(mu, h0), iW) + VsqTrial(mu, r)
  {
    assert mu * (h0 * iW) == (mu * h0) * iW && mu * (mu * r) == mu * mu * r;
  }

  /** aux >= 0 says mu^2 (h0^2 + rbar^2) >= 1, and aux <= 0 the opposite. */
  lemma AuxSquared(p: Problem, mu: real, r: real)
    requires p.Admissible() && mu >= 0.0 && r == p.RbarSq(mu, p.X(mu))
    ensures p.Aux(mu) >= 0.0 <==> Sq(Prod(mu, p.h0)) >= 1.0 - VsqTrial(mu, r)
    ensures p.Aux(mu) <= 0.0 <==> Sq(Prod(mu, p.h0)) <= 1.0 - VsqTrial(mu, r)
  {
    RbarBounds(p, mu);
    assert p.Aux(mu) == AuxAt(p.env.sqrt, p.h0, r, mu);
    AuxSquaredAt(p.env.sqrt, p.h0, r, mu);
  }

  function AuxAt(sqrt: real -> real, h: real, r: real, mu: real): real {
    mu * sqrt(h * h + r) - 1.0
  }

  lemma AuxSquaredAt(sqrt: real -> real, h: real, r: real, mu: real)
    requires IsSqrt(sqrt) && h > 0.0 && r >= 0.0 && mu >= 0.0
    ensures AuxAt(sqrt, h, r, mu) >= 0.0 <==> Sq(Prod(mu, h)) >= 1.0 - VsqTrial(mu, r)
    ensures AuxAt(sqrt, h, r, mu) <= 0.0 <==> Sq(Prod(mu, h)) <= 1.0 - VsqTrial(mu, r)
  {
    SquarePos(h);
    var t := sqrt(h * h + r);
    MulNonneg(mu, t);
    var y := mu * t;
    SquareOrder(1.0, y);
    SquareOrder(y, 1.0);
    SquareExpand(mu, t, h, r);
  }

  lemma SquareExpand(mu: real, t: real, h: real, r: real)
    requires t * t == h * h + r
    ensures mu * t * (mu * t) == Sq(Prod(mu, h)) + VsqTrial(mu, r)
  {
    assert mu * t * (mu * t) == mu * mu * (t * t);
    assert mu * mu * (h * h + r) == mu * h * (mu * h) + mu * mu * r;
  }

  /** The bound 1 / h0, used when r^2 < h0^2, is beyond the root of aux_func for every state. */
  lemma InverseEnthalpyBound(p: Problem)
    requires p.Admissible()
    ensures p.Aux(1.0 / p.h0) >= 0.0 && p.Value(1.0 / p.h0) >= 0.0
  {
    var mu := 1.0 / p.h0;
    DivPos(1.0, p.h0);
    RbarBounds(p, mu);
    InverseEnthalpyAt(p.env.sqrt, p.h0, p.RbarSq(mu, p.X(mu)));
    NonnegativeBeyondAux(p, mu);
  }

  lemma InverseEnthalpyAt(sqrt: real -> real, h: real, r: real)
    requires IsSqrt(sqrt) && h > 0.0 && r >= 0.0
    ensures AuxAt(sqrt, h, r, 1.0 / h) >= 0.0
  {
    SquarePos(h);
    var t := sqrt(h * h + r);
    SquareOrder(h, t);
    var mu := 1.0 / h;
    DivPos(1.0, h);
    MulMono(h, t, mu);
    assert h * mu == 1.0;
  }

  /** Below the root of aux_func the kinematic bound v0 never clips the velocity: only the Lorentz
      factor ceiling can. */
  lemma KinematicCapInactive(p: Problem, mu: real)
    requires p.Admissible() && mu >= 0.0 && p.Aux(mu) <= 0.0
    ensures var s := p.State(mu);
            s.flags.gammaMax <==> VsqTrial(mu, s.rbarsq) > LorentzCeiling(p.env.gamMax)
  {
    var s := p.State(mu);
    RbarBounds(p, mu);
    AuxSquared(p, mu, s.rbarsq);
    BelowAux(p.h0, p.rsq, s.rbarsq, mu, p.env.gamMax);
  }

  lemma BelowAux(h: real, rsq: real, r: real, mu: real, g: real)
    requires h > 0.0 && 0.0 <= r <= rsq && mu >= 0.0 && g >= 1.0
    requires Sq(Prod(mu, h)) <= 1.0 - VsqTrial(mu, r)
    ensures VsqTrial(mu, r) > VelocityBound(rsq, h, g) <==> VsqTrial(mu, r) > LorentzCeiling(g)
  {
    hide *;
    KinematicBound(h, rsq, r, mu);
    CapIs(rsq, h, g, VsqTrial(mu, r));
  }

  lemma CapIs(rsq: real, h: real, g: real, A: real)
    requires h > 0.0 && rsq >= 0.0 && g >= 1.0 && A <= KinematicSpeed(rsq, h)
    ensures A > VelocityBound(rsq, h, g) <==> A > LorentzCeiling(g)
  {
    hide KinematicSpeed, LorentzCeiling;
  }

  lemma KinematicBound(h: real, rsq: real, r: real, mu: real)
    requires h > 0.0 && 0.0 <= r <= rsq && mu >= 0.0 && Sq(Prod(mu, h)) <= 1.0 - VsqTrial(mu, r)
    ensures VsqTrial(mu, r) <= KinematicSpeed(rsq, h)
  {
    var h2, m := h * h, mu * mu;
    SquareIsPos(h, h2);
    SquareNonneg(mu);
    assert Sq(Prod(mu, h)) == m * h2;
    CapArithmetic(m, r, rsq, h2);
    var z := rsq / h2;
    DivNonneg(rsq, h2);
    CapFraction(m * r, z, h2, rsq);
  }

  lemma CapArithmetic(m: real, r: real, rsq: real, h2: real)
    requires m >= 0.0 && 0.0 <= r <= rsq && h2 > 0.0
    requires m * h2 <= 1.0 - m * r
    ensures m * r * (h2 + rsq) <= rsq
  {
    // m (h2 + r) <= 1 and r <= rsq
    assert m * (h2 + r) <= 1.0;
    MulMono(m * (h2 + r), 1.0, rsq);
    MulMono(r, rsq, m * h2) by { MulNonneg(m, h2); }
    assert m * r * (h2 + rsq) == r * (m * h2) + m * r * rsq;
    assert m * (h2 + r) * rsq == rsq * (m * h2) + m * r * rsq;
  }

  lemma CapFraction(A: real, zsq: real, h2: real, rsq: real)
    requires h2 > 0.0 && zsq >= 0.0 && zsq * h2 == rsq
    requires A * (h2 + rsq) <= rsq
    ensures A <= zsq / (1.0 + zsq)
  {
    var f := zsq / (1.0 + zsq);
    assert f * (1.0 + zsq) == zsq;
    assert (f - A) * (1.0 + zsq) * h2 == rsq - A * (h2 + rsq);
    MulPos(1.0 + zsq, h2);
    CancelPos((1.0 + zsq) * h2, f - A);
    assert (1.0 + zsq) * h2 * (f - A) == (f - A) * (1.0 + zsq) * h2;
  }
}
