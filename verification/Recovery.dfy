/** ConToPrim::solve: from the conserved variables of one cell to its primitives, with the residual
    object it searches. */
module Recovery {
  import opened Reals
  import opened Vectors
  import opened PrimToCon
  import opened SignalSpeeds
  import opened ConToPrim
  import opened RootFind

  /** The residual together with the flags its evaluation leaves behind. */
  class Residual {
    const p: Problem
    var usedDensityFloor: bool
    var usedEnergyFloor: bool
    var usedEnergyMax: bool
    var usedGammaMax: bool

    constructor (problem: Problem)
      ensures p == problem
    {
      p := problem;
    }

    function Used(): Flags
      reads this
    {
      Flags(usedDensityFloor, usedEnergyFloor, usedEnergyMax, usedGammaMax)
    }

    /** The trial speed, or the cap where it is lower; never light speed. */
    method VhatSqMu(mu: real, rbarsq: real) returns (v: real)
      requires p.Admissible()
      modifies this`usedGammaMax
      ensures v <= VsqTrial(mu, rbarsq) && v <= p.V0sq() < 1.0 && (rbarsq >= 0.0 ==> v >= 0.0)
      ensures if usedGammaMax then v == p.V0sq() < VsqTrial(mu, rbarsq) else v == VsqTrial(mu, rbarsq)
    {
      hide VelocityBound;
      if rbarsq >= 0.0 { TrialNonneg(mu, rbarsq); }
      var trial := VsqTrial(mu, rbarsq);
      if trial > p.V0sq() {
        usedGammaMax := true;
        v := p.V0sq();
      } else {
        usedGammaMax := false;
        v := trial;
      }
    }

    /** The density that carries D at Lorentz factor 1 / iW, or the floor where that is higher. */
    method RhohatMu(iW: real) returns (rho: real)
      modifies this`usedDensityFloor
      ensures rho >= p.env.RhoFloor() && rho >= p.D * iW
      ensures if usedDensityFloor then rho == p.env.RhoFloor() else rho == p.D * iW > p.env.RhoFloor()
    {
      var trial := p.D * iW;
      if trial <= p.env.RhoFloor() {
        usedDensityFloor := true;
        rho := p.env.RhoFloor();
      } else {
        usedDensityFloor := false;
        rho := trial;
      }
    }

    /** The energy of the trial, held above the floor of the density it recomputes, and below the ceiling
        unless the floor is higher still; at most one flag, and only where the trial was changed (or met
        the floor). */
    method EhatMu(mu: real, qbar: real, rbarsq: real, vhatsq: real, W: real) returns (eps: real)
      modifies this`usedDensityFloor, this`usedEnergyFloor, this`usedEnergyMax
      ensures usedDensityFloor == (p.D * Ratio(1.0, W) <= p.env.RhoFloor()) && !(usedEnergyFloor && usedEnergyMax)
      ensures var trial := SieTrial(mu, qbar, rbarsq, vhatsq, W);
              var floor := p.env.SieFloor(p.env.RhoHat(p.D, Ratio(1.0, W)), p.ye);
              if usedEnergyFloor then eps == floor >= trial
              else if usedEnergyMax then eps == p.env.sieMax < trial && floor < trial
              else eps == trial && floor < eps <= p.env.sieMax
    {
      var rho := RhohatMu(Ratio(1.0, W));
      assert rho == p.env.RhoHat(p.D, Ratio(1.0, W));
      var floor := p.env.SieFloor(rho, p.ye);
      var trial := SieTrial(mu, qbar, rbarsq, vhatsq, W);
      usedEnergyFloor, usedEnergyMax := false, false;
      if trial <= floor {
        usedEnergyFloor := true;
        eps := floor;
      } else if trial > p.env.sieMax {
        usedEnergyMax := true;
        eps := p.env.sieMax;
      } else {
        eps := trial;
      }
    }

    /** operator(): the master function at mu. */
    method Call(mu: real) returns (r: real)
      requires p.Admissible() && mu >= 0.0
      modifies this
      ensures r == p.Value(mu) && Used() == p.State(mu).flags
    {
      hide LorentzCeiling, VsqTrial, VelocityBound, SieTrial, NuHat, Ratio, Env.SieFloor, Env.AHat,
           Problem.X, Problem.RbarSq, Problem.Qbar, Problem.V0sq;
      var x := p.X(mu);
      var rbarsq := p.RbarSq(mu, x);
      var qbar := p.Qbar(mu, x);
      var vhatsq := VhatSqMu(mu, rbarsq);
      var iW := p.env.sqrt(1.0 - vhatsq);
      var W := Ratio(1.0, iW);
      var rhohat := RhohatMu(iW);
      var ehat := EhatMu(mu, qbar, rbarsq, vhatsq, W);
      var a := p.env.AHat(rhohat, ehat, p.ye);
      var nuhat := NuHat(a, ehat, iW, qbar, mu, rbarsq);
      DenominatorPositive(p, mu);
      assert p.State(mu).eps == ehat && p.State(mu).rho == rhohat;
      r := mu - 1.0 / (nuhat + mu * rbarsq);
    }
  }

  /** What solve derives from the conserved variables before it searches. */
  datatype Setup = Setup(p: Problem, rcon: Vec, bdotr: real, bu: Vec)

  function SetupOf(env: Env, g: Geom, c: Cons, hasB: bool, h0: real, ye: real): Setup
    requires g.gdet != 0.0
  {
    var igdet := 1.0 / g.gdet;
    var D := Prod(c.D, igdet);
    var tau := Prod(c.tau, igdet);
    var rcov := Vec(Ratio(c.S.c0, c.D), Ratio(c.S.c1, c.D), Ratio(c.S.c2, c.D));
    var rcon := Apply(g.gcon, rcov);
    var rsq := Dot(rcon, rcov);
    if hasB then
      var bu := Scale(FieldScale(env, D), Scale(igdet, c.bcons));
      var bdotr := Dot(bu, rcov);
      var bsq := Max(0.0, Inner(g.gcov, bu, bu));
      var rbsq := Sq(bdotr);
      Setup(Problem(D, Ratio(tau, D), bsq, Prod(bsq, rsq) - rbsq, rsq, rbsq, h0, ye, env), rcon, bdotr, bu)
    else
      Setup(Problem(D, Ratio(tau, D), 0.0, 0.0, rsq, 0.0, h0, ye, env), rcon, 0.0, ZERO)
  }

  /** 1 / sqrt(max(D, floor)). */
  function FieldScale(env: Env, D: real): real { Ratio(1.0, env.sqrt(Max(D, env.RhoFloor()))) }

  /** Whatever the conserved variables are, the problem that is searched is well posed:
      r^2 >= 0 and (b.r)^2 <= b^2 r^2, because r and b live in the cell's metric. */
  lemma SetupAdmissible(env: Env, g: Geom, c: Cons, hasB: bool, h0: real, ye: real)
    requires g.Is3Plus1() && env.Admissible(h0, ye)
    ensures SetupOf(env, g, c, hasB, h0, ye).p.Admissible()
  {
    hide Apply, Dot, Inner, Scale, Ratio, FieldScale, Env.Admissible;
    var s := SetupOf(env, g, c, hasB, h0, ye);
    var rcov := Vec(Ratio(c.S.c0, c.D), Ratio(c.S.c1, c.D), Ratio(c.S.c2, c.D));
    MomentumInMetric(g, rcov, s.bu);
    SquareNonneg(s.bdotr);
  }

  /** The scalars of the problem are those of its vectors in the cell's metric. */
  ghost predicate Consistent(g: Geom, s: Setup) {
    && s.p.rsq == Inner(g.gcov, s.rcon, s.rcon) && s.bdotr == Inner(g.gcov, s.bu, s.rcon)
    && s.p.bsq == Inner(g.gcov, s.bu, s.bu) && s.p.rbsq == Sq(s.bdotr)
  }

  lemma SetupConsistent(env: Env, g: Geom, c: Cons, hasB: bool, h0: real, ye: real)
    requires g.Is3Plus1() && g.gdet != 0.0
    ensures Consistent(g, SetupOf(env, g, c, hasB, h0, ye))
  {
    hide Apply, Dot, Scale, Ratio, FieldScale, Sq;
    var s := SetupOf(env, g, c, hasB, h0, ye);
    var rcov := Vec(Ratio(c.S.c0, c.D), Ratio(c.S.c1, c.D), Ratio(c.S.c2, c.D));
    MomentumInMetric(g, rcov, s.bu);
    if !hasB { NoFieldProducts(g.gcov, s.rcon); }
  }

  lemma NoFieldProducts(m: Mat, r: Vec)
    ensures Inner(m, ZERO, ZERO) == 0.0 && Inner(m, ZERO, r) == 0.0 && Sq(0.0) == 0.0
  {
    hide Apply;
    ZeroDot(Apply(m, ZERO));
    ZeroDot(Apply(m, r));
  }

  lemma ZeroDot(a: Vec)
    ensures Dot(ZERO, a) == 0.0
  {
  }

  lemma MomentumInMetric(g: Geom, rcov: Vec, bu: Vec)
    requires IsMetric(g.gcov, g.gcon)
    ensures var rcon := Apply(g.gcon, rcov);
            && Dot(rcon, rcov) >= 0.0 && Inner(g.gcov, bu, bu) >= 0.0
            && Dot(rcon, rcov) == Inner(g.gcov, rcon, rcon) && Dot(bu, rcov) == Inner(g.gcov, bu, rcon)
            && 0.0 <= Dot(bu, rcov) * Dot(bu, rcov) <= Inner(g.gcov, bu, bu) * Dot(rcon, rcov)
  {
    hide Apply, Dot;
    var rcon := Apply(g.gcon, rcov);
    assert Apply(g.gcov, rcon) == rcov;
    CauchySchwarz(g.gcov, bu, rcon);
    SquareNonneg(Dot(bu, rcov));
  }

  datatype Recovered = Recovered(rho: real, vel: Vec, u: real, tmp: real, prs: real, gm1: real)

  /** The primitives that a value of mu stands for. */
  function Unwrap(s: Setup, mu: real): Recovered
    requires s.p.h0 > 0.0 && s.p.rsq >= 0.0 && s.p.env.gamMax >= 1.0
  {
    var h := s.p.State(mu);
    var env, ye := s.p.env, s.p.ye;
    var tmp := env.tempOfSie(h.rho, h.eps, ye);
    Recovered(h.rho, StoredVelocity(s, mu, h), Prod(h.eps, h.rho), tmp, env.pressureOfTemp(h.rho, tmp, ye),
              env.gamma1(h.rho, tmp, ye))
  }

  /** What is stored for mu: a density and an energy within the floors and ceilings, and the temperature,
      pressure and bulk modulus that the equation of state gives for them. */
  ghost predicate StoresLimited(p: Problem, mu: real, r: Recovered)
    requires p.h0 > 0.0 && p.rsq >= 0.0 && p.env.gamMax >= 1.0
  {
    var h := p.State(mu);
    && HonoursLimits(p, mu, h) && r.rho == h.rho && r.u == h.eps * h.rho
    && r.tmp == p.env.tempOfSie(h.rho, h.eps, p.ye) && r.prs == p.env.pressureOfTemp(h.rho, r.tmp, p.ye)
    && r.gm1 == p.env.gamma1(h.rho, r.tmp, p.ye)
  }

  lemma UnwrapLimited(s: Setup, mu: real)
    requires s.p.Admissible() && mu >= 0.0
    ensures s.p.h0 > 0.0 && s.p.rsq >= 0.0 && s.p.env.gamMax >= 1.0 && StoresLimited(s.p, mu, Unwrap(s, mu))
  {
    hide *;
    Defined(s.p);
    var h := s.p.State(mu);
    LimitsHonoured(s.p, mu, h);
    UnwrapParts(s, mu, h);
    StoresIs(s.p, mu, Unwrap(s, mu), h);
  }

  lemma StoresIs(p: Problem, mu: real, r: Recovered, h: Hat)
    requires p.h0 > 0.0 && p.rsq >= 0.0 && p.env.gamMax >= 1.0 && h == p.State(mu) && HonoursLimits(p, mu, h)
    requires r.rho == h.rho && r.u == Prod(h.eps, h.rho) && r.tmp == p.env.tempOfSie(h.rho, h.eps, p.ye)
    requires r.prs == p.env.pressureOfTemp(h.rho, r.tmp, p.ye) && r.gm1 == p.env.gamma1(h.rho, r.tmp, p.ye)
    ensures StoresLimited(p, mu, r)
  {
    hide Problem.State, HonoursLimits;
  }

  /** The field is divided by the root of D, or of the density floor where that is higher. */
  lemma FieldScaleFloored(env: Env, D: real)
    requires IsSqrt(env.sqrt)
    ensures var least, k := env.floors(0.0).rho * env.floorScale, FieldScale(env, D);
            && (D > 0.0 && D >= least ==> k > 0.0 && Prod(Sq(k), D) == 1.0)
            && (least > 0.0 && D < least ==> k > 0.0 && Prod(Sq(k), least) == 1.0)
  {
    var least := env.floors(0.0).rho * env.floorScale;
    assert env.RhoFloor() == least;
    var x := if D < least then least else D;
    if x > 0.0 { ReciprocalRoot(env.sqrt, x); }
  }

  lemma ReciprocalRoot(sqrt: real -> real, x: real)
    requires IsSqrt(sqrt) && x > 0.0
    ensures Ratio(1.0, sqrt(x)) > 0.0 && Prod(Sq(Ratio(1.0, sqrt(x))), x) == 1.0
  {
    var t := sqrt(x);
    assert t != 0.0;
    DivPos(1.0, t);
    DivMul(1.0, t);
    var k := 1.0 / t;
    assert k * k * (t * t) == (k * t) * (k * t);
  }

  function StoredVelocity(s: Setup, mu: real, h: Hat): Vec {
    Scale(Prod(Prod(h.W, mu), h.x), Add(s.rcon, Scale(Prod(mu, s.bdotr), s.bu)))
  }

  /** The velocity that is stored for mu has the squared norm W^2 mu^2 rbar^2, whatever mu is. */
  lemma StoredSpeed(g: Geom, s: Setup, mu: real, h: Hat)
    requires g.Is3Plus1() && Consistent(g, s) && mu >= 0.0 && s.p.bsq >= 0.0
    requires h.x == s.p.X(mu) && h.rbarsq == s.p.RbarSq(mu, h.x)
    ensures var v := StoredVelocity(s, mu, h); Inner(g.gcov, v, v) == Prod(Sq(h.W), VsqTrial(mu, h.rbarsq))
  {
    hide *;
    MetricSymmetric(g);
    var rsq, bsq, rbsq, d := s.p.rsq, s.p.bsq, s.p.rbsq, s.bdotr;
    var x, W, rbar := h.x, h.W, h.rbarsq;
    var m, k := Prod(mu, d), Prod(Prod(W, mu), x);
    var w := Add(s.rcon, Scale(m, s.bu));
    StoredIs(s, mu, h, k, m, w);
    ConsistentParts(g, s);
    ShiftedNorm(g.gcov, s.rcon, m, s.bu, rsq, d, bsq);
    FieldInverse(s.p, mu, x, bsq);
    UnfoldRbar(s.p, mu, x, rsq, rbsq);
    var n := Inner(g.gcov, w, w);
    ScaledNorm(g.gcov, k, w, n);
    SpeedAlgebra(rsq, bsq, rbsq, d, mu, x, W, m, k, rbar, n);
  }

  lemma ScaledNorm(m: Mat, k: real, w: Vec, n: real)
    requires Symmetric(m) && n == Inner(m, w, w)
    ensures Inner(m, Scale(k, w), Scale(k, w)) == Prod(Sq(k), n)
  {
    hide Inner, Scale;
    InnerScale(m, k, w);
  }

  lemma MetricSymmetric(g: Geom)
    requires g.Is3Plus1()
    ensures Symmetric(g.gcov)
  {
  }

  lemma ConsistentParts(g: Geom, s: Setup)
    requires Consistent(g, s)
    ensures s.p.rsq == Inner(g.gcov, s.rcon, s.rcon) && s.bdotr == Inner(g.gcov, s.bu, s.rcon)
    ensures s.p.bsq == Inner(g.gcov, s.bu, s.bu) && s.p.rbsq == Sq(s.bdotr)
  {
  }

  lemma UnfoldRbar(p: Problem, mu: real, x: real, rsq: real, rbsq: real)
    requires p.rsq == rsq && p.rbsq == rbsq
    ensures p.RbarSq(mu, x) == x * (x * rsq + mu * (1.0 + x) * rbsq)
  {
  }

  lemma FieldInverse(p: Problem, mu: real, x: real, bsq: real)
    requires mu >= 0.0 && p.bsq == bsq >= 0.0 && x == p.X(mu)
    ensures x * (1.0 + mu * bsq) == 1.0
  {
    MulNonneg(mu, bsq);
    DivMul(1.0, 1.0 + mu * bsq);
  }

  lemma StoredIs(s: Setup, mu: real, h: Hat, k: real, m: real, w: Vec)
    requires m == Prod(mu, s.bdotr) && k == Prod(Prod(h.W, mu), h.x) && w == Add(s.rcon, Scale(m, s.bu))
    ensures StoredVelocity(s, mu, h) == Scale(k, w)
  {
    hide Scale, Prod;
  }

  lemma ShiftedNorm(g: Mat, r: Vec, m: real, b: Vec, rr: real, br: real, bb: real)
    requires Symmetric(g) && rr == Inner(g, r, r) && br == Inner(g, b, r) && bb == Inner(g, b, b)
    ensures var w := Add(r, Scale(m, b)); Inner(g, w, w) == rr + 2.0 * m * br + m * m * bb
  {
    hide Inner, Add, Scale;
    InnerSquare(g, r, 1.0, b, m);
    InnerSymmetric(g, b, r);
    UnitScale(r);
  }

  lemma UnitScale(v: Vec)
    ensures Scale(1.0, v) == v
  {
  }

  lemma SpeedAlgebra(rsq: real, bsq: real, rbsq: real, d: real, mu: real, x: real, W: real, m: real, k: real,
                     rbar: real, n: real)
    requires x * (1.0 + mu * bsq) == 1.0 && rbsq == Sq(d) && m == Prod(mu, d) && k == Prod(Prod(W, mu), x)
    requires rbar == x * (x * rsq + mu * (1.0 + x) * rbsq) && n == rsq + 2.0 * m * d + m * m * bsq
    ensures Prod(Sq(k), n) == Prod(Sq(W), VsqTrial(mu, rbar))
  {
    var y := x * mu * bsq;
    assert y == 1.0 - x;
    var t := x * x * n;
    assert t == x * x * rsq + 2.0 * x * x * mu * rbsq + x * mu * rbsq * y;
    assert x * mu * rbsq * y == x * mu * rbsq - x * x * mu * rbsq;
    assert t == rbar;
    assert k * k * n == W * W * (mu * mu * t);
  }

  /** So its Lorentz factor is that of the state exactly when the velocity was not capped; when it was, the
      stored velocity is the faster one, because solve does not rescale it. */
  lemma StoredLorentz(g: Geom, s: Setup, mu: real)
    requires g.Is3Plus1() && s.p.Admissible() && Consistent(g, s) && mu >= 0.0
    ensures var h := s.p.State(mu);
            var W := LorentzFactor(s.p.env.sqrt, g.gcov, StoredVelocity(s, mu, h));
            h.W <= W && (W == h.W <==> !h.flags.gammaMax)
  {
    hide *;
    Defined(s.p);
    FieldNonneg(s.p);
    SqrtGood(s.p);
    var h := s.p.State(mu);
    VelocitySane(s.p, mu);
    StateFields(s.p, mu, h);
    StoredSpeed(g, s, mu, h);
    var v := StoredVelocity(s, mu, h);
    PositiveNorm(g, v);
    LorentzFactorAtLeastOne(s.p.env.sqrt, g.gcov, v);
    SpeedFlag(s.p, mu, h);
    var W, A := LorentzFactor(s.p.env.sqrt, g.gcov, v), VsqTrial(mu, h.rbarsq);
    CompareFactors(W, h.W, h.iW, h.vhatsq, A);
  }

  lemma FieldNonneg(p: Problem)
    requires p.Admissible()
    ensures p.bsq >= 0.0
  {
  }

  lemma SqrtGood(p: Problem)
    requires p.Admissible()
    ensures IsSqrt(p.env.sqrt)
  {
  }

  lemma StateFields(p: Problem, mu: real, h: Hat)
    requires p.h0 > 0.0 && p.rsq >= 0.0 && p.env.gamMax >= 1.0 && h == p.State(mu)
    ensures h.x == p.X(mu) && h.rbarsq == p.RbarSq(mu, h.x)
  {
    hide Problem.X, Problem.RbarSq, Problem.Qbar, Problem.V0sq, VsqTrial, SieTrial, Env.SieFloor, Env.SieHat, Ratio;
  }

  lemma SpeedFlag(p: Problem, mu: real, h: Hat)
    requires p.h0 > 0.0 && p.rsq >= 0.0 && p.env.gamMax >= 1.0 && h == p.State(mu)
    ensures h.flags.gammaMax <==> h.vhatsq != VsqTrial(mu, h.rbarsq)
  {
    hide Problem.X, Problem.RbarSq, Problem.Qbar, Problem.V0sq, VsqTrial, SieTrial, Env.SieFloor, Env.SieHat, Ratio;
  }

  /** W'^2 == 1 + W^2 A against W^2 == 1 + W^2 V. */
  lemma CompareFactors(W': real, W: real, iW: real, V: real, A: real)
    requires W' >= 1.0 && W >= 1.0 && Prod(W, iW) == 1.0 && Sq(iW) == 1.0 - V && V <= A
    requires Sq(W') == 1.0 + Prod(Sq(W), A)
    ensures W <= W' && (W' == W <==> A == V)
  {
    hide *;
    FactorGap(W', W, iW, V, A);
    SqOrder(1.0, W);
    OneSquared();
    ProdSign(Sq(W), A - V);
    SqOrder(W, W');
    SqOrder(W', W);
  }

  lemma OneSquared()
    ensures Sq(1.0) == 1.0
  {
  }

  lemma ProdSign(c: real, x: real)
    requires c > 0.0
    ensures (Prod(c, x) >= 0.0 <==> x >= 0.0) && (Prod(c, x) > 0.0 <==> x > 0.0)
  {
    CancelPos(c, x);
  }

  lemma FactorGap(W': real, W: real, iW: real, V: real, A: real)
    requires Prod(W, iW) == 1.0 && Sq(iW) == 1.0 - V && Sq(W') == 1.0 + Prod(Sq(W), A)
    ensures Sq(W') - Sq(W) == Prod(Sq(W), A - V)
  {
    UnitFactor(1.0, iW, W);
    assert W * W * (iW * iW) == 1.0;
    assert W * W * (A - V) == W * W * A - W * W + W * W * (iW * iW);
  }

  /** The variables of one cell that solve reads and overwrites: conserved and primitive ones, the electron
      fraction and the field in both forms, the signal speeds, and the mu of the last call. */
  class Cell {
    var cons: Cons
    var cye: real
    var prim: Recovered
    var pye: real
    var pb: Vec
    var sig: Vec
    var mu: real
  }

  /** Aborted: the source stops the run because the root is not bracketed. */
  datatype Status = Success | Failure | Aborted | NotFinite

  /** The smallest mu that the search for the upper bound considers. */
  const MU_MIN: real := 1e-16

  /** How many passes a finder makes that was given no limit. */
  const MAX_PASSES: nat := 0x7fff_ffff

  /** Where r reaches h0, the interval [1e-16, 1 / h0] that is searched for the upper bound must not be empty. */
  ghost predicate Searchable(p: Problem) {
    p.h0 > 0.0 && (p.rsq >= p.h0 * p.h0 ==> p.h0 <= 1.0 / MU_MIN)
  }

  /** With an enthalpy of 1e-6 or more that search cannot run out of passes. */
  lemma EnoughPasses(h0: real)
    requires 1e-6 <= h0 <= 1.0 / MU_MIN
    ensures MU_MIN <= 1.0 / h0 && BisectionSteps(1.0 / h0 - MU_MIN, 1e-3) <= MAX_PASSES
  {
    InverseRange(h0);
    BisectionStepsBound(1.0 / h0 - MU_MIN, 1e-3, 1e9);
  }

  lemma SqrtOfSquare(sqrt: real -> real, h: real)
    requires IsSqrt(sqrt) && h > 0.0
    ensures sqrt(h * h) == h
  {
    var h2 := h * h;
    SquareIsPos(h, h2);
    var t := sqrt(h2);
    SquareOrder(t, h);
    SquareOrder(h, t);
  }

  lemma InverseRange(h: real)
    requires 0.0 < h <= 1.0 / MU_MIN
    ensures MU_MIN <= 1.0 / h
    ensures h >= 1e-6 ==> 1.0 / h <= 1e6
  {
    var q := 1.0 / h;
    assert q * h == 1.0;
    if q < MU_MIN {
      MulMonoStrict(q, MU_MIN, h);
    }
    if h >= 1e-6 && q > 1e6 {
      MulMonoStrict(1e6, q, h);
    }
  }

  /** aux_func as the root finder sees it. */
  function AuxOf(p: Problem): real --> real { (mu: real) => p.Aux(mu) }

  lemma AuxSearches(p: Problem)
    requires 0.0 < p.h0 <= 1.0 / MU_MIN
    ensures MU_MIN <= 1.0 / p.h0 && Searches(AuxOf(p), MU_MIN, 1.0 / p.h0, 1e-3, -1.0)
    ensures Refine(AuxOf(p), -1.0, MU_MIN, 1.0 / p.h0)
            == Bracket(MU_MIN, 1.0 / p.h0, p.Aux(MU_MIN), p.Aux(1.0 / p.h0))
  {
    hide Problem.Aux;
    InverseRange(p.h0);
    RefineOutside(AuxOf(p), -1.0, MU_MIN, 1.0 / p.h0);
  }

  /** The upper end of the search: 1 / h0 below r == h0, the ITP midpoint on aux_func from there on. */
  function BoundOf(p: Problem): Outcome
    requires Searchable(p)
  {
    if p.rsq < p.h0 * p.h0 then Root(1.0 / p.h0)
    else
      AuxSearches(p);
      ItpResult(AuxOf(p), MU_MIN, 1.0 / p.h0, 1e-3, MAX_PASSES, -1.0)
  }

  /** Over exact reals the bound is a positive mu, or there is none, which takes an aux_func that is
      positive at 1e-16 already. */
  lemma BoundRange(p: Problem)
    requires p.Admissible() && Searchable(p)
    ensures !BoundOf(p).NotANumber? && (BoundOf(p).Root? ==> BoundOf(p).x > 0.0)
    ensures BoundOf(p).Unbracketed? <==> p.rsq >= p.h0 * p.h0 && p.Aux(MU_MIN) > 0.0 && p.Aux(1.0 / p.h0) > 0.0
    ensures p.Aux(1.0 / p.h0) >= 0.0
  {
    hide Problem.Aux, Env.Admissible, ItpEnd, Problem.Value, Refine;
    InverseEnthalpyBound(p);
    if p.rsq < p.h0 * p.h0 {
      DivPos(1.0, p.h0);
    } else {
      AuxSearches(p);
      if BoundOf(p).Root? { ItpResultAbove(AuxOf(p), MU_MIN, 1.0 / p.h0, 1e-3, MAX_PASSES, -1.0); }
    }
  }

  /** compute_upper_bound, and the choice around it. hi - lo is the last bracket of ITP; where aux_func was
      negative to begin with, its root lies between them, and the passes suffice for 2e-3. */
  method UpperBound(p: Problem) returns (r: Outcome, ghost lo: real, ghost hi: real)
    requires p.Admissible() && Searchable(p)
    ensures r == BoundOf(p) && p.h0 > 0.0
    ensures p.rsq < p.h0 * p.h0 ==> lo == hi == 1.0 / p.h0 && p.Aux(hi) >= 0.0
    ensures r.Root? && p.rsq >= p.h0 * p.h0 && p.Aux(MU_MIN) < 0.0 ==>
              lo <= r.x <= hi && p.Aux(lo) <= 0.0 <= p.Aux(hi) && (p.h0 >= 1e-6 ==> hi - lo <= 2e-3)
  {
    hide Problem.Aux, Problem.Value, Env.Admissible, ItpResult, Searches, IsSqrt;
    var h0sq := p.h0 * p.h0;
    SqrtGood(p);
    InverseEnthalpyBound(p);
    SqrtOfSquare(p.env.sqrt, p.h0);
    var top := 1.0 / p.env.sqrt(h0sq);
    if p.rsq >= h0sq {
      r, lo, hi := ComputeUpperBound(p, top);
    } else {
      r, lo, hi := Root(top), top, top;
    }
  }

  method ComputeUpperBound(p: Problem, top: real) returns (r: Outcome, ghost lo: real, ghost hi: real)
    requires 0.0 < p.h0 <= 1.0 / MU_MIN && top == 1.0 / p.h0
    ensures MU_MIN <= 1.0 / p.h0 && Searches(AuxOf(p), MU_MIN, 1.0 / p.h0, 1e-3, -1.0)
    ensures r == ItpResult(AuxOf(p), MU_MIN, 1.0 / p.h0, 1e-3, MAX_PASSES, -1.0)
    ensures r.Root? && p.Aux(MU_MIN) < 0.0 ==>
              lo <= r.x <= hi && p.Aux(lo) <= 0.0 <= p.Aux(hi) && (p.h0 >= 1e-6 ==> hi - lo <= 2e-3)
  {
    hide Problem.Aux, BisectionSteps, Refine, SignChange, ItpEnd, LeftRootKept, Searches, ItpResult;
    AuxSearches(p);
    if p.h0 >= 1e-6 { EnoughPasses(p.h0); }
    var finder := new RootFinder(MAX_PASSES);
    r, lo, hi := finder.Itp(AuxOf(p), MU_MIN, top, 1e-3, -1.0);
  }

  /** The master function as the root finder sees it. */
  function Master(p: Problem): real --> real {
    mu requires p.Admissible() && mu >= 0.0 => p.Value(mu)
  }

  /** r^i and r^2, raising the index as the kernel's loop does. */
  method RaiseMomentum(gcon: Mat, rcov: Vec) returns (rcon: Vec, rsq: real)
    ensures rcon == Apply(gcon, rcov) && rsq == Dot(rcon, rcov)
  {
    hide Dot;
    rcon := ZERO;
    ghost var want := Apply(gcon, rcov);
    for i := 0 to 3
      invariant i > 0 ==> rcon.c0 == want.c0
      invariant i > 1 ==> rcon.c1 == want.c1
      invariant i > 2 ==> rcon.c2 == want.c2
    {
      var s := Contract(gcon.Row(i), rcov);
      rcon := rcon.Set(i, s);
    }
    rsq := Contract(rcon, rcov);
  }

  method Prepare(env: Env, g: Geom, c: Cons, hasB: bool, h0: real, ye: real) returns (s: Setup)
    requires g.gdet != 0.0
    ensures s == SetupOf(env, g, c, hasB, h0, ye)
  {
    hide Apply, Dot, Inner, Scale, FieldScale, Ratio, Max, Prod, Sq;
    var igdet := 1.0 / g.gdet;
    var D := Prod(c.D, igdet);
    var tau := Prod(c.tau, igdet);
    var rcov := Vec(Ratio(c.S.c0, c.D), Ratio(c.S.c1, c.D), Ratio(c.S.c2, c.D));
    var rcon, rsq := RaiseMomentum(g.gcon, rcov);
    if hasB {
      var bu := Scale(FieldScale(env, D), Scale(igdet, c.bcons));
      var bdotr := Contract(bu, rcov);
      var bsq := DoubleSum(g.gcov, bu, bu);
      bsq := Max(0.0, bsq);
      var rbsq := Sq(bdotr);
      s := Setup(Problem(D, Ratio(tau, D), bsq, Prod(bsq, rsq) - rbsq, rsq, rbsq, h0, ye, env), rcon, bdotr, bu);
    } else {
      s := Setup(Problem(D, Ratio(tau, D), 0.0, 0.0, rsq, 0.0, h0, ye, env), rcon, 0.0, ZERO);
    }
  }

  /** Ye as solve takes it: the ratio of the conserved scalars, or 0.5 when Ye is not evolved. */
  function YeOf(hasYe: bool, cye: real, crho: real): real {
    if hasYe then Ratio(cye, crho) else 0.5
  }

  lemma YeIs(hasYe: bool, cye: real, crho: real)
    ensures YeOf(hasYe, cye, crho) == if hasYe then Ratio(cye, crho) else 0.5
  {
  }

  /** The primitive state that is converted back when a floor or ceiling was used. */
  function PrimOf(r: Recovered, b: Vec): Prim { Prim(r.rho, r.vel, b, r.u, r.prs) }

  /** Where the search for mu stops, given the bound: [lo, hi] is the bracket the Illinois iteration ends
      with on the master function, mu its midpoint. It holds a sign change, lies in the search interval,
      and is no wider than twice the tolerance unless all passes were used up. */
  ghost predicate Found(p: Problem, tol: real, maxIter: nat, guess: real, lo: real, hi: real, passes: nat, mu: real)
    requires p.Admissible() && Searchable(p) && tol >= 0.0
  {
    && BoundOf(p).Root? && BoundOf(p).x >= 0.0
    && 0.0 <= lo <= hi <= BoundOf(p).x && Encloses(Master(p), 0.0, BoundOf(p).x, lo, hi, mu)
    && (hi - lo <= 2.0 * tol || passes == maxIter)
    && var g := Refine(Master(p), guess, 0.0, BoundOf(p).x);
    && Bracketed(Master(p), g, tol, maxIter)
    && lo == FalsiEnd(Master(p), g, tol, maxIter).a && hi == FalsiEnd(Master(p), g, tol, maxIter).b
    && passes == PassesMade(Master(p), g, tol, maxIter)
  }

  /** No search: there is no bound, or the residual is negative at the bound, and at the guess if that lies
      below the bound. */
  ghost predicate GivenUp(p: Problem, guess: real)
    requires p.Admissible() && Searchable(p)
  {
    BoundOf(p).Root? && BoundOf(p).x >= 0.0 ==>
      p.Value(BoundOf(p).x) < 0.0 && (0.0 <= guess <= BoundOf(p).x ==> p.Value(guess) < 0.0)
  }

  /** The guess and the bound are both roots, too far apart to stop: the first interpolation is 0/0. */
  ghost predicate TwoRoots(p: Problem, tol: real, maxIter: nat, guess: real)
    requires p.Admissible() && Searchable(p)
  {
    && BoundOf(p).Root? && BoundOf(p).x - guess > 2.0 * tol && maxIter > 0
    && 0.0 <= guess <= BoundOf(p).x && p.Value(guess) == 0.0 && p.Value(BoundOf(p).x) == 0.0
  }

  /** The search itself: exactly one of three things happens. */
  method FindMu(p: Problem, tol: real, maxIter: nat, guess: real)
    returns (r: Outcome, ghost lo: real, ghost hi: real, ghost passes: nat)
    requires p.Admissible() && Searchable(p) && tol >= 0.0
    ensures r.Unbracketed? <==> GivenUp(p, guess)
    ensures r.NotANumber? <==> TwoRoots(p, tol, maxIter, guess)
    ensures r.Root? ==> r.x >= 0.0 && Found(p, tol, maxIter, guess, lo, hi, passes, r.x)
  {
    hide Problem.Value, Problem.Admissible, Problem.Aux, Refine, FalsiEnd, PassesMade, ZeroOverZero, BoundOf;
    BoundRange(p);
    BracketedBelow(p);
    MasterDefined(p);
    var upper;
    ghost var a, b;
    upper, a, b := UpperBound(p);
    lo, hi, passes := 0.0, 0.0, 0;
    if !upper.Root? {
      return upper, 0.0, 0.0, 0;
    }
    var finder := new RootFinder(maxIter);
    RefinedZeros(Master(p), guess, upper.x, tol, maxIter);
    r, lo, hi := finder.RegulaFalsi(Master(p), 0.0, upper.x, tol, guess);
    passes := finder.iterationCount;
  }

  /** The left end is negative, so both ends of the refined bracket can be roots only if the guess became
      the left one. */
  lemma RefinedZeros(f: real --> real, guess: real, top: real, tol: real, limit: nat)
    requires 0.0 <= top && (forall mu :: 0.0 <= mu <= top ==> f.requires(mu)) && f(0.0) < 0.0
    ensures ZeroOverZero(Refine(f, guess, 0.0, top), tol, limit) <==>
            0.0 <= guess <= top && f(guess) == 0.0 == f(top) && top - guess > 2.0 * tol && limit > 0
  {
  }

  /** Below r == h0 the search is never given up, whatever the state and the guess are. */
  lemma AlwaysBracketed(p: Problem, guess: real)
    requires p.Admissible() && Searchable(p) && p.rsq < p.h0 * p.h0
    ensures !GivenUp(p, guess)
  {
    hide Problem.Value, Problem.Admissible, Problem.Aux, ItpResult, AuxOf, Searches;
    BracketedBelow(p);
    DivPos(1.0, p.h0);
  }

  lemma MasterDefined(p: Problem)
    requires p.Admissible()
    ensures forall mu :: mu >= 0.0 ==> Master(p).requires(mu) && Master(p)(mu) == p.Value(mu)
  {
    hide Problem.Value, Problem.Admissible;
  }

  lemma BracketedBelow(p: Problem)
    requires p.Admissible()
    ensures p.h0 > 0.0 && p.Value(0.0) < 0.0 && p.Value(1.0 / p.h0) >= 0.0
  {
    NegativeAtZero(p);
    InverseEnthalpyBound(p);
  }

  /** The residual's own helpers, called once more at the root so that its flags describe it. */
  method Evaluate(p: Problem, mu: real) returns (h: Hat)
    requires p.Admissible() && mu >= 0.0
    ensures h == p.State(mu)
  {
    hide Problem.Value, VsqTrial, VelocityBound, SieTrial, NuHat, Ratio, Env.SieFloor,
         Env.AHat, Problem.X, Problem.RbarSq, Problem.Qbar, Problem.V0sq;
    var res := new Residual(p);
    var x := p.X(mu);
    var rbarsq := p.RbarSq(mu, x);
    var vsq := res.VhatSqMu(mu, rbarsq);
    var iW := p.env.sqrt(1.0 - vsq);
    var rho := res.RhohatMu(iW);
    var qbar := p.Qbar(mu, x);
    var W := Ratio(1.0, iW);
    var eps := res.EhatMu(mu, qbar, rbarsq, vsq, W);
    h := Hat(x, rbarsq, qbar, vsq, iW, W, rho, eps, res.Used());
  }

  lemma UnwrapParts(s: Setup, mu: real, h: Hat)
    requires s.p.Admissible() && mu >= 0.0 && h == s.p.State(mu)
    ensures var env, ye := s.p.env, s.p.ye;
            var tmp := env.tempOfSie(h.rho, h.eps, ye);
            Unwrap(s, mu) == Recovered(h.rho, StoredVelocity(s, mu, h), Prod(h.eps, h.rho), tmp,
                                       env.pressureOfTemp(h.rho, tmp, ye), env.gamma1(h.rho, tmp, ye))
  {
    hide Problem.State, StoredVelocity;
  }

  /** The second half of solve: primitives from mu, then either the conserved variables that match
      the floored state or, when nothing was floored, the conserved variables as they were; and the signal
      speeds of the stored state in both cases. */
  method StoreUnwrapped(c: Cell, g: Geom, s: Setup, mu: real, hasB: bool, hasYe: bool) returns (f: Flags)
    requires g.Is3Plus1() && s.p.Admissible() && Consistent(g, s) && mu >= 0.0
    modifies c
    ensures c.mu == mu && c.pb == old(c.pb) && c.pye == old(c.pye)
    ensures c.prim == Unwrap(s, mu) && f == s.p.State(mu).flags
    ensures Matches(s.p.env.sqrt, g, f, PrimOf(c.prim, if hasB then c.pb else ZERO), c.prim.gm1, old(c.cons), c.cons, c.sig)
    ensures c.cye == if f.Any() && hasYe then Prod(c.cons.D, c.pye) else old(c.cye)
  {
    hide *;
    var h;
    c.mu := mu;
    h, c.prim, c.cons, c.cye, c.sig := Finish(g, s, mu, if hasB then c.pb else ZERO, c.pye, c.cons, c.cye, hasYe);
    f := h.flags;
  }

  /** All that is stored, computed from what the cell held. */
  method Finish(g: Geom, s: Setup, mu: real, B: Vec, pye: real, before: Cons, cye: real, hasYe: bool)
    returns (h: Hat, r: Recovered, cons: Cons, ye: real, sig: Vec)
    requires g.Is3Plus1() && s.p.Admissible() && Consistent(g, s) && mu >= 0.0
    ensures h == s.p.State(mu) && r == Unwrap(s, mu)
    ensures Matches(s.p.env.sqrt, g, h.flags, PrimOf(r, B), r.gm1, before, cons, sig)
    ensures ye == if h.flags.Any() && hasYe then Prod(cons.D, pye) else cye
  {
    hide *;
    Defined(s.p);
    SqrtGood(s.p);
    h, r := PrimitivesAt(s, mu);
    var q := PrimOf(r, B);
    PrimOfParts(r, B);
    cons, ye := before, cye;
    if h.flags.Any() {
      var yeCons;
      cons, yeCons, sig := Reconvert(g, s.p.env.sqrt, h.flags, q, if hasYe then pye else 0.0, r.gm1, before);
      if hasYe { ye := yeCons; }
    } else {
      sig := SpeedsOnly(g, s, mu, h, q, r.gm1, before);
    }
  }

  /** What solve leaves of a state q with flags f: conserved variables and signal speeds that belong to it. */
  ghost predicate Matches(sqrt: real -> real, g: Geom, f: Flags, q: Prim, gm1: real, before: Cons, after: Cons,
                          sig: Vec) {
    var W := LorentzFactor(sqrt, g.gcov, q.vp);
    && W >= 1.0
    && after == (if f.Any() then Valencia(g, q, W).(bcons := before.bcons) else before)
    && SignalsOf(sqrt, g, FlowOf(g, q, gm1, W), sig)
  }

  /** The branch with floors. */
  method Reconvert(g: Geom, sqrt: real -> real, ghost f: Flags, q: Prim, ye: real, gm1: real, before: Cons)
    returns (cons: Cons, yeCons: real, sig: Vec)
    requires g.Is3Plus1() && IsSqrt(sqrt) && f.Any()
    ensures yeCons == Prod(cons.D, ye) && Matches(sqrt, g, f, q, gm1, before, cons, sig)
  {
    hide Valencia, LorentzFactor, SignalsOf, FlowOf, Geom.Is3Plus1;
    cons, yeCons, sig := P2C(g, sqrt, q, ye, gm1);
    cons := cons.(bcons := before.bcons);
  }

  /** The primitives of mu, by the calls that follow the search. */
  method PrimitivesAt(s: Setup, mu: real) returns (h: Hat, r: Recovered)
    requires s.p.Admissible() && mu >= 0.0
    requires s.p.h0 > 0.0 && s.p.rsq >= 0.0 && s.p.env.gamMax >= 1.0
    ensures h == s.p.State(mu) && r == Unwrap(s, mu) && r.vel == StoredVelocity(s, mu, h)
  {
    hide *;
    var env, ye := s.p.env, s.p.ye;
    h := Evaluate(s.p, mu);
    UnwrapParts(s, mu, h);
    var rho := h.rho;
    var tmp := env.tempOfSie(rho, h.eps, ye);
    r := Recovered(rho, StoredVelocity(s, mu, h), Prod(h.eps, rho), tmp, env.pressureOfTemp(rho, tmp, ye),
                   env.gamma1(rho, tmp, ye));
  }

  lemma StoredUncapped(g: Geom, s: Setup, mu: real, h: Hat)
    requires g.Is3Plus1() && s.p.Admissible() && Consistent(g, s) && mu >= 0.0 && h == s.p.State(mu) && !h.flags.Any()
    ensures var v := StoredVelocity(s, mu, h);
            && LorentzFactor(s.p.env.sqrt, g.gcov, v) == h.W >= 1.0
            && Prod(h.W, h.iW) == 1.0 && Inner(g.gcov, v, v) == Prod(Sq(h.W), h.vhatsq)
  {
    hide *;
    Defined(s.p);
    FieldNonneg(s.p);
    StoredLorentz(g, s, mu);
    StateFields(s.p, mu, h);
    StoredSpeed(g, s, mu, h);
    VelocitySane(s.p, mu);
    SpeedFlag(s.p, mu, h);
    NoGammaFlag(h.flags);
  }

  lemma NoGammaFlag(f: Flags)
    requires !f.Any()
    ensures !f.gammaMax
  {
  }

  /** The branch without floors: the source forms b^2 from the velocity scaled by the state's own 1 / W. */
  method SpeedsOnly(g: Geom, s: Setup, mu: real, h: Hat, q: Prim, gm1: real, ghost before: Cons)
    returns (sig: Vec)
    requires g.Is3Plus1() && s.p.Admissible() && Consistent(g, s) && mu >= 0.0
    requires s.p.h0 > 0.0 && s.p.rsq >= 0.0 && s.p.env.gamMax >= 1.0
    requires h == s.p.State(mu) && !h.flags.Any() && q.vp == StoredVelocity(s, mu, h)
    ensures Matches(s.p.env.sqrt, g, h.flags, q, gm1, before, before, sig)
  {
    hide *;
    MetricSymmetric(g);
    StoredUncapped(g, s, mu, h);
    var vel := Scale(h.iW, q.vp);
    var bsq := DoubleSum(g.gcov, q.b, q.b);
    var bdotv := DoubleSum(g.gcov, q.b, vel);
    bsq := h.iW * h.iW * bsq + bdotv * bdotv;
    sig := SignalSpeeds.SignalSpeeds(s.p.env.sqrt, q.rho, q.u, q.p, bsq, vel, h.vhatsq, gm1, g.alpha, g.beta, g.gcon);
    SameFlow(g, q, gm1, h.W, h.iW, h.vhatsq, vel, bsq);
    SignalsIs(s.p.env.sqrt, g, FlowOf(g, q, gm1, h.W), sig);
    MatchesIs(s.p.env.sqrt, g, h.flags, q, gm1, before, sig, h.W);
  }

  lemma MatchesIs(sqrt: real -> real, g: Geom, f: Flags, q: Prim, gm1: real, before: Cons, sig: Vec, W: real)
    requires W == LorentzFactor(sqrt, g.gcov, q.vp) && W >= 1.0 && !f.Any() && SignalsOf(sqrt, g, FlowOf(g, q, gm1, W), sig)
    ensures Matches(sqrt, g, f, q, gm1, before, before, sig)
  {
    hide LorentzFactor, SignalsOf, FlowOf, Valencia;
  }

  lemma SignalsIs(sqrt: real -> real, g: Geom, f: Flow, sig: Vec)
    ensures SignalsOf(sqrt, g, f, sig) <==> (f.Regular() ==> sig == Signals(sqrt, f, g.alpha, g.beta, g.gcon))
  {
  }

  lemma SameFlow(g: Geom, q: Prim, gm1: real, W: real, iW: real, V: real, vel: Vec, bsq: real)
    requires Symmetric(g.gcov) && W >= 1.0 && Prod(W, iW) == 1.0 && vel == Scale(iW, q.vp)
    requires Inner(g.gcov, q.vp, q.vp) == Prod(Sq(W), V)
    requires bsq == iW * iW * Inner(g.gcov, q.b, q.b) + Inner(g.gcov, q.b, vel) * Inner(g.gcov, q.b, vel)
    ensures FlowOf(g, q, gm1, W) == Flow(q.rho + q.u + q.p, q.p, bsq, gm1, vel, V)
  {
    hide Inner, Scale, Prod, Sq, FieldStrength;
    ReciprocalIs(W, iW);
    ScaledNorm(g.gcov, iW, q.vp, Prod(Sq(W), V));
    ScaledSpeed(iW, W, V);
    StrengthIs(Inner(g.gcov, q.b, q.b), Inner(g.gcov, q.b, vel), iW);
  }

  lemma ReciprocalIs(W: real, iW: real)
    requires W >= 1.0 && Prod(W, iW) == 1.0
    ensures 1.0 / W == iW
  {
    DivIs(1.0, W, iW);
  }

  lemma ScaledSpeed(iW: real, W: real, V: real)
    requires Prod(W, iW) == 1.0
    ensures Prod(Sq(iW), Prod(Sq(W), V)) == V
  {
    UnitFactor(V, iW, W);
    assert iW * iW * (Sq(W) * V) == V * iW * iW * W * W;
  }

  lemma StrengthIs(Q: real, N: real, iW: real)
    ensures FieldStrength(Q, N, iW) == iW * iW * Q + N * N
  {
  }

  lemma PrimOfParts(r: Recovered, b: Vec)
    ensures var q := PrimOf(r, b);
            q.rho == r.rho && q.vp == r.vel && q.u == r.u && q.p == r.prs && q.b == b
  {
  }

  /** The status that is returned once mu is found. */
  predicate Reports(status: Status, f: Flags, failOnFloors: bool, failOnCeilings: bool) {
    && (status.Success? || status.Failure?)
    && (status.Failure? <==> (failOnFloors && (f.densityFloor || f.energyFloor)) || (failOnCeilings && f.gammaMax))
  }

  /** solve: the whole recovery of one cell. */
  method Solve(c: Cell, env: Env, g: Geom, h0: real, hasB: bool, hasYe: bool, tol: real, maxIter: nat,
               failOnFloors: bool, failOnCeilings: bool)
    returns (status: Status, ghost s: Setup, ghost lo: real, ghost hi: real, ghost passes: nat)
    requires g.Is3Plus1() && tol >= 0.0
    requires env.Admissible(h0, YeOf(hasYe, c.cye, c.cons.D))
    requires Searchable(SetupOf(env, g, c.cons, hasB, h0, YeOf(hasYe, c.cye, c.cons.D)).p)
    modifies c
    ensures s == old(SetupOf(env, g, c.cons, hasB, h0, YeOf(hasYe, c.cye, c.cons.D)))
    ensures s.p.Admissible() && Searchable(s.p)
    ensures s.p.ye == if hasYe then Ratio(old(c.cye), old(c.cons.D)) else 0.5
    // the run is stopped exactly when the root is not bracketed, which takes r >= h0
    ensures status.Aborted? <==> GivenUp(s.p, old(c.mu))
    ensures s.p.rsq < h0 * h0 ==> !status.Aborted?
    // the search is undefined exactly when guess and bound are both roots; everywhere else mu is found
    ensures status.NotFinite? <==> TwoRoots(s.p, tol, maxIter, old(c.mu))
    ensures status.Success? || status.Failure? ==> c.mu >= 0.0 && Found(s.p, tol, maxIter, old(c.mu), lo, hi, passes, c.mu)
    // the primitives are what that mu stands for
    ensures status.Success? || status.Failure? ==> c.prim == Unwrap(s, c.mu)
    // its density and energy keep the floors and ceilings, and the rest is what the equation of state gives
    ensures status.Success? || status.Failure? ==> StoresLimited(s.p, c.mu, c.prim)
    // the conserved variables change only with a floor or ceiling, and then match the primitives, as the
    // signal speeds always do
    ensures status.Success? || status.Failure? ==>
              Matches(env.sqrt, g, s.p.State(c.mu).flags, PrimOf(c.prim, if hasB then c.pb else ZERO), c.prim.gm1,
                      old(c.cons), c.cons, c.sig)
    ensures c.cons.bcons == old(c.cons.bcons) && (hasB ==> c.pb == Scale(1.0 / g.gdet, c.cons.bcons))
    ensures c.pye == if hasYe then Ratio(old(c.cye), old(c.cons.D)) else old(c.pye)
    ensures status.Success? || status.Failure? ==>
              c.cye == if hasYe && s.p.State(c.mu).flags.Any() then Prod(c.cons.D, c.pye) else old(c.cye)
    ensures status.Aborted? || status.NotFinite? ==> c.cons == old(c.cons) && c.prim == old(c.prim) && c.mu == old(c.mu)
    // the status reports exactly the floors and ceilings the caller asked about
    ensures status.Success? || status.Failure? ==> Reports(status, s.p.State(c.mu).flags, failOnFloors, failOnCeilings)
  {
    hide *;
    GeomPositive(g);
    var cons := c.cons;
    var ye := YeOf(hasYe, c.cye, cons.D);
    YeIs(hasYe, c.cye, cons.D);
    if hasYe { c.pye := Ratio(c.cye, cons.D); }
    if hasB { c.pb := Scale(1.0 / g.gdet, cons.bcons); }
    var setup := Prepare(env, g, cons, hasB, h0, ye);
    s := setup;
    SetupAdmissible(env, g, cons, hasB, h0, ye);
    SetupConsistent(env, g, cons, hasB, h0, ye);
    SetupParts(env, g, cons, hasB, h0, ye);
    if s.p.rsq < h0 * h0 { AlwaysBracketed(s.p, c.mu); }
    var r;
    r, lo, hi, passes := FindMu(setup.p, tol, maxIter, c.mu);
    if r.Unbracketed? { status := Aborted; return; }
    if r.NotANumber? { status := NotFinite; return; }
    var f := StoreUnwrapped(c, g, setup, r.x, hasB, hasYe);
    UnwrapLimited(setup, r.x);
    FieldKept(env.sqrt, g, f, PrimOf(c.prim, if hasB then c.pb else ZERO), c.prim.gm1, cons, c.cons, c.sig);
    status := if (failOnFloors && (f.densityFloor || f.energyFloor)) || (failOnCeilings && f.gammaMax)
              then Failure else Success;
    ReportsIs(status, f, failOnFloors, failOnCeilings);
  }

  lemma FieldKept(sqrt: real -> real, g: Geom, f: Flags, q: Prim, gm1: real, before: Cons, after: Cons, sig: Vec)
    requires Matches(sqrt, g, f, q, gm1, before, after, sig)
    ensures after.bcons == before.bcons
  {
    hide Valencia, LorentzFactor, SignalsOf, FlowOf;
  }

  lemma ReportsIs(status: Status, f: Flags, failOnFloors: bool, failOnCeilings: bool)
    requires status == if (failOnFloors && (f.densityFloor || f.energyFloor)) || (failOnCeilings && f.gammaMax)
                       then Failure else Success
    ensures Reports(status, f, failOnFloors, failOnCeilings)
  {
  }

  lemma GeomPositive(g: Geom)
    requires g.Is3Plus1()
    ensures g.gdet > 0.0
  {
  }

  lemma SetupParts(env: Env, g: Geom, c: Cons, hasB: bool, h0: real, ye: real)
    requires g.gdet != 0.0 && env.Admissible(h0, ye)
    ensures var s := SetupOf(env, g, c, hasB, h0, ye); s.p.env == env && s.p.h0 == h0 && s.p.ye == ye
    ensures IsSqrt(env.sqrt) && h0 > 0.0
  {
  }
}
