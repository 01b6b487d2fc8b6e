/** Two families of physical states on which the recovery does not do what it is for: ideal gas with r about
    two and little heat, in any metric, on which solve stops the run, and tenuous gas, whose true mu is not a
    root of the residual. An ideal gas with adiabatic index 4/3 in flat space belongs to both. */
module IdealGas {
  import opened Reals
  import opened Vectors
  import opened PrimToCon
  import opened RootFind
  import opened ConToPrim
  import opened Recovery
  import opened RoundTrip
  import opened UniqueRoot

  // ---------------------------------------------------------------------------------------------
  // The gas.

  const SIE_FLOOR: real := 1e-9
  const RHO_FLOOR: real := 1e-20

  /** p = (4/3 - 1) rho eps, temperature measured in specific energy; constant floors and ceilings. */
  function GasEnv(sqrt: real -> real): Env {
    Env(sqrt, _ => Floor(RHO_FLOOR, SIE_FLOOR, SIE_FLOOR), 1.0, 10.0, 10.0, (rho, eps, _) => Third(rho, eps),
        (_, T, _) => T, (_, eps, _) => eps, (rho, T, _) => Third(rho, T), (_, _, _) => 4.0 / 3.0)
  }

  function Third(rho: real, eps: real): real { rho * eps / 3.0 }

  lemma GasFloors(sqrt: real -> real, rho: real, ye: real)
    ensures var env := GasEnv(sqrt); env.RhoFloor() == RHO_FLOOR && env.SieFloor(rho, ye) == SIE_FLOOR
  {
  }

  /** The guarded pressure ratio is nonnegative; where the guard is idle, (1 + a)(1 + eps) = 1 + 4/3 eps. */
  lemma GasRatio(sqrt: real -> real, rho: real, eps: real, ye: real)
    requires rho > 0.0 && eps >= 0.0
    ensures GasEnv(sqrt).AHat(rho, eps, ye) >= 0.0
    ensures rho * (1.0 + eps) >= EPS ==> Prod(1.0 + GasEnv(sqrt).AHat(rho, eps, ye), 1.0 + eps) == 1.0 + 4.0 / 3.0 * eps
  {
    var p, e := Third(rho, eps), rho * (1.0 + eps);
    MulNonneg(rho, eps);
    var m := MakePositive(e);
    AHatIs(GasEnv(sqrt), rho, eps, ye, p, e);
    DivNonneg(p, m);
    if e >= EPS {
      var a := p / e;
      DivMul(p, e);
      assert 3.0 * (a * (1.0 + eps) - eps / 3.0) * rho == 0.0 by { assert a * e == (a * (1.0 + eps)) * rho; }
      assert a * (1.0 + eps) == eps / 3.0;
    }
  }

  lemma GasAdmissible(sqrt: real -> real, ye: real)
    requires IsSqrt(sqrt)
    ensures GasEnv(sqrt).Admissible(1.0, ye)
  {
    hide IsSqrt, Env.AHat, Third;
    var env := GasEnv(sqrt);
    forall rho, eps | rho >= env.RhoFloor() && (eps >= env.SieFloor(rho, ye) || eps == env.sieMax)
      ensures env.Enthalpy(rho, eps, ye) >= 1.0
    {
      GasFloors(sqrt, rho, ye);
      GasRatio(sqrt, rho, eps, ye);
      MulNonneg(env.AHat(rho, eps, ye), 1.0 + eps);
    }
  }

  const FLAT := Geom(IDENTITY, ZERO, IDENTITY, ZERO, 1.0, 1.0)

  /** It is an ideal gas in the sense of the theorem about the root. */
  lemma GasLaw(sqrt: real -> real, ye: real)
    ensures GammaLaw(GasEnv(sqrt), 4.0 / 3.0, ye)
  {
    forall rho ensures GasEnv(sqrt).SieFloor(rho, ye) == SIE_FLOOR { GasFloors(sqrt, rho, ye); }
    forall rho, eps ensures GasEnv(sqrt).pressure(rho, eps, ye) == (4.0 / 3.0 - 1.0) * (rho * eps) {
      assert Third(rho, eps) == rho * eps / 3.0;
    }
  }

  lemma FlatMetric()
    ensures FLAT.Is3Plus1()
  {
    hide Apply, Dot;
    forall v: Vec ensures Inner(IDENTITY, v, v) >= 0.0 && Apply(IDENTITY, v) == v {
      IdentityApplies(v);
      DotNonneg(v);
    }
    IdentityApplies(ZERO);
  }

  lemma DotNonneg(v: Vec)
    ensures Dot(v, v) >= 0.0
  {
    SquareNonneg(v.c0);
    SquareNonneg(v.c1);
    SquareNonneg(v.c2);
  }

  // ---------------------------------------------------------------------------------------------
  // ITP on mu s - 1, the form aux_func takes without a field. Its root is z = 1 / s.

  function Rise(s: real, x: real): real { x * s - 1.0 }

  /** A bracket with the function's values at its ends. */
  function On(s: real, a: real, b: real): Bracket { Bracket(a, b, Rise(s, a), Rise(s, b)) }

  /** For a linear function the false-position point is the root. */
  lemma LinearTrial(s: real, z: real, a: real, b: real, r: real)
    requires a < b && r >= 0.0 && s > 0.0 && s * z == 1.0
    ensures ItpTrial(a, b, Rise(s, a), Rise(s, b), r) == Projected(a, b, z, r)
  {
    hide Projected, Rise, ChordRoot;
    LineChord(s, z, a, b, Rise(s, a), Rise(s, b));
    ChordIs(a, b, Rise(s, a), Rise(s, b), z);
  }

  lemma ChordIs(a: real, b: real, ya: real, yb: real, z: real)
    requires a < b && yb - ya > 0.0 && yb * a - ya * b == z * (yb - ya)
    ensures ChordRoot(a, b, ya, yb) == z
  {
    var d := yb - ya;
    assert ChordRoot(a, b, ya, yb) == (yb * a - ya * b) / d;
    DivIs(yb * a - ya * b, d, z);
  }

  lemma LineChord(s: real, z: real, a: real, b: real, ya: real, yb: real)
    requires a < b && s > 0.0 && s * z == 1.0 && ya == Rise(s, a) && yb == Rise(s, b)
    ensures yb - ya > 0.0 && yb * a - ya * b == z * (yb - ya)
  {
    MulMonoStrict(a, b, s);
    ChordParts(s, z, a, b);
  }

  lemma ChordParts(s: real, z: real, a: real, b: real)
    requires s * z == 1.0
    ensures (b * s - 1.0) * a - (a * s - 1.0) * b == b - a && z * ((b * s - 1.0) - (a * s - 1.0)) == b - a
  {
    assert z * ((b * s - 1.0) - (a * s - 1.0)) == b * (s * z) - a * (s * z);
  }

  /** A linear aux_func that rises through zero at z. */
  ghost predicate Line(f: real --> real, s: real, z: real) {
    s > 0.0 && s * z == 1.0 && forall x :: f.requires(x) && f(x) == Rise(s, x)
  }

  lemma LineAt(f: real --> real, s: real, z: real, x: real)
    requires Line(f, s, z)
    ensures f.requires(x) && f(x) == Rise(s, x) && s > 0.0 && s * z == 1.0 && forall y :: f.requires(y)
  {
  }

  /** ITP at tolerance 1e-3 gets from t to u. */
  ghost predicate Continues(f: real --> real, t: Bracket, left: nat, limit: nat, u: Bracket, left': nat, limit': nat) {
    && ItpState(f, t, 1e-3, left) && ItpState(f, u, 1e-3, left')
    && ItpRun(f, 1.0, t, 1e-3, left, limit) == ItpRun(f, 1.0, u, 1e-3, left', limit')
  }

  lemma Onward(f: real --> real, t: Bracket, left: nat, limit: nat, u: Bracket, left': nat, limit': nat,
               v: Bracket, left'': nat, limit'': nat)
    requires Continues(f, t, left, limit, u, left', limit') && Continues(f, u, left', limit', v, left'', limit'')
    ensures Continues(f, t, left, limit, v, left'', limit'')
  {
    hide ItpRun, ItpState;
  }

  /** One step, given the budget and the trial point it leads to. */
  lemma LinearStep(f: real --> real, s: real, z: real, a: real, b: real, left: nat, limit: nat, budget: real, x: real,
                   u: Bracket)
    requires Line(f, s, z) && left > 0 && limit > 0 && b - a > 2e-3 && a <= z <= b
    requires Budget(1e-3, left) == budget && 0.5 * (b - a) <= budget
    requires x == Projected(a, b, z, budget - 0.5 * (b - a)) && x != z
    requires u == if x > z then On(s, a, x) else On(s, x, b)
    ensures Continues(f, On(s, a, b), left, limit, u, left - 1, limit - 1)
  {
    hide *;
    LineAt(f, s, z, x);
    var t, r := On(s, a, b), budget - 0.5 * (b - a);
    OnIs(s, a, b);
    LinearTrial(s, z, a, b, r);
    LinearSign(s, z, x);
    OpenState(f, t, left);
    TrialIs(t, left, budget);
    ShrinkIs(s, z, a, b, x, u);
    StepIs(f, t, left, x, u);
    ContinuesStep(f, t, left, limit, u);
  }

  lemma OnIs(s: real, a: real, b: real)
    ensures On(s, a, b) == Bracket(a, b, Rise(s, a), Rise(s, b))
  {
  }

  lemma OpenState(f: real --> real, t: Bracket, left: nat)
    requires (forall x :: f.requires(x)) && 0.5 * (t.b - t.a) <= Budget(1e-3, left)
    ensures ItpState(f, t, 1e-3, left)
  {
    hide Budget;
  }

  lemma TrialIs(t: Bracket, left: nat, budget: real)
    requires t.a < t.b && Budget(1e-3, left) == budget && 0.5 * (t.b - t.a) <= budget
    ensures TrialOf(t, 1e-3, left) == ItpTrial(t.a, t.b, t.ya, t.yb, budget - 0.5 * (t.b - t.a))
  {
    hide Budget, ItpTrial;
  }

  lemma ShrinkIs(s: real, z: real, a: real, b: real, x: real, u: Bracket)
    requires (Rise(s, x) > 0.0 <==> x > z) && (Rise(s, x) < 0.0 <==> x < z) && x != z
    requires u == if x > z then On(s, a, x) else On(s, x, b)
    ensures Shrink(On(s, a, b), x, Orient(1.0, Rise(s, x))) == u
  {
    hide Rise;
  }

  lemma StepIs(f: real --> real, t: Bracket, left: nat, x: real, u: Bracket)
    requires ItpState(f, t, 1e-3, left) && left > 0 && t.a < t.b && 0.5 * (t.b - t.a) <= Budget(1e-3, left)
    requires x == TrialOf(t, 1e-3, left) && f.requires(x) && u == Shrink(t, x, Orient(1.0, f(x)))
    ensures ItpStep(f, 1.0, t, 1e-3, left) == u
  {
    hide TrialOf, Budget, Shrink, Orient, ItpState;
  }

  lemma ContinuesStep(f: real --> real, t: Bracket, left: nat, limit: nat, u: Bracket)
    requires ItpState(f, t, 1e-3, left) && left > 0 && limit > 0 && t.b - t.a > 2e-3
    requires u == ItpStep(f, 1.0, t, 1e-3, left)
    ensures Continues(f, t, left, limit, u, left - 1, limit - 1)
  {
    hide ItpStep, ItpState, ItpRun;
    ItpRunUnfold(f, 1.0, t, 1e-3, left, limit);
  }

  lemma LinearSign(s: real, z: real, x: real)
    requires s > 0.0 && s * z == 1.0
    ensures (Rise(s, x) > 0.0 <==> x > z) && (Rise(s, x) < 0.0 <==> x < z)
  {
    var y := x - z;
    CancelPos(s, y);
    var n := -y;
    CancelPos(s, n);
    assert s * y == x * s - s * z;
    assert s * n == -(s * y);
  }

  lemma Budgets()
    ensures Budget(1e-3, 9) == 0.512 && Budget(1e-3, 8) == 0.256 && Budget(1e-3, 7) == 0.128
    ensures Budget(1e-3, 6) == 0.064 && Budget(1e-3, 5) == 0.032 && Budget(1e-3, 4) == 0.016 && Budget(1e-3, 3) == 0.008
  {
    assert Budget(1e-3, 1) == 0.002 && Budget(1e-3, 2) == 0.004;
    assert Budget(1e-3, 3) == 0.008;
    assert Budget(1e-3, 4) == 0.016;
    assert Budget(1e-3, 5) == 0.032;
    assert Budget(1e-3, 6) == 0.064;
    assert Budget(1e-3, 7) == 0.128;
    assert Budget(1e-3, 8) == 0.256;
  }

  lemma NineHalvings()
    ensures BisectionSteps(1.0 - MU_MIN, 1e-3) == 9
  {
    Budgets();
    StepsBetween(1.0 - MU_MIN, 1e-3, 9);
  }

  // Where a trial point lands: t is the truncation 0.1 (b - a)^2, m the centre.

  /** The root is so near the centre that the centre is tried. */
  lemma LandsOnCentre(a: real, b: real, z: real, r: real, t: real, m: real)
    requires a < b && r >= 0.0 && t == 0.1 * ((b - a) * (b - a)) && m == 0.5 * (a + b) && Abs(m - z) <= t
    ensures Projected(a, b, z, r) == m
  {
  }

  /** It is so far above the centre that the trial point is cut back to the reach. */
  lemma LandsAbove(a: real, b: real, z: real, r: real, t: real, m: real)
    requires a < b && r >= 0.0 && t == 0.1 * ((b - a) * (b - a)) >= 0.0 && m == 0.5 * (a + b) && z - m - t > r
    ensures Projected(a, b, z, r) == m + r
  {
  }

  lemma LandsBelow(a: real, b: real, z: real, r: real, t: real, m: real)
    requires a < b && r >= 0.0 && t == 0.1 * ((b - a) * (b - a)) >= 0.0 && m == 0.5 * (a + b) && m - z - t > r
    ensures Projected(a, b, z, r) == m - r
  {
  }

  /** It is in between: the trial point is the root moved by t towards the centre. */
  lemma LandsNearRoot(a: real, b: real, z: real, r: real, t: real, m: real)
    requires a < b && r >= 0.0 && t == 0.1 * ((b - a) * (b - a)) >= 0.0 && m == 0.5 * (a + b)
    requires 0.0 < Abs(m - z) && t <= Abs(m - z) <= r + t
    ensures Projected(a, b, z, r) == if m > z then z + t else z - t
  {
  }

  const HALF: real := 0.50000000000000005

  /** The first four steps. */
  lemma FirstSteps(f: real --> real, s: real, z: real, limit: nat) returns (x: real)
    requires Line(f, s, z) && limit >= 9 && 0.4462 <= z <= 0.4482
    ensures x == z - 0.1 * Sq(HALF - 0.3840000000000001)
    ensures Continues(f, On(s, MU_MIN, 1.0), 9, limit, On(s, x, HALF), 5, limit - 4)
  {
    hide *;
    Budgets();
    x := FirstTrials(z);
    var a3, a4 := 0.2560000000000001, 0.3840000000000001;
    LinearStep(f, s, z, MU_MIN, 1.0, 9, limit, 0.512, HALF, On(s, MU_MIN, HALF));
    LinearStep(f, s, z, MU_MIN, HALF, 8, limit - 1, 0.256, a3, On(s, a3, HALF));
    LinearStep(f, s, z, a3, HALF, 7, limit - 2, 0.128, a4, On(s, a4, HALF));
    LinearStep(f, s, z, a4, HALF, 6, limit - 3, 0.064, x, On(s, x, HALF));
    Onward(f, On(s, MU_MIN, 1.0), 9, limit, On(s, MU_MIN, HALF), 8, limit - 1, On(s, a3, HALF), 7, limit - 2);
    Onward(f, On(s, MU_MIN, 1.0), 9, limit, On(s, a3, HALF), 7, limit - 2, On(s, a4, HALF), 6, limit - 3);
    Onward(f, On(s, MU_MIN, 1.0), 9, limit, On(s, a4, HALF), 6, limit - 3, On(s, x, HALF), 5, limit - 4);
  }

  lemma FirstTrials(z: real) returns (x: real)
    requires 0.4462 <= z <= 0.4482
    ensures x == z - 0.1 * Sq(HALF - 0.3840000000000001) && x < z < HALF && MU_MIN == 1e-16 && HALF == 0.50000000000000005
    ensures Projected(MU_MIN, 1.0, z, 0.512 - 0.5 * (1.0 - MU_MIN)) == HALF
    ensures Projected(MU_MIN, HALF, z, 0.256 - 0.5 * (HALF - MU_MIN)) == 0.2560000000000001
    ensures Projected(0.2560000000000001, HALF, z, 0.128 - 0.5 * (HALF - 0.2560000000000001)) == 0.3840000000000001
    ensures Projected(0.3840000000000001, HALF, z, 0.064 - 0.5 * (HALF - 0.3840000000000001)) == x
  {
    hide Projected;
    var a3, a4 := 0.2560000000000001, 0.3840000000000001;
    LandsOnCentre(MU_MIN, 1.0, z, 0.512 - 0.5 * (1.0 - MU_MIN), 0.1 * ((1.0 - MU_MIN) * (1.0 - MU_MIN)), HALF);
    LandsAbove(MU_MIN, HALF, z, 0.256 - 0.5 * (HALF - MU_MIN), 0.1 * ((HALF - MU_MIN) * (HALF - MU_MIN)),
               0.5 * (MU_MIN + HALF));
    LandsAbove(a3, HALF, z, 0.128 - 0.5 * (HALF - a3), 0.1 * ((HALF - a3) * (HALF - a3)), 0.5 * (a3 + HALF));
    LandsNearRoot(a4, HALF, z, 0.064 - 0.5 * (HALF - a4), 0.1 * ((HALF - a4) * (HALF - a4)), 0.5 * (a4 + HALF));
    x := z - 0.1 * ((HALF - a4) * (HALF - a4));
  }

  /** The last three. */
  lemma LastSteps(f: real --> real, s: real, z: real, limit: nat, x: real) returns (b7: real)
    requires Line(f, s, z) && limit >= 5 && 0.4462 <= z <= 0.4482 && x == z - 0.1 * Sq(HALF - 0.3840000000000001)
    ensures Continues(f, On(s, x, HALF), 5, limit, On(s, x, b7), 2, limit - 3)
    ensures x < b7 <= x + 0.002 && 0.0 < 0.5 * (x + b7) <= z - 0.00066
  {
    hide *;
    Budgets();
    var b5, b6 := 0.46800000000000005, 0.45200000000000005;
    b7 := LastTrials(z, x);
    LinearStep(f, s, z, x, HALF, 5, limit, 0.032, b5, On(s, x, b5));
    LinearStep(f, s, z, x, b5, 4, limit - 1, 0.016, b6, On(s, x, b6));
    LinearStep(f, s, z, x, b6, 3, limit - 2, 0.008, b7, On(s, x, b7));
    Onward(f, On(s, x, HALF), 5, limit, On(s, x, b5), 4, limit - 1, On(s, x, b6), 3, limit - 2);
    Onward(f, On(s, x, HALF), 5, limit, On(s, x, b6), 3, limit - 2, On(s, x, b7), 2, limit - 3);
  }

  lemma LastTrials(z: real, x: real) returns (b7: real)
    requires 0.4462 <= z <= 0.4482 && x == z - 0.1 * Sq(HALF - 0.3840000000000001)
    ensures HALF == 0.50000000000000005 && 0.0013455 < z - x < 0.0013456 && z < b7 < z + 0.00001
    ensures Projected(x, HALF, z, 0.032 - 0.5 * (HALF - x)) == 0.46800000000000005
    ensures Projected(x, 0.46800000000000005, z, 0.016 - 0.5 * (0.46800000000000005 - x)) == 0.45200000000000005
    ensures Projected(x, 0.45200000000000005, z, 0.008 - 0.5 * (0.45200000000000005 - x)) == b7
  {
    hide Projected, Sq;
    OffsetRange(x, z);
    var b5, b6 := 0.46800000000000005, 0.45200000000000005;
    var t5, t6, t7 := 0.1 * ((HALF - x) * (HALF - x)), 0.1 * ((b5 - x) * (b5 - x)), 0.1 * ((b6 - x) * (b6 - x));
    TruncationRange(HALF - x, 0.06, t5);
    TruncationRange(b5 - x, 0.025, t6);
    TruncationRange(b6 - x, 0.008, t7);
    LandsBelow(x, HALF, z, 0.032 - 0.5 * (HALF - x), t5, 0.5 * (x + HALF));
    LandsBelow(x, b5, z, 0.016 - 0.5 * (b5 - x), t6, 0.5 * (x + b5));
    LandsNearRoot(x, b6, z, 0.008 - 0.5 * (b6 - x), t7, 0.5 * (x + b6));
    b7 := z + t7;
  }

  lemma OffsetRange(x: real, z: real)
    requires x == z - 0.1 * Sq(HALF - 0.3840000000000001)
    ensures 0.0013455 < z - x < 0.0013456
  {
  }

  lemma TruncationRange(w: real, most: real, t: real)
    requires 0.0 < w <= most <= 1.0 && t == 0.1 * (w * w)
    ensures 0.0 < t <= 0.1 * (most * most)
  {
    var w2 := w * w;
    SquareIsPos(w, w2);
    SquareOrder(w, most);
  }

  // ---------------------------------------------------------------------------------------------
  // The bound of the search, for r^2 about 4 and no field.

  /** No field, h0 = 1, and r^2 within half a percent of four. */
  predicate NearFour(p: Problem) {
    p.bsq == 0.0 && p.rbsq == 0.0 && p.h0 == 1.0 && 3.98 <= p.rsq <= 4.02
  }

  /** z = 1 / sqrt(1 + r^2) is the root of aux_func. */
  lemma AuxLine(p: Problem) returns (s: real, z: real)
    requires IsSqrt(p.env.sqrt) && NearFour(p)
    ensures Line(AuxOf(p), s, z) && 0.4462 <= z <= 0.4482 && Prod(Sq(z), 1.0 + p.rsq) == 1.0
  {
    hide IsSqrt, Problem.Aux, Rise;
    s := p.env.sqrt(1.0 + p.rsq);
    RootOf(p.env.sqrt, 1.0 + p.rsq);
    SquareOrder(2.23159, s);
    SquareOrder(s, 2.24055);
    z := 1.0 / s;
    DivMul(1.0, s);
    DivLe(1.0, s, 0.4482);
    DivLe(1.0, s, 0.4462);
    assert Sq(z) * (s * s) == (z * s) * (z * s);
    forall mu ensures AuxOf(p)(mu) == Rise(s, mu) { AuxIs(p, mu, s); }
  }

  lemma AuxIs(p: Problem, mu: real, s: real)
    requires p.bsq == 0.0 && p.rbsq == 0.0 && p.h0 == 1.0 && s == p.env.sqrt(1.0 + p.rsq)
    ensures p.Aux(mu) == Rise(s, mu)
  {
    assert p.X(mu) == 1.0;
    assert p.RbarSq(mu, 1.0) == p.rsq;
    assert 1.0 * 1.0 + p.rsq == 1.0 + p.rsq;
  }

  /** The bound of the search: ITP leaves it short of the root of aux_func by more than 6e-4. */
  lemma BoundShort(p: Problem) returns (z: real)
    requires IsSqrt(p.env.sqrt) && NearFour(p)
    ensures Searchable(p) && BoundOf(p).Root? && 0.0 < BoundOf(p).x <= z - 0.00066
    ensures 0.4462 <= z <= 0.4482 && Prod(Sq(z), 1.0 + p.rsq) == 1.0
  {
    hide *;
    NearParts(p);
    var s;
    s, z := AuxLine(p);
    AuxSearches(p);
    LineAt(AuxOf(p), s, z, MU_MIN);
    LineAt(AuxOf(p), s, z, 1.0);
    AuxOfIs(p, MU_MIN);
    AuxOfIs(p, 1.0);
    OnIs(s, MU_MIN, 1.0);
    LineEnd(p, s, z);
  }

  lemma NearParts(p: Problem)
    requires NearFour(p)
    ensures Searchable(p) && p.h0 == 1.0 && 1.0 / p.h0 == 1.0 && 0.0 < p.h0 <= 1.0 / MU_MIN
    ensures MU_MIN <= 1.0 ==> Searches(AuxOf(p), MU_MIN, 1.0, 1e-3, -1.0) ==>
              BoundOf(p) == ItpResult(AuxOf(p), MU_MIN, 1.0, 1e-3, MAX_PASSES, -1.0)
  {
    hide ItpResult, Searches, Problem.Aux;
  }

  lemma AuxOfIs(p: Problem, mu: real)
    ensures AuxOf(p)(mu) == p.Aux(mu)
  {
    hide Problem.Aux;
  }

  lemma LineEnd(p: Problem, s: real, z: real)
    requires p.h0 == 1.0 && MU_MIN <= 1.0 && Line(AuxOf(p), s, z) && 0.4462 <= z <= 0.4482
    requires Searches(AuxOf(p), MU_MIN, 1.0, 1e-3, -1.0) && Refine(AuxOf(p), -1.0, MU_MIN, 1.0) == On(s, MU_MIN, 1.0)
    ensures var r := ItpResult(AuxOf(p), MU_MIN, 1.0, 1e-3, MAX_PASSES, -1.0); r.Root? && 0.0 < r.x <= z - 0.00066
  {
    hide *;
    var f, g := AuxOf(p), On(s, MU_MIN, 1.0);
    NineHalvings();
    LineSigns(f, s, z);
    var x := FirstSteps(f, s, z, MAX_PASSES);
    var b := LastSteps(f, s, z, MAX_PASSES - 4, x);
    Onward(f, g, 9, MAX_PASSES, On(s, x, HALF), 5, MAX_PASSES - 4, On(s, x, b), 2, MAX_PASSES - 7);
    OnIs(s, x, b);
    Stops(f, g, On(s, x, b));
    ResultIs(f, g);
  }

  lemma Stops(f: real --> real, g: Bracket, u: Bracket)
    requires Continues(f, g, 9, MAX_PASSES, u, 2, MAX_PASSES - 7) && u.b - u.a <= 0.002
    ensures ItpState(f, g, 1e-3, 9) && ItpRun(f, 1.0, g, 1e-3, 9, MAX_PASSES) == u
  {
    hide ItpRun, ItpState;
    ItpRunUnfold(f, 1.0, u, 1e-3, 2, MAX_PASSES - 7);
  }

  lemma ResultIs(f: real --> real, g: Bracket)
    requires MU_MIN <= 1.0 && Searches(f, MU_MIN, 1.0, 1e-3, -1.0) && Refine(f, -1.0, MU_MIN, 1.0) == g
    requires BisectionSteps(1.0 - MU_MIN, 1e-3) == 9 && g.ya < 0.0 < g.yb && ItpStart(g) == g
    requires ItpState(f, g, 1e-3, 9)
    ensures var u := ItpRun(f, 1.0, g, 1e-3, 9, MAX_PASSES);
            ItpResult(f, MU_MIN, 1.0, 1e-3, MAX_PASSES, -1.0) == Root(0.5 * (u.a + u.b))
  {
    hide ItpRun, BisectionSteps, Refine, ItpState, Searches, ItpStart;
  }

  lemma LineSigns(f: real --> real, s: real, z: real)
    requires Line(f, s, z) && 0.4462 <= z <= 0.4482
    ensures On(s, MU_MIN, 1.0).ya < 0.0 < On(s, MU_MIN, 1.0).yb && MU_MIN == 1e-16 && MAX_PASSES == 0x7fff_ffff
    ensures ItpStart(On(s, MU_MIN, 1.0)) == On(s, MU_MIN, 1.0)
  {
    hide Rise;
    LinearSign(s, z, MU_MIN);
    LinearSign(s, z, 1.0);
  }

  // ---------------------------------------------------------------------------------------------
  // The two results.

  /** The bound stays below the root: b^2 (h^2 + r^2) < 1 == mu^2 (h^2 + r^2). */
  lemma BoundBelowRoot(b: real, z: real, rsq: real, h: real, W: real, mu: real)
    requires 0.0 < b <= z - 0.00066 && 0.4462 <= z <= 0.4482 && Prod(Sq(z), 1.0 + rsq) == 1.0 && rsq >= 3.98
    requires Sq(h) <= 1.01 && rsq == Prod(Sq(h), Sq(W) - 1.0) && mu > 0.0 && Prod(mu, Prod(h, W)) == 1.0
    ensures b < mu
  {
    hide *;
    SquareShort(b, z);
    SqNonneg(b);
    SqNonneg(h);
    TimesMomentum(Sq(b), Sq(z), rsq, Sq(h));
    MomentumScale(h, W, rsq, mu);
    if mu <= b {
      SqOrder(mu, b);
      ProdOrder(Sq(mu), Sq(b), Sq(h) + rsq);
    }
  }

  lemma SquareShort(b: real, z: real)
    requires 0.0 < b <= z - 0.00066 && 0.4462 <= z <= 0.4482
    ensures Sq(b) <= Sq(z) - 0.00058 && Sq(z) <= 0.2009
  {
    var y := z - 0.00066;
    SquareOrder(b, y);
    SquareOrder(z, 0.4482);
    assert Sq(y) == Sq(z) - 0.00132 * z + 0.00066 * 0.00066;
  }

  lemma TimesMomentum(b2: real, z2: real, rsq: real, h2: real)
    requires 0.0 <= b2 <= z2 - 0.00058 && z2 <= 0.2009 && Prod(z2, 1.0 + rsq) == 1.0 && h2 <= 1.01 && rsq >= 3.98
    ensures Prod(b2, h2 + rsq) < 1.0
  {
    hide *;
    ProdOrder(b2, z2 - 0.00058, 1.0 + rsq);
    ProdMono(b2, h2 - 1.0, 0.01);
    MomentumParts(b2, z2, rsq, h2);
  }

  lemma MomentumParts(b2: real, z2: real, rsq: real, h2: real)
    ensures Prod(b2, h2 + rsq) == Prod(b2, 1.0 + rsq) + Prod(b2, h2 - 1.0) && Prod(b2, 0.01) == 0.01 * b2
    ensures Prod(z2 - 0.00058, 1.0 + rsq) == Prod(z2, 1.0 + rsq) - 0.00058 * (1.0 + rsq)
  {
  }

  lemma MomentumScale(h: real, W: real, rsq: real, mu: real)
    requires rsq == Prod(Sq(h), Sq(W) - 1.0) && Prod(mu, Prod(h, W)) == 1.0
    ensures Prod(Sq(mu), Sq(h) + rsq) == 1.0
  {
    var n := h * W;
    assert Sq(h) + rsq == Sq(n);
    assert Prod(Sq(mu), Sq(n)) == (mu * n) * (mu * n);
  }

  /** Specific enthalpy up to 1.004, and a momentum per mass of about two. */
  ghost predicate Stalled(q: Prim, W: real) {
    && q.rho > 0.0
    && var h := (q.rho + q.u + q.p) / q.rho;
    Sq(h) <= 1.01 && 3.98 <= Prod(Sq(h), Sq(W) - 1.0) <= 4.02
  }

  /** For every such state of every ideal gas, in every metric, the bound of the search lies below the true mu. */
  lemma StalledBeforeRoot(env: Env, g: Geom, q: Prim, gamma: real, ye: real, p: Problem, W: real, mu: real)
    requires Convertible(env, g, q, gamma, false, 1.0, ye) && g.gdet != 0.0
    requires W == LorentzFactor(env.sqrt, g.gcov, q.vp) && W > 0.0 && p == SetupFor(env, g, q, false, 1.0, ye).p
    requires q.rho + q.u + q.p > 0.0 && mu == TrueMu(q, W) && Stalled(q, W)
    ensures Searchable(p) && !Reaches(p, mu)
  {
    hide *;
    var s := SetupFor(env, g, q, false, 1.0, ye);
    ConvertibleParts(env, g, q, gamma, false, 1.0, ye, s);
    NoField(env, g, q, gamma, ye);
    StalledParts(q, W);
    var h := (q.rho + q.u + q.p) / q.rho;
    MomentumOf(env, g, q, 1.0, ye, W, s, h);
    NearIs(p);
    SqrtGood(p);
    var z := BoundShort(p);
    TrueMuIs(q, W, h, mu);
    BoundBelowRoot(BoundOf(p).x, z, p.rsq, h, W, mu);
    NotReached(p, mu);
  }

  lemma NoField(env: Env, g: Geom, q: Prim, gamma: real, ye: real)
    requires Convertible(env, g, q, gamma, false, 1.0, ye)
    ensures q.b == ZERO
  {
    hide Geom.Is3Plus1, Env.Admissible, Physical, GammaLaw, DenseSetup;
  }

  lemma StalledParts(q: Prim, W: real)
    requires Stalled(q, W)
    ensures q.rho > 0.0
    ensures var h := (q.rho + q.u + q.p) / q.rho; Sq(h) <= 1.01 && 3.98 <= Prod(Sq(h), Sq(W) - 1.0) <= 4.02
  {
    hide Sq, Prod;
  }

  lemma NearIs(p: Problem)
    ensures NearFour(p) <==> p.bsq == 0.0 && p.rbsq == 0.0 && p.h0 == 1.0 && 3.98 <= p.rsq <= 4.02
  {
  }

  lemma NotReached(p: Problem, mu: real)
    requires Searchable(p) && BoundOf(p).Root? && BoundOf(p).x < mu
    ensures !Reaches(p, mu)
  {
    hide BoundOf;
  }

  /** mu h W == 1 */
  lemma TrueMuIs(q: Prim, W: real, h: real, mu: real)
    requires q.rho > 0.0 && q.rho + q.u + q.p > 0.0 && W >= 1.0 && h == (q.rho + q.u + q.p) / q.rho && mu == TrueMu(q, W)
    ensures mu > 0.0 && Prod(mu, Prod(h, W)) == 1.0
  {
    var rho, e := q.rho, q.rho + q.u + q.p;
    var n, d := rho * W, e * W * W;
    MulPos(rho, W);
    MulPos(e, W);
    var eW := e * W;
    MulPos(eW, W);
    DivPos(n, d);
    DivMul(n, d);
    DivMul(e, rho);
    var t := mu * (h * W);
    assert t * n == mu * (h * rho) * W * W;
    assert mu * d == n;
    assert (t - 1.0) * n == 0.0;
  }

  /** p2c, then solve, on one cell with such a state: the run is stopped, whatever guess the cell holds and
      whatever the tolerance and the iteration limit are. */
  method StalledStopsTheRun(c: Cell, env: Env, g: Geom, q: Prim, gamma: real, ye: real, hasYe: bool, tol: real,
                            maxIter: nat, failOnFloors: bool, failOnCeilings: bool) returns (status: Status)
    requires Convertible(env, g, q, gamma, false, 1.0, ye) && Stalled(q, LorentzFactor(env.sqrt, g.gcov, q.vp))
    requires (!hasYe ==> ye == 0.5) && tol >= 0.0
    modifies c
    ensures status.Aborted?
  {
    hide *;
    ghost var p, root, passes;
    status, p, root, passes := ConvertAndRecover(c, env, g, q, gamma, false, hasYe, 1.0, ye, tol, maxIter, failOnFloors,
                                                 failOnCeilings);
    StalledBeforeRoot(env, g, q, gamma, ye, p, LorentzFactor(env.sqrt, g.gcov, q.vp), root);
  }

  /** Gas of specific enthalpy H that moves with r = 2 in flat space. */
  function WarmState(H: real): Prim
    requires H > 0.0
  {
    var eps := 0.75 * (H - 1.0);
    Prim(1.0, Vec(2.0 / H, 0.0, 0.0), ZERO, eps, Third(1.0, eps))
  }

  predicate Warm(H: real) { 1.0 + 2e-9 <= H <= 1.004 }

  /** It is such a state: no floor or ceiling binds and its enthalpy exceeds h0 = 1. */
  lemma WarmStalls(sqrt: real -> real, H: real, ye: real)
    requires IsSqrt(sqrt) && Warm(H)
    ensures H > 0.0 && Convertible(GasEnv(sqrt), FLAT, WarmState(H), 4.0 / 3.0, false, 1.0, ye)
    ensures Stalled(WarmState(H), LorentzFactor(sqrt, IDENTITY, WarmState(H).vp))
  {
    hide *;
    WarmPositive(H);
    var W, q := LorentzFactor(sqrt, IDENTITY, WarmState(H).vp), WarmState(H);
    FlatMetric();
    FlatParts();
    GasAdmissible(sqrt, ye);
    GasLaw(sqrt, ye);
    WarmLorentz(sqrt, H, W);
    WarmPhysical(sqrt, H, ye, W);
    WarmParts(H);
    WarmMomentum(H, W);
    WarmDense(sqrt, H, ye, W);
    ConvertibleIs(GasEnv(sqrt), FLAT, q, 4.0 / 3.0, ye);
    StalledIs(q, W, H);
  }

  lemma WarmPositive(H: real)
    requires Warm(H)
    ensures H > 1.0 && Sq(H) <= 1.01
  {
    SquareOrder(H, 1.004);
  }

  lemma FlatParts()
    ensures FLAT.gcov == IDENTITY && FLAT.gdet == 1.0
  {
  }

  lemma ConvertibleIs(env: Env, g: Geom, q: Prim, gamma: real, ye: real)
    requires g.Is3Plus1() && env.Admissible(1.0, ye) && q.b == ZERO && Physical(env, g, q, 1.0, ye)
    requires GammaLaw(env, gamma, ye) && DenseSetup(env, g, q, false, 1.0, ye)
    ensures Convertible(env, g, q, gamma, false, 1.0, ye)
  {
    hide Geom.Is3Plus1, Env.Admissible, Physical, GammaLaw, DenseSetup;
  }

  lemma StalledIs(q: Prim, W: real, H: real)
    requires q.rho == 1.0 && (q.rho + q.u + q.p) / q.rho == H && Sq(H) <= 1.01 && Prod(Sq(H), Sq(W) - 1.0) == 4.0
    ensures Stalled(q, W)
  {
    hide Sq, Prod;
  }

  lemma WarmParts(H: real)
    requires Warm(H)
    ensures H > 0.0
    ensures var q := WarmState(H); q.rho == 1.0 && q.b == ZERO && (q.rho + q.u + q.p) / q.rho == H && q.rho + q.u + q.p > 0.0
  {
  }

  lemma WarmLorentz(sqrt: real -> real, H: real, W: real)
    requires IsSqrt(sqrt) && H > 0.0 && W == LorentzFactor(sqrt, IDENTITY, WarmState(H).vp)
    ensures Sq(W) == 1.0 + Sq(2.0 / H) && W >= 0.0
  {
    hide Apply, Dot, IsSqrt;
    var y := 2.0 / H;
    var v := Vec(y, 0.0, 0.0);
    IdentityApplies(v);
    AxisNorm(y);
    SqNonneg(y);
    RootOf(sqrt, 1.0 + Sq(y));
  }

  lemma WarmMomentum(H: real, W: real)
    requires H > 0.0 && Sq(W) == 1.0 + Sq(2.0 / H)
    ensures Prod(Sq(H), Sq(W) - 1.0) == 4.0
  {
    var y := 2.0 / H;
    assert y * H == 2.0;
    assert Sq(H) * Sq(y) == (y * H) * (y * H);
  }

  lemma WarmPhysical(sqrt: real -> real, H: real, ye: real, W: real)
    requires Warm(H) && W == LorentzFactor(sqrt, IDENTITY, WarmState(H).vp) >= 0.0 && Sq(W) == 1.0 + Sq(2.0 / H)
    ensures Physical(GasEnv(sqrt), FLAT, WarmState(H), 1.0, ye) && 1.0 <= W <= 10.0
  {
    hide LorentzFactor, Env.SieFloor, Env.RhoFloor;
    WarmSpeed(H, W);
    GasFloors(sqrt, 1.0, ye);
  }

  lemma WarmSpeed(H: real, W: real)
    requires Warm(H) && W >= 0.0 && Sq(W) == 1.0 + Sq(2.0 / H)
    ensures 1.0 <= W <= 10.0
  {
    var y := 2.0 / H;
    DivLe(2.0, H, 2.0);
    DivNonneg(2.0, H);
    SquareOrder(y, 2.0);
    SquareOrder(1.0, W);
    SquareOrder(W, 10.0);
  }

  /** D = W, and the velocity cap is at most sqrt(0.8). */
  lemma WarmDense(sqrt: real -> real, H: real, ye: real, W: real)
    requires IsSqrt(sqrt) && Warm(H) && H > 0.0 && W == LorentzFactor(sqrt, IDENTITY, WarmState(H).vp) && W >= 1.0
    requires FLAT.Is3Plus1() && GasEnv(sqrt).Admissible(1.0, ye) && Physical(GasEnv(sqrt), FLAT, WarmState(H), 1.0, ye)
    requires Prod(Sq(H), Sq(W) - 1.0) == 4.0 && FLAT.gcov == IDENTITY && FLAT.gdet == 1.0
    ensures DenseSetup(GasEnv(sqrt), FLAT, WarmState(H), false, 1.0, ye)
  {
    hide *;
    var env, q := GasEnv(sqrt), WarmState(H);
    EnvParts(sqrt);
    WarmParts(H);
    var s := SetupFor(env, FLAT, q, false, 1.0, ye);
    SetupForIs(env, FLAT, q, ye, s, W);
    MomentumOf(env, FLAT, q, 1.0, ye, W, s, H);
    SetupAdmissible(env, FLAT, Valencia(FLAT, q, W), false, 1.0, ye);
    SetupParts(env, FLAT, Valencia(FLAT, q, W), false, 1.0, ye);
    Defined(s.p);
    CapBelow(s.p);
    VelocityRange(s.p);
    var c := sqrt(1.0 - s.p.V0sq());
    RootOf(sqrt, 1.0 - s.p.V0sq());
    Fourtenths();
    SqOrder(0.4, c);
    DenseEnough(s.p, W, c);
    DenseSetupIs(env, q, ye, s);
  }

  lemma EnvParts(sqrt: real -> real)
    ensures GasEnv(sqrt).sqrt == sqrt
  {
  }

  lemma SetupForIs(env: Env, g: Geom, q: Prim, ye: real, s: Setup, W: real)
    requires g.gdet != 0.0 && W == LorentzFactor(env.sqrt, g.gcov, q.vp) && W > 0.0
    requires s == SetupFor(env, g, q, false, 1.0, ye)
    ensures s == SetupOf(env, g, Valencia(g, q, W), false, 1.0, ye)
  {
    hide LorentzFactor, SetupOf, Valencia;
  }

  lemma Fourtenths()
    ensures Sq(0.4) == 0.16
  {
  }

  lemma CapBelow(p: Problem)
    requires p.h0 == 1.0 && p.rsq == 4.0 && p.env.gamMax >= 1.0
    ensures p.V0sq() <= 0.8
  {
    hide LorentzCeiling;
    assert 4.0 / (1.0 * 1.0) == 4.0 && 4.0 / (1.0 + 4.0) == 0.8;
    assert KinematicSpeed(4.0, 1.0) == 0.8;
  }

  lemma DenseEnough(p: Problem, W: real, c: real)
    requires p.h0 > 0.0 && p.rsq >= 0.0 && p.env.gamMax >= 1.0 && c == p.env.sqrt(1.0 - p.V0sq())
    requires p.D == Prod(1.0, W) && W >= 1.0 && c >= 0.4
    ensures Dense(p)
  {
    hide VelocityBound, Env.RhoFloor;
    MulMono(1.0, W, c);
  }

  lemma DenseSetupIs(env: Env, q: Prim, ye: real, s: Setup)
    requires FLAT.gdet == 1.0 && LorentzFactor(env.sqrt, FLAT.gcov, q.vp) > 0.0 && s == SetupFor(env, FLAT, q, false, 1.0, ye)
    requires Dense(s.p)
    ensures DenseSetup(env, FLAT, q, false, 1.0, ye)
  {
    hide LorentzFactor, SetupFor, Dense;
  }

  function RestState(rho: real, eps: real): Prim { Prim(rho, ZERO, ZERO, Prod(rho, eps), Third(rho, eps)) }

  /** Gas at rest so tenuous that rho (1 + eps) is below the guard. */
  predicate Tenuous(rho: real, eps: real) {
    rho > RHO_FLOOR && SIE_FLOOR < eps <= 10.0 && rho * (1.0 + eps) < EPS
  }

  /** It is physical, its pressure is not zero, and its true mu is not a root of the residual. */
  lemma TenuousGasMissesItsRoot(sqrt: real -> real, rho: real, eps: real, ye: real)
    requires IsSqrt(sqrt) && Tenuous(rho, eps)
    ensures Physical(GasEnv(sqrt), FLAT, RestState(rho, eps), 1.0, ye) && RestState(rho, eps).p > 0.0
    ensures MissesRoot(GasEnv(sqrt), FLAT, RestState(rho, eps), 1.0, ye)
  {
    hide *;
    var q := RestState(rho, eps);
    FlatMetric();
    GasAdmissible(sqrt, ye);
    RestPhysical(sqrt, rho, eps, ye);
    NoFieldAtRest(rho, eps);
    RecoveryInvertsP2C(GasEnv(sqrt), FLAT, q, false, 1.0, ye);
    GeomPositive(FLAT);
    var W := LorentzFactor(GasEnv(sqrt).sqrt, FLAT.gcov, q.vp);
    InvertsSays(SetupOf(GasEnv(sqrt), FLAT, Valencia(FLAT, q, W), false, 1.0, ye), TrueMu(q, W), q);
    MissesIs(GasEnv(sqrt), FLAT, q, 1.0, ye, W);
  }

  /** p2c of q, without a field, leads to a search in which mu = 1 / (h W) is not a root. */
  ghost predicate MissesRoot(env: Env, g: Geom, q: Prim, h0: real, ye: real) {
    var W := LorentzFactor(env.sqrt, g.gcov, q.vp);
    && W >= 1.0 && q.rho + q.u + q.p > 0.0 && g.gdet != 0.0
    && var s := SetupOf(env, g, Valencia(g, q, W), false, h0, ye);
    && s.p.Admissible() && TrueMu(q, W) >= 0.0 && s.p.Value(TrueMu(q, W)) != 0.0
  }

  lemma MissesIs(env: Env, g: Geom, q: Prim, h0: real, ye: real, W: real)
    requires W == LorentzFactor(env.sqrt, g.gcov, q.vp) && W >= 1.0 && q.rho + q.u + q.p > 0.0 && g.Is3Plus1()
    requires var s := SetupOf(env, g, Valencia(g, q, W), false, h0, ye);
             s.p.Admissible() && TrueMu(q, W) >= 0.0 && s.p.Value(TrueMu(q, W)) != 0.0
    ensures MissesRoot(env, g, q, h0, ye)
  {
    hide LorentzFactor, SetupOf, Valencia, Problem.Admissible, Problem.Value, TrueMu, IsMetric, Apply;
  }

  lemma NoFieldAtRest(rho: real, eps: real)
    requires Tenuous(rho, eps)
    ensures var q := RestState(rho, eps); q.b == ZERO && q.rho + q.u < EPS && q.p > 0.0
  {
    MulPos(rho, eps);
  }

  lemma RestPhysical(sqrt: real -> real, rho: real, eps: real, ye: real)
    requires IsSqrt(sqrt) && Tenuous(rho, eps)
    ensures Physical(GasEnv(sqrt), FLAT, RestState(rho, eps), 1.0, ye)
  {
    hide LorentzFactor, IsSqrt, Env.SieFloor, Env.RhoFloor;
    RestLorentz(sqrt, IDENTITY);
    GasFloors(sqrt, rho, ye);
    DivIs(rho * eps, rho, eps);
    MulPos(rho, eps);
  }

  lemma RestLorentz(sqrt: real -> real, m: Mat)
    requires IsSqrt(sqrt)
    ensures LorentzFactor(sqrt, m, ZERO) == 1.0
  {
    hide Apply, Dot, IsSqrt;
    ZeroDot(Apply(m, ZERO));
    SqrtOfSquare(sqrt, 1.0);
    assert 1.0 * 1.0 == 1.0;
  }

  lemma InvertsSays(s: Setup, mu: real, q: Prim)
    requires Inverts(s, mu, q)
    ensures s.p.Admissible() && mu > 0.0 && (s.p.Value(mu) == 0.0 <==> q.rho + q.u >= EPS || q.p == 0.0)
  {
    hide Problem.Admissible, Problem.Aux, Problem.State, Problem.Value, Unwrap, Returns;
  }

  /** Such gas exists: rho = 1e-16 and eps = 1. */
  lemma TenuousGasExists()
    ensures Tenuous(1e-16, 1.0)
  {
  }

  // ---------------------------------------------------------------------------------------------
  // A capped velocity: r = 100, tried at mu = 0.00999 with a Lorentz ceiling of 10.

  function FastSetup(sqrt: real -> real, q: real, ye: real): Setup {
    Setup(Problem(1.0, q, 0.0, 0.0, 10000.0, 0.0, 1.0, ye, GasEnv(sqrt)), Vec(100.0, 0.0, 0.0), 0.0, ZERO)
  }

  /** Inside the search interval the cap acts, and the velocity that is stored is faster than the state. */
  lemma CappedIsFaster(sqrt: real -> real, q: real, ye: real)
    requires IsSqrt(sqrt)
    ensures var s, mu := FastSetup(sqrt, q, ye), 0.00999;
            && s.p.Admissible() && s.p.Aux(mu) <= 0.0
            && var h := s.p.State(mu);
            h.flags.gammaMax && LorentzFactor(sqrt, IDENTITY, StoredVelocity(s, mu, h)) > h.W
  {
    hide *;
    var s, mu := FastSetup(sqrt, q, ye), 0.00999;
    FastParts(sqrt, q, ye, s);
    FlatMetric();
    FlatParts();
    GasAdmissible(sqrt, ye);
    AdmissibleIs(s.p);
    FastConsistent(s);
    Defined(s.p);
    StateFields(s.p, mu, s.p.State(mu));
    FastFields(s.p, mu);
    FastTrial();
    AuxSquared(s.p, mu, 10000.0);
    KinematicCapInactive(s.p, mu);
    StoredLorentz(FLAT, s, mu);
  }

  lemma FastParts(sqrt: real -> real, q: real, ye: real, s: Setup)
    requires s == FastSetup(sqrt, q, ye)
    ensures s.p.env == GasEnv(sqrt) && s.p.env.sqrt == sqrt && s.p.ye == ye && s.p.env.gamMax == 10.0 && s.bdotr == 0.0
    ensures s.p.bsq == 0.0 && s.p.rbsq == 0.0 && s.p.rsq == 10000.0 && s.p.h0 == 1.0
    ensures s.rcon == Vec(100.0, 0.0, 0.0) && s.bu == ZERO
  {
  }

  lemma AdmissibleIs(p: Problem)
    requires p.env.Admissible(p.h0, p.ye) && p.bsq == 0.0 && p.rbsq == 0.0 && p.rsq == 10000.0
    ensures p.Admissible()
  {
    hide Env.Admissible;
  }

  lemma FastConsistent(s: Setup)
    requires s.bdotr == 0.0 && s.p.bsq == 0.0 && s.p.rbsq == 0.0 && s.p.rsq == 10000.0
    requires s.rcon == Vec(100.0, 0.0, 0.0) && s.bu == ZERO
    ensures Consistent(FLAT, s)
  {
    hide Apply, Dot;
    IdentityApplies(s.rcon);
    AxisNorm(100.0);
    NoFieldProducts(IDENTITY, s.rcon);
  }

  lemma FastFields(p: Problem, mu: real)
    requires p.bsq == 0.0 && p.rbsq == 0.0 && p.rsq == 10000.0
    ensures p.RbarSq(mu, p.X(mu)) == 10000.0
  {
    assert p.X(mu) == 1.0;
  }

  lemma FastTrial()
    ensures VsqTrial(0.00999, 10000.0) == 0.998001 && LorentzCeiling(10.0) == 0.99
    ensures Sq(Prod(0.00999, 1.0)) <= 1.0 - 0.998001
  {
    assert 0.00999 * 0.00999 * 10000.0 == 0.998001;
    assert 1.0 / (10.0 * 10.0) == 0.01;
  }
}
