/** The temperature bisection of the Bondi problem generator: for an arbitrary temperature function, and on
    the one that the accretion solution uses. */
module Bondi {
  import opened Reals
  import opened RootFind

  const RTOL: real := 1e-12
  const FTOL: real := 1e-14

  datatype Temperature = Failed | Found(T: real)

  /** p is not zero and q does not have its sign. */
  predicate Opposite(p: real, q: real) {
    (p < 0.0 && q >= 0.0) || (p > 0.0 && q <= 0.0)
  }

  /** The interval searched: below the guess inside the critical radius, above it outside. */
  function Lowest(guess: real, inside: bool): real { if inside then 0.1 * guess else guess }

  function Highest(guess: real, inside: bool): real { if inside then guess else 10.0 * guess }

  /** How often an interval can be halved before it is narrower than RTOL of its least temperature. */
  function Halvings(width: real, least: real): nat
    requires least > 0.0
  {
    var x := width / (RTOL * least);
    if x > 1.0 then CeilLog2(x) else 0
  }

  lemma {:induction false} Pow2Monotone(m: nat, n: nat)
    requires m <= n
    ensures Pow2(m) <= Pow2(n)
  {
    if m < n { Pow2Monotone(m, n - 1); }
  }

  /** While the loop runs, fewer halvings have been made than fit. */
  lemma MoreHalvings(width: real, least: real, gap: real, T: real, k: nat)
    requires least > 0.0 && gap * Pow2(k) == width && T >= least && gap / T > RTOL
    ensures k < Halvings(width, least)
  {
    hide CeilLog2, Pow2;
    var unit := RTOL * least;
    var x := width / unit;
    DivMul(width, unit);
    GapAboveUnit(gap, T, least, unit);
    Pow2Monotone(0, k);
    PowZero(1.0);
    MulMonoStrict(unit, gap, Pow2(k));
    CompareByFactor(Pow2(k), x, unit);
    var n := CeilLog2(x);
    if n <= k { Pow2Monotone(n, k); }
  }

  lemma GapAboveUnit(gap: real, T: real, least: real, unit: real)
    requires least > 0.0 && T >= least && gap / T > RTOL && unit == RTOL * least
    ensures gap > unit
  {
    DivLe(gap, T, RTOL);
    MulMono(least, T, RTOL);
  }

  lemma CompareByFactor(a: real, b: real, u: real)
    requires u > 0.0 && a * u < b * u
    ensures a < b
  {
    if b <= a { MulMono(b, a, u); }
  }

  /** An interval of temperatures. */
  datatype Span = Span(lo: real, hi: real) {
    function Mid(): real { 0.5 * (lo + hi) }
  }

  type Interval = s: Span | 0.0 < s.lo < s.hi witness Span(1.0, 2.0)

  /** The loop makes a pass. */
  predicate Due(f: real -> real, s: Interval) {
    (s.hi - s.lo) / s.Mid() > RTOL && Abs(f(s.Mid())) > FTOL
  }

  /** One pass: the half whose ends have opposite signs, or the upper half when there is none. */
  function Pass(f: real -> real, s: Interval): Interval {
    if SameSign(f(s.Mid()), -f(s.lo)) then Span(s.lo, s.Mid()) else Span(s.Mid(), s.hi)
  }

  /** k passes. */
  function Run(f: real -> real, s: Interval, k: nat): Interval {
    if k == 0 then s else Pass(f, Run(f, s, k - 1))
  }

  ghost predicate AllDue(f: real -> real, s: Interval, k: nat) {
    forall j: nat :: j < k ==> Due(f, Run(f, s, j))
  }

  /** The loop ends after k passes. */
  ghost predicate Ends(f: real -> real, s: Interval, k: nat) {
    AllDue(f, s, k) && !Due(f, Run(f, s, k))
  }

  /** s halved k times to u, with a sign change if there was one to keep. */
  ghost predicate Bracket(f: real -> real, s: Interval, u: Interval, k: nat) {
    && s.lo <= u.lo && u.hi <= s.hi
    && (u.hi - u.lo) * Pow2(k) == s.hi - s.lo && k <= Halvings(s.hi - s.lo, s.lo)
    && (f(s.lo) != 0.0 && !SameSign(f(s.lo), f(s.hi)) ==> Opposite(f(u.lo), f(u.hi)))
    && (f(s.lo) != 0.0 && Opposite(f(s.lo), f(s.hi)) && f(s.hi) != 0.0 ==> f(u.hi) != 0.0)
  }

  function Start(guess: real, inside: bool): Interval
    requires guess > 0.0
  {
    Span(Lowest(guess, inside), Highest(guess, inside))
  }

  /** The search on s ends after k passes at T, the midpoint of the interval they lead to, where either the
      function is within FTOL of zero or the interval no wider than RTOL of T. The interval still holds a sign
      change if the function was not zero at the low end; when it was, exactly if LowRootKept. */
  ghost predicate EndsAt(f: real -> real, s: Interval, k: nat, T: real) {
    var u := Run(f, s, k);
    && Ends(f, s, k) && Bracket(f, s, u, k) && T == u.Mid()
    && (f(s.lo) == 0.0 != f(s.hi) ==> (SameSign(f(u.lo), f(u.hi)) <==> !LowRootKept(f, s)))
  }

  /** It fails exactly on a strict equality of signs at the two ends. Otherwise, for every function, it
      stops, within the halvings that fit. */
  method GetTemperature(f: real -> real, guess: real, inside: bool) returns (r: Temperature)
    requires guess > 0.0
    ensures var s := Start(guess, inside);
            && (r.Failed? <==> SameSign(f(s.lo), f(s.hi)))
            && (r.Found? ==> exists k: nat :: EndsAt(f, s, k, r.T))
  {
    hide *;
    ghost var s := Start(guess, inside);
    StartIs(guess, inside);
    var T0, T1 := Lowest(guess, inside), Highest(guess, inside);
    var f0, f1 := f(T0), f(T1);
    ghost var k := 0;
    SameSignIs(f0, f1);
    if f0 * f1 > 0.0 {
      return Failed;
    }
    var Th := 0.5 * (T0 + T1);
    var fh := f(Th);
    RunStarts(f, s);
    while (T1 - T0) / Th > RTOL && Abs(fh) > FTOL
      invariant 0.0 < T0 < T1 && Th > 0.0 && Th == 0.5 * (T0 + T1)
      invariant f0 == f(T0) && f1 == f(T1) && fh == f(Th)
      invariant Span(T0, T1) == Run(f, s, k) && AllDue(f, s, k) && Bracket(f, s, Span(T0, T1), k)
      decreases Halvings(s.hi - s.lo, s.lo) - k
    {
      DueIs(f, Span(T0, T1));
      BracketStep(f, s, Span(T0, T1), k);
      RunStep(f, s, k);
      PassIs(f, Span(T0, T1));
      if fh * f0 < 0.0 {
        T1, f1 := Th, fh;
      } else {
        T0, f0 := Th, fh;
      }
      Th := 0.5 * (T0 + T1);
      fh := f(Th);
      k := k + 1;
    }
    DueIs(f, Span(T0, T1));
    EndsIs(f, s, k);
    if f(s.lo) == 0.0 && f(s.hi) != 0.0 { LowRootSurvives(f, s, k); }
    MidIs(Span(T0, T1));
    EndsAtIs(f, s, k, Th);
    r := Found(Th);
  }

  lemma EndsAtIs(f: real -> real, s: Interval, k: nat, T: real)
    ensures EndsAt(f, s, k, T) <==>
            && Ends(f, s, k) && Bracket(f, s, Run(f, s, k), k) && T == Run(f, s, k).Mid()
            && (f(s.lo) == 0.0 != f(s.hi) ==> (SameSign(f(Run(f, s, k).lo), f(Run(f, s, k).hi)) <==> !LowRootKept(f, s)))
  {
    hide Ends, Bracket, Run, LowRootKept;
  }

  lemma StartIs(guess: real, inside: bool)
    requires guess > 0.0
    ensures 0.0 < Lowest(guess, inside) < Highest(guess, inside)
    ensures Start(guess, inside).lo == Lowest(guess, inside) && Start(guess, inside).hi == Highest(guess, inside)
  {
  }

  lemma StartSpan(guess: real, inside: bool)
    requires guess > 0.0
    ensures Start(guess, inside) == if inside then Span(0.1 * guess, guess) else Span(guess, 10.0 * guess)
  {
  }

  lemma SameSignIs(p: real, q: real)
    ensures SameSign(p, q) <==> p * q > 0.0
  {
  }

  lemma MidIs(s: Interval)
    ensures s.Mid() == 0.5 * (s.lo + s.hi)
  {
  }

  lemma DueIs(f: real -> real, s: Interval)
    ensures s.Mid() == 0.5 * (s.lo + s.hi) > 0.0
    ensures Due(f, s) <==> (s.hi - s.lo) / s.Mid() > RTOL && Abs(f(s.Mid())) > FTOL
  {
  }

  lemma PassIs(f: real -> real, s: Interval)
    ensures s.lo < s.Mid() < s.hi
    ensures Pass(f, s) == if f(s.Mid()) * f(s.lo) < 0.0 then Span(s.lo, s.Mid()) else Span(s.Mid(), s.hi)
  {
    var fh, f0 := f(s.Mid()), f(s.lo);
    assert fh * -f0 == -(fh * f0);
  }

  lemma EndsIs(f: real -> real, s: Interval, k: nat)
    ensures Ends(f, s, k) <==> AllDue(f, s, k) && !Due(f, Run(f, s, k))
  {
    hide AllDue, Due, Run;
  }

  lemma RunStarts(f: real -> real, s: Interval)
    ensures Run(f, s, 0) == s && AllDue(f, s, 0) && Bracket(f, s, s, 0)
  {
    PowZero(s.hi - s.lo);
  }

  lemma RunStep(f: real -> real, s: Interval, k: nat)
    requires AllDue(f, s, k) && Due(f, Run(f, s, k))
    ensures Run(f, s, k + 1) == Pass(f, Run(f, s, k)) && AllDue(f, s, k + 1)
  {
    hide Due, Pass;
  }

  /** One halving. */
  lemma BracketStep(f: real -> real, s: Interval, u: Interval, k: nat)
    requires Bracket(f, s, u, k) && Due(f, u)
    ensures k < Halvings(s.hi - s.lo, s.lo) && Bracket(f, s, Pass(f, u), k + 1)
  {
    hide Halvings, Pow2;
    MoreHalvings(s.hi - s.lo, s.lo, u.hi - u.lo, u.Mid(), k);
    Halve(u.hi - u.lo, k);
  }

  lemma PowZero(w: real)
    ensures w * Pow2(0) == w
  {
  }

  lemma Halve(w: real, k: nat)
    ensures 0.5 * w * Pow2(k + 1) == w * Pow2(k)
  {
  }

  // ---------------------------------------------------------------------------------------------
  // A root at the low end.

  /** The low end after j passes that all went to the upper half. */
  function Walk(s: Interval, j: nat): (x: real)
    ensures s.lo <= x < s.hi
  {
    if j == 0 then s.lo else 0.5 * (Walk(s, j - 1) + s.hi)
  }

  /** Up to the j-th trial temperature the function has the sign it has at the high end. */
  ghost predicate NoTurn(f: real -> real, s: Interval, j: nat) {
    forall i: nat :: 1 <= i <= j ==> SameSign(f(Walk(s, i)), f(s.hi))
  }

  /** On its way up the search meets the other sign, at the j-th trial temperature first, and is not stopped
      before. */
  ghost predicate Turns(f: real -> real, s: Interval, j: nat) {
    && j > 0 && NoTurn(f, s, j - 1) && Opposite(f(s.hi), f(Walk(s, j)))
    && forall i: nat :: i < j ==> Due(f, Span(Walk(s, i), s.hi))
  }

  /** A condition to check before the call. */
  ghost predicate LowRootKept(f: real -> real, s: Interval) {
    !Due(f, s) || exists j: nat :: Turns(f, s, j)
  }

  /** While it meets one sign only, the search walks up. */
  lemma {:induction false} WalksUp(f: real -> real, s: Interval, k: nat)
    requires f(s.lo) == 0.0 && f(s.hi) != 0.0 && NoTurn(f, s, k)
    ensures Run(f, s, k) == Span(Walk(s, k), s.hi)
  {
    hide Due;
    if k > 0 { WalksUp(f, s, k - 1); }
  }

  /** Once it has met the other sign it keeps a sign change. */
  lemma {:induction false} TurnKept(f: real -> real, s: Interval, j: nat, k: nat)
    requires f(s.lo) == 0.0 && f(s.hi) != 0.0 && Turns(f, s, j) && j <= k && AllDue(f, s, k)
    ensures Opposite(f(Run(f, s, k).lo), f(Run(f, s, k).hi)) && f(Run(f, s, k).hi) != 0.0
  {
    var u := Run(f, s, k - 1);
    assert Due(f, u);
    if j == k {
      WalksUp(f, s, k - 1);
      assert u.Mid() == Walk(s, k);
    } else {
      TurnKept(f, s, j, k - 1);
    }
  }

  /** The first trial temperature with the other sign, if there is one. */
  lemma {:induction false} FirstTurn(f: real -> real, s: Interval, k: nat) returns (j: nat)
    requires f(s.lo) == 0.0 && f(s.hi) != 0.0 && AllDue(f, s, k) && !NoTurn(f, s, k)
    ensures j <= k && Turns(f, s, j)
  {
    if !NoTurn(f, s, k - 1) {
      j := FirstTurn(f, s, k - 1);
    } else {
      j := k;
      TurnsHere(f, s, k);
    }
  }

  lemma TurnsHere(f: real -> real, s: Interval, k: nat)
    requires f(s.lo) == 0.0 && f(s.hi) != 0.0 && AllDue(f, s, k) && k > 0 && NoTurn(f, s, k - 1) && !NoTurn(f, s, k)
    ensures Turns(f, s, k)
  {
    hide Due, Run, Walk;
    forall i: nat | i < k ensures Due(f, Span(Walk(s, i), s.hi)) {
      WalksUp(f, s, i);
      assert Due(f, Run(f, s, i));
    }
    var u: Interval := Span(Walk(s, k - 1), s.hi);
    DueIs(f, u);
    WalkStep(s, k);
    assert !SameSign(f(Walk(s, k)), f(s.hi));
  }

  lemma WalkStep(s: Interval, k: nat)
    requires k > 0
    ensures Walk(s, k) == 0.5 * (Walk(s, k - 1) + s.hi)
  {
  }

  /** A root exactly at the low end is lost unless no pass is due or the search turns on its way up. */
  lemma LowRootSurvives(f: real -> real, s: Interval, k: nat)
    requires f(s.lo) == 0.0 && f(s.hi) != 0.0 && Ends(f, s, k)
    ensures SameSign(f(Run(f, s, k).lo), f(Run(f, s, k).hi)) <==> !LowRootKept(f, s)
    ensures SameSign(f(Run(f, s, k).lo), f(Run(f, s, k).hi)) ==> Run(f, s, k) == Span(Walk(s, k), s.hi)
  {
    hide Due, Pass;
    assert Run(f, s, 0) == s;
    if NoTurn(f, s, k) {
      WalksUp(f, s, k);
      forall j: nat ensures !Turns(f, s, j) {
        if j > 0 && j <= k { assert SameSign(f(Walk(s, j)), f(s.hi)); }
      }
      if k > 0 {
        assert SameSign(f(Walk(s, k)), f(s.hi));
        assert Due(f, Run(f, s, 0));
      }
    } else {
      var j := FirstTurn(f, s, k);
      TurnKept(f, s, j, k);
    }
  }

  /** So a function that is positive from the first trial temperature on loses it, and the value returned is
      within RTOL of the high end. */
  lemma RootAtLowEndLost(f: real -> real, s: Interval, k: nat)
    requires f(s.lo) == 0.0 && (forall x :: s.Mid() <= x <= s.hi ==> f(x) > FTOL) && Ends(f, s, k) && Due(f, s)
    ensures !LowRootKept(f, s) && Run(f, s, k).hi == s.hi
    ensures s.hi * (1.0 - RTOL) <= Run(f, s, k).Mid() <= s.hi && f(Run(f, s, k).Mid()) > FTOL
  {
    forall i: nat | 1 <= i ensures f(Walk(s, i)) > FTOL {
      WalkAboveMid(s, i);
    }
    WalksUp(f, s, k);
    LowRootSurvives(f, s, k);
    var u := Run(f, s, k);
    assert s.Mid() <= u.Mid() by { if k > 0 { WalkAboveMid(s, k); } }
    DivLe(u.hi - u.lo, u.Mid(), RTOL);
  }

  lemma {:induction false} WalkAboveMid(s: Interval, i: nat)
    requires i > 0
    ensures s.Mid() <= Walk(s, i) < s.hi
  {
    if i > 1 { WalkAboveMid(s, i - 1); }
  }

  // ---------------------------------------------------------------------------------------------
  // The accretion solution with adiabatic index 7/5, n = 5/2, in terms of its sonic radius rs. The
  // constant C1 and the power T^n enter only squared, so no fractional power is left.

  /** The sonic temperature is positive beyond this radius. */
  const LEAST_SONIC_RADIUS: real := 2.75

  type SonicRadius = x: real | x > LEAST_SONIC_RADIUS witness 8.0

  function Fourth(x: real): real { Sq(Sq(x)) }

  function Fifth(x: real): real { Fourth(x) * x }

  /** uc^2 */
  function SonicSpeedSq(rs: SonicRadius): real { 1.0 / (2.0 * rs) }

  /** Vc^2 */
  function SonicVelocitySq(rs: SonicRadius): real
  {
    SonicSpeed(rs);
    SonicSpeedSq(rs) / (1.0 - 3.0 * SonicSpeedSq(rs))
  }

  /** Tc */
  function SonicTemperature(rs: SonicRadius): (T: real)
    ensures T > 0.0
  {
    var v := SonicVelocitySq(rs);
    SonicVelocity(rs);
    DivPos(2.5 * v, 3.5 * (1.0 - 2.5 * v));
    NegatedRatio(2.5 * v, 3.5 * (2.5 * v - 1.0));
    -(2.5 * v) / (3.5 * (2.5 * v - 1.0))
  }

  /** C1^2 */
  function AccretionSq(rs: SonicRadius): real {
    SonicSpeedSq(rs) * Fourth(rs) * Fifth(SonicTemperature(rs))
  }

  /** (1 + (1 + n) T)^2 (1 - 2 / r + (C1 / (r^2 T^n))^2), which C2 fixes along the flow. */
  function Bernoulli(T: real, r: real, c1sq: real): real
    requires T > 0.0 && r > 0.0
  {
    PowersPositive(T, r);
    Sq(1.0 + 3.5 * T) * (1.0 - 2.0 / r + c1sq / (Fourth(r) * Fifth(T)))
  }

  /** C2 */
  function BernoulliConstant(rs: SonicRadius): real { Bernoulli(SonicTemperature(rs), rs, AccretionSq(rs)) }

  /** get_Tfunc at radius r; it is called at positive temperatures only. */
  function TFunc(rs: SonicRadius, r: real): real -> real
    requires r > 0.0
  {
    (T: real) => if T > 0.0 then Bernoulli(T, r, AccretionSq(rs)) - BernoulliConstant(rs) else 0.0
  }

  lemma PowersPositive(T: real, r: real)
    requires T > 0.0 && r > 0.0
    ensures Fourth(r) > 0.0 && Fifth(T) > 0.0 && Fourth(r) * Fifth(T) > 0.0
  {
    SqPos(r);
    SqPos(Sq(r));
    SqPos(T);
    SqPos(Sq(T));
    MulPos(Sq(Sq(T)), T);
    MulPos(Fourth(r), Fifth(T));
  }

  lemma SqPos(x: real)
    requires x > 0.0
    ensures Sq(x) > 0.0
  {
    SquareIsPos(x, Sq(x));
  }

  lemma SonicSpeed(rs: SonicRadius)
    ensures 0.0 < SonicSpeedSq(rs) < 2.0 / 11.0 && 2.0 / rs == 4.0 * SonicSpeedSq(rs)
    ensures rs <= 1e14 ==> SonicSpeedSq(rs) >= 5e-15
  {
    DivPos(1.0, 2.0 * rs);
    DivLe(1.0, 2.0 * rs, 2.0 / 11.0);
    DivLe(1.0, 2.0 * rs, 5e-15);
    DivIs(2.0, rs, 4.0 * SonicSpeedSq(rs));
    DivMul(1.0, 2.0 * rs);
  }

  lemma SonicVelocity(rs: SonicRadius)
    ensures 0.0 < SonicVelocitySq(rs) && 2.5 * SonicVelocitySq(rs) < 1.0
  {
    var u := SonicSpeedSq(rs);
    SonicSpeed(rs);
    DivPos(u, 1.0 - 3.0 * u);
    DivLe(u, 1.0 - 3.0 * u, 0.4);
  }

  lemma NegatedRatio(a: real, b: real)
    requires b != 0.0
    ensures -a / b == a / -b
  {
    var q := a / -b;
    DivIs(a, -b, q);
    DivIs(-a, b, q);
  }

  /** t = 7/2 Tc in terms of u = uc^2. */
  lemma TemperatureIs(rs: SonicRadius, u: real, t: real)
    requires u == SonicSpeedSq(rs) && t == 3.5 * SonicTemperature(rs)
    ensures t > 0.0 && t * (1.0 - 5.5 * u) == 2.5 * u
  {
    var v := SonicVelocitySq(rs);
    SonicSpeed(rs);
    SonicVelocity(rs);
    var k := 1.0 - 3.0 * u;
    DivMul(u, k);
    var d := 3.5 * (2.5 * v - 1.0);
    DivMul(-(2.5 * v), d);
    TemperatureAlgebra(u, v, k, t);
  }

  lemma TemperatureAlgebra(u: real, v: real, k: real, t: real)
    requires v * k == u && k == 1.0 - 3.0 * u && t * (2.5 * v - 1.0) == -2.5 * v
    ensures t * (1.0 - 5.5 * u) == 2.5 * u
  {
    var tv := t * v;
    assert 2.5 * tv - t == -2.5 * v;
    assert tv * k == t * u;
    assert (2.5 * tv - t) * k == -2.5 * (v * k);
  }

  /** The constants of the solution: 7 Tc (4 rs - 11) = 10, C1^2 = rs^3 Tc^5 / 2, and the temperature function
      in terms of them. */
  lemma SolutionIs(rs: SonicRadius, r: real, T: real)
    requires r > 0.0 && T > 0.0
    ensures 7.0 * Prod(SonicTemperature(rs), 4.0 * rs - 11.0) == 10.0
    ensures AccretionSq(rs) == Prod(rs * rs * rs / 2.0, Fifth(SonicTemperature(rs)))
    ensures Fifth(T) == T * T * T * T * T && Fourth(r) * Fifth(T) > 0.0
    ensures Bernoulli(T, r, AccretionSq(rs)) == Sq(1.0 + 3.5 * T) * (1.0 - 2.0 / r + AccretionSq(rs) / (Fourth(r) * Fifth(T)))
    ensures Fourth(r) == r * r * r * r
  {
    hide *;
    var u, Tc := SonicSpeedSq(rs), SonicTemperature(rs);
    TemperatureIs(rs, u, 3.5 * Tc);
    SpeedIs(rs, u);
    SonicConstant(Tc, u, rs);
    AccretionIs(rs, u, Fifth(Tc));
    PowersPositive(T, r);
    Powers(T, r);
    BernoulliIs(T, r, AccretionSq(rs));
  }

  lemma SpeedIs(rs: SonicRadius, u: real)
    requires u == SonicSpeedSq(rs)
    ensures u * rs == 0.5 && rs > 0.0
  {
    DivMul(1.0, 2.0 * rs);
  }

  lemma SonicConstant(Tc: real, u: real, rs: real)
    requires 3.5 * Tc * (1.0 - 5.5 * u) == 2.5 * u && u * rs == 0.5
    ensures 7.0 * Prod(Tc, 4.0 * rs - 11.0) == 10.0
  {
    var t := 3.5 * Tc;
    assert t * (1.0 - 5.5 * u) * rs == 2.5 * (u * rs);
    assert t * (1.0 - 5.5 * u) * rs == t * rs - 5.5 * (t * (u * rs));
    assert t * (u * rs) == 0.5 * t;
  }

  lemma AccretionIs(rs: SonicRadius, u: real, T5: real)
    requires u == SonicSpeedSq(rs) && T5 == Fifth(SonicTemperature(rs)) && u * rs == 0.5
    ensures AccretionSq(rs) == Prod(rs * rs * rs / 2.0, T5)
  {
    hide SonicSpeedSq, SonicTemperature, Fifth;
    assert u * Fourth(rs) == (u * rs) * (rs * rs * rs);
    assert (u * rs) * (rs * rs * rs) == rs * rs * rs / 2.0;
  }

  lemma Powers(T: real, r: real)
    ensures Fifth(T) == T * T * T * T * T && Fourth(r) == r * r * r * r
  {
  }

  lemma BernoulliIs(T: real, r: real, c1sq: real)
    requires T > 0.0 && r > 0.0 && Fourth(r) * Fifth(T) > 0.0
    ensures Bernoulli(T, r, c1sq) == Sq(1.0 + 3.5 * T) * (1.0 - 2.0 / r + c1sq / (Fourth(r) * Fifth(T)))
  {
    hide Fourth, Fifth, Sq;
  }

  /** At the sonic radius the sonic temperature is a root. */
  lemma SonicRoot(rs: SonicRadius)
    ensures TFunc(rs, rs)(SonicTemperature(rs)) == 0.0
  {
  }

  /** From 11/2 Tc on the function is above FTOL. */
  lemma AboveSonic(rs: SonicRadius, T: real)
    requires rs <= 1e14 && T >= 5.5 * SonicTemperature(rs)
    ensures TFunc(rs, rs)(T) > FTOL
  {
    hide *;
    var Tc, u, c1sq := SonicTemperature(rs), SonicSpeedSq(rs), AccretionSq(rs);
    var t, k := 3.5 * Tc, 1.0 - 4.0 * u;
    SonicSpeed(rs);
    TemperatureIs(rs, u, t);
    RadiusPositive(rs);
    SonicBernoulli(rs, Tc, u, t);
    BernoulliBelow(T, rs, c1sq, u) by { AccretionPositive(rs); }
    GrowsWithT(T, t, k);
    Excess(u, t);
    TFuncIs(rs, T);
  }

  lemma RadiusPositive(rs: SonicRadius)
    ensures rs > 0.0
  {
  }

  lemma TFuncIs(rs: SonicRadius, T: real)
    requires T > 0.0 && rs > 0.0
    ensures TFunc(rs, rs)(T) == Bernoulli(T, rs, AccretionSq(rs)) - Bernoulli(SonicTemperature(rs), rs, AccretionSq(rs))
  {
    hide Bernoulli, AccretionSq, SonicTemperature;
  }

  lemma AccretionPositive(rs: SonicRadius)
    ensures AccretionSq(rs) >= 0.0
  {
    hide SonicTemperature, SonicSpeedSq, Fourth, Fifth;
    var u, r4, T5 := SonicSpeedSq(rs), Fourth(rs), Fifth(SonicTemperature(rs));
    SonicSpeed(rs);
    PowersPositive(SonicTemperature(rs), rs);
    MulPos(u, r4);
    MulPos(u * r4, T5);
  }

  lemma SonicBernoulli(rs: SonicRadius, Tc: real, u: real, t: real)
    requires Tc == SonicTemperature(rs) && u == SonicSpeedSq(rs) && t == 3.5 * Tc && rs > 0.0
    ensures Bernoulli(Tc, rs, AccretionSq(rs)) == Prod(Sq(1.0 + t), 1.0 - 3.0 * u)
  {
    hide SonicTemperature, SonicSpeedSq, Fourth, Fifth, Sq;
    PowersPositive(Tc, rs);
    SonicSpeed(rs);
    var m := Fourth(rs) * Fifth(Tc);
    assert AccretionSq(rs) == u * m;
    DivIs(u * m, m, u);
  }

  lemma BernoulliBelow(T: real, rs: real, c1sq: real, u: real)
    requires T > 0.0 && rs > 0.0 && c1sq >= 0.0 && 2.0 / rs == 4.0 * u
    ensures Bernoulli(T, rs, c1sq) >= Prod(Sq(1.0 + 3.5 * T), 1.0 - 4.0 * u)
  {
    hide Fourth, Fifth, Sq;
    PowersPositive(T, rs);
    var m := Fourth(rs) * Fifth(T);
    DivNonneg(c1sq, m);
    SqNonneg(1.0 + 3.5 * T);
    ProdMono(Sq(1.0 + 3.5 * T), 1.0 - 4.0 * u, 1.0 - 2.0 / rs + c1sq / m);
  }

  lemma GrowsWithT(T: real, t: real, k: real)
    requires 3.5 * T >= 5.5 * t && t > 0.0 && k >= 0.0
    ensures Prod(Sq(1.0 + 3.5 * T), k) >= Prod(Sq(1.0 + 5.5 * t), k)
  {
    var x, y := 1.0 + 5.5 * t, 1.0 + 3.5 * T;
    SquareOrder(x, y);
    MulMono(Sq(x), Sq(y), k);
  }

  lemma Excess(u: real, t: real)
    requires 5e-15 <= u < 2.0 / 11.0 && t > 0.0 && t * (1.0 - 5.5 * u) == 2.5 * u
    ensures Prod(Sq(1.0 + 5.5 * t), 1.0 - 4.0 * u) - Prod(Sq(1.0 + t), 1.0 - 3.0 * u) > FTOL
  {
    var w := 1.0 - 5.5 * u;
    var x, y := 1.0 + 5.5 * t, 1.0 + t;
    var e := Prod(Sq(x), 1.0 - 4.0 * u) - Prod(Sq(y), 1.0 - 3.0 * u);
    assert x * w == 1.0 + 8.25 * u && y * w == 1.0 - 3.0 * u;
    ExcessScaled(x, y, w, u, e);
    ExcessPolynomial(u);
    ScaledBelow(e, w);
  }

  lemma ScaledBelow(e: real, w: real)
    requires 0.0 < w <= 1.0 && Prod(Sq(w), e) > FTOL
    ensures e > FTOL
  {
    SquareOrder(w, 1.0);
    SqPos(w);
    if e <= FTOL { ProdMono(Sq(w), e, FTOL); }
  }

  lemma ExcessScaled(x: real, y: real, w: real, u: real, e: real)
    requires x * w == 1.0 + 8.25 * u && y * w == 1.0 - 3.0 * u
    requires e == Prod(Sq(x), 1.0 - 4.0 * u) - Prod(Sq(y), 1.0 - 3.0 * u)
    ensures Prod(Sq(w), e) == Sq(1.0 + 8.25 * u) * (1.0 - 4.0 * u) - Sq(1.0 - 3.0 * u) * (1.0 - 3.0 * u)
  {
    var a, b := Sq(x), Sq(y);
    assert a * (w * w) == Sq(x * w) && b * (w * w) == Sq(y * w);
    var k, l := 1.0 - 4.0 * u, 1.0 - 3.0 * u;
    assert (a * k - b * l) * (w * w) == (a * (w * w)) * k - (b * (w * w)) * l;
  }

  lemma ExcessPolynomial(u: real)
    requires 5e-15 <= u < 2.0 / 11.0
    ensures Sq(1.0 + 8.25 * u) * (1.0 - 4.0 * u) - Sq(1.0 - 3.0 * u) * (1.0 - 3.0 * u) > FTOL
  {
    hide *;
    var u2, u3 := Prod(u, u), Prod(u, Prod(u, u));
    ProdMono(u, u, 0.2);
    Fifths(u);
    ProdMono(u, u2, 0.2 * u);
    FtolIs();
    ExcessExpand(u, u2, u3);
  }

  lemma FtolIs()
    ensures FTOL == 1e-14
  {
  }

  lemma Fifths(u: real)
    ensures Prod(u, 0.2) == 0.2 * u && Prod(u, 0.2 * u) == 0.2 * Prod(u, u)
  {
  }

  lemma ExcessExpand(u: real, u2: real, u3: real)
    requires u2 == Prod(u, u) && u3 == Prod(u, u2)
    ensures Sq(1.0 + 8.25 * u) * (1.0 - 4.0 * u) - Sq(1.0 - 3.0 * u) * (1.0 - 3.0 * u)
            == 21.5 * u - 24.9375 * u2 - 245.25 * u3
  {
  }

  /** Tguess */
  function Guess(power: real -> real, rs: SonicRadius, r: real): real
    requires r > 0.0
  {
    SonicTemperature(rs) * power(rs / r)
  }

  lemma GuessIs(power: real -> real, rs: SonicRadius, r: real)
    requires r > 0.0 && power(1.0) == 1.0 && forall x :: x > 0.0 ==> power(x) > 0.0
    ensures Guess(power, rs, r) == SonicTemperature(rs) * power(rs / r)
    ensures Guess(power, rs, r) > 0.0 && (r == rs ==> Guess(power, rs, r) == SonicTemperature(rs))
  {
    DivPos(rs, r);
    MulPos(SonicTemperature(rs), power(rs / r));
    DivIs(rs, rs, 1.0);
  }

  /** get_bondi_temp: the search from the power-law guess, inside or outside the sonic radius. At the sonic
      radius itself the guess is the root, and for every sonic radius up to 1e14 the temperature returned is
      ten times too high, within RTOL. */
  method BondiTemperature(power: real -> real, rs: SonicRadius, r: real) returns (res: Temperature)
    requires r > 0.0 && power(1.0) == 1.0 && forall x :: x > 0.0 ==> power(x) > 0.0
    ensures var f, guess := TFunc(rs, r), SonicTemperature(rs) * power(rs / r);
            && guess > 0.0
            && var s: Interval := if r < rs then Span(0.1 * guess, guess) else Span(guess, 10.0 * guess);
            && (res.Failed? <==> SameSign(f(s.lo), f(s.hi))) && (res.Found? ==> exists k: nat :: EndsAt(f, s, k, res.T))
    ensures r == rs <= 1e14 ==>
              && TFunc(rs, rs)(SonicTemperature(rs)) == 0.0
              && res.Found? && res.T >= 10.0 * SonicTemperature(rs) * (1.0 - RTOL) && TFunc(rs, rs)(res.T) > FTOL
  {
    hide *;
    RadiusPositive(rs);
    GuessIs(power, rs, r);
    StartSpan(Guess(power, rs, r), r < rs);
    res := GetTemperature(TFunc(rs, r), Guess(power, rs, r), r < rs);
    if r == rs && rs <= 1e14 {
      ghost var s := Start(SonicTemperature(rs), false);
      SonicPointLost(rs, 0, s);
      ghost var k: nat :| EndsAt(TFunc(rs, rs), s, k, res.T);
      EndsAtIs(TFunc(rs, rs), s, k, res.T);
      SonicPointLost(rs, k, s);
    }
  }

  lemma SonicPointLost(rs: SonicRadius, k: nat, s: Interval)
    requires 0.0 < rs <= 1e14 && s == Start(SonicTemperature(rs), false)
    ensures var f := TFunc(rs, rs);
            && f(SonicTemperature(rs)) == 0.0 && !SameSign(f(s.lo), f(s.hi))
            && (Ends(f, s, k) ==> Run(f, s, k).Mid() >= 10.0 * SonicTemperature(rs) * (1.0 - RTOL)
                                  && f(Run(f, s, k).Mid()) > FTOL)
  {
    hide *;
    var f, Tc := TFunc(rs, rs), SonicTemperature(rs);
    SonicRoot(rs);
    SonicStart(Tc, s);
    SameSignIs(f(s.lo), f(s.hi));
    MidIs(s);
    forall x | s.Mid() <= x <= s.hi ensures f(x) > FTOL { AboveSonic(rs, x); }
    if Ends(f, s, k) {
      DueAtStart(f, s);
      RootAtLowEndLost(f, s, k);
    }
  }

  lemma SonicStart(Tc: real, s: Interval)
    requires Tc > 0.0 && s == Start(Tc, false)
    ensures s.lo == Tc && s.hi == 10.0 * Tc && 0.5 * (s.lo + s.hi) == 5.5 * Tc
  {
  }

  lemma DueAtStart(f: real -> real, s: Interval)
    requires s.hi == 10.0 * s.lo && f(s.Mid()) > FTOL
    ensures Due(f, s)
  {
    DivLe(s.hi - s.lo, s.Mid(), RTOL);
  }
}
