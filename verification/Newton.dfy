/** The safeguarded two-dimensional Newton iteration of con2prim.hpp, for an arbitrary residual. */
module Newton {
  import opened Reals

  /** The two residuals at a density and a temperature. */
  datatype Pair = Pair(s: real, t: real) {
    function Norm(): real { s * s + t * t }
  }

  type Residual = (real, real) -> Pair

  datatype Status = Success | Failure

  /** A relative change below the tolerance; with a zero guess the quotient is infinite or undefined
      and the comparison is false. */
  predicate Settled(delta: real, guess: real, tolerance: real) {
    guess != 0.0 && Abs(delta) / guess < tolerance
  }

  /** What the damping compares: the sum of the squared residuals, zero only at a solution. */
  lemma NormIs(p: Pair)
    ensures p.Norm() == Sq(p.s) + Sq(p.t) && p.Norm() >= 0.0 && (p.Norm() == 0.0 <==> p == Pair(0.0, 0.0))
  {
    NormUnfolds(p);
    hide *;
    SquareSign(p.s);
    SquareSign(p.t);
  }

  lemma NormUnfolds(p: Pair)
    ensures p.Norm() == Sq(p.s) + Sq(p.t)
  {
  }

  lemma SquareSign(x: real)
    ensures Sq(x) >= 0.0 && (Sq(x) == 0.0 <==> x == 0.0)
  {
    if x != 0.0 { SquareIsPos(x, Sq(x)); }
  }

  lemma SettledIs(delta: real, guess: real, tolerance: real)
    requires guess > 0.0
    ensures Settled(delta, guess, tolerance) <==> Abs(delta) < tolerance * guess
  {
    DivLe(Abs(delta), guess, tolerance);
  }

  /** The step over which a derivative is estimated: never zero. */
  function Increment(fact: real, guess: real, least: real): (d: real)
    requires least > 0.0
    ensures d != 0.0
  {
    var d := fact * guess;
    if Abs(d) < least then Sgn(d) * least else d
  }

  /** Scales a density step that would leave [0, D]. */
  function LimitRho(rho: real, delta: real, D: real): real {
    if rho + delta < 0.0 && delta != 0.0 then -0.1 * rho / delta * delta
    else if rho + delta > D && delta != 0.0 then (D - rho) / delta * delta
    else delta
  }

  function LimitT(T: real, delta: real): real { if T + delta < 0.0 then -0.1 * T else delta }

  /** A full step is left alone where it stays in the range; where it would leave it, density falls to nine
      tenths of itself or rises to D, and temperature falls to nine tenths. */
  lemma FullStep(rho: real, T: real, dRho: real, dT: real, D: real)
    requires 0.0 <= rho <= D && T >= 0.0
    ensures rho + LimitRho(rho, dRho, D) == if rho + dRho < 0.0 then 0.9 * rho else if rho + dRho > D then D else rho + dRho
    ensures T + LimitT(T, dT) == if T + dT < 0.0 then 0.9 * T else T + dT
  {
    if dRho != 0.0 {
      DivMul(-0.1 * rho, dRho);
      DivMul(D - rho, dRho);
    }
  }

  /** The step of a difference quotient is fact times the guess, or the least step in its direction. */
  lemma IncrementIs(fact: real, guess: real, least: real)
    requires least > 0.0
    ensures var d := Increment(fact, guess, least);
            if Abs(fact * guess) >= least then d == fact * guess
            else Abs(d) == least && (d > 0.0 <==> fact * guess >= 0.0)
  {
  }

  lemma LimitedStep(rho: real, delta: real, D: real, alpha: real)
    requires 0.0 <= rho <= D && 0.0 <= alpha <= 1.0
    ensures 0.0 <= Moved(rho, alpha, LimitRho(rho, delta, D)) <= D
    ensures delta == 0.0 ==> LimitRho(rho, delta, D) == 0.0
  {
    hide Prod;
    var d := LimitRho(rho, delta, D);
    assert -rho <= d <= D - rho by {
      if delta != 0.0 {
        DivMul(-0.1 * rho, delta);
        DivMul(D - rho, delta);
      }
    }
    Shortened(alpha, d, -rho, D - rho);
  }

  /** A step shortened towards zero stays within bounds around zero. */
  lemma Shortened(alpha: real, d: real, lo: real, hi: real)
    requires 0.0 <= alpha <= 1.0 && lo <= 0.0 <= hi && lo <= d <= hi
    ensures lo <= Prod(alpha, d) <= hi
  {
    hide Prod;
    if d >= 0.0 {
      Fraction(alpha, d);
    } else {
      Fraction(alpha, -d);
      Opposite(alpha, d);
    }
  }

  lemma Fraction(alpha: real, d: real)
    requires 0.0 <= alpha <= 1.0 && d >= 0.0
    ensures 0.0 <= Prod(alpha, d) <= d
  {
    MulMono(alpha, 1.0, d);
    MulNonneg(alpha, d);
  }

  lemma Opposite(a: real, d: real)
    ensures Prod(a, -d) == -Prod(a, d)
  {
  }

  /** A guess moved along a fraction of a step. */
  function Moved(x: real, alpha: real, d: real): real { x + Prod(alpha, d) }

  lemma MovedIs(x: real, d: real)
    ensures Moved(x, 1.0, d) == x + d && forall alpha :: Moved(x, alpha, 0.0) == x
  {
  }

  lemma LimitedStepT(T: real, delta: real, alpha: real)
    requires 0.0 <= T && 0.0 <= alpha <= 1.0
    ensures 0.0 <= Moved(T, alpha, LimitT(T, delta))
    ensures delta == 0.0 ==> LimitT(T, delta) == 0.0
  {
    var d := LimitT(T, delta);
    Shortened(alpha, d, -T, Max(d, 0.0));
  }

  /** The parts of a step that are tried, largest first. */
  const Fractions: seq<real> := [1.0, 0.5, 0.25, 0.125, 0.0625, 0.03125]

  /** None of the first n parts decreases the residual. */
  ghost predicate Rejected(R: Residual, rho: real, T: real, deltaRho: real, deltaT: real, n: nat)
    requires n <= |Fractions|
  {
    forall m :: 0 <= m < n ==>
      R(Moved(rho, Fractions[m], deltaRho), Moved(T, Fractions[m], deltaT)).Norm() >= R(rho, T).Norm()
  }

  /** alpha is the largest of these parts that decreases the residual, or the smallest one. */
  ghost predicate Damped(R: Residual, rho: real, T: real, deltaRho: real, deltaT: real, alpha: real) {
    exists n ::
      && 0 <= n <= 5 && alpha == Fractions[n] && Rejected(R, rho, T, deltaRho, deltaT, n)
      && (n == 5 || R(Moved(rho, alpha, deltaRho), Moved(T, alpha, deltaT)).Norm() < R(rho, T).Norm())
  }

  /** Halves the step at most five times while the residual does not decrease: it keeps the largest part that
      does, or the smallest one. */
  method Backtrack(R: Residual, rho: real, T: real, deltaRho: real, deltaT: real)
    returns (alpha: real, res: Pair)
    ensures 0.03125 <= alpha <= 1.0
    ensures res == R(Moved(rho, alpha, deltaRho), Moved(T, alpha, deltaT))
    ensures alpha > 0.03125 ==> res.Norm() < R(rho, T).Norm()
    ensures Damped(R, rho, T, deltaRho, deltaT, alpha)
  {
    hide Pair.Norm, Moved;
    alpha := 1.0;
    var res0 := R(rho, T).Norm();
    res := R(Moved(rho, alpha, deltaRho), Moved(T, alpha, deltaT));
    var cnt := 0;
    while res.Norm() >= res0 && cnt < 5
      invariant 0 <= cnt <= 5
      invariant alpha == Fractions[cnt] && Rejected(R, rho, T, deltaRho, deltaT, cnt)
      invariant res == R(Moved(rho, alpha, deltaRho), Moved(T, alpha, deltaT))
      decreases 5 - cnt
    {
      alpha := alpha * 0.5;
      res := R(Moved(rho, alpha, deltaRho), Moved(T, alpha, deltaT));
      cnt := cnt + 1;
    }
  }

  lemma LeastPositive(x: real)
    ensures MakePositive(x) == Max(x, EPS) > 0.0
  {
  }

  /** The derivatives of both residuals with respect to density and temperature. */
  datatype Slopes = Slopes(j00: real, j01: real, j10: real, j11: real) {
    function Det(): real { j00 * j11 - j01 * j10 }

    /** (x, y) solves the equations linearised about a point with residual res. */
    predicate Solves(res: Pair, x: real, y: real) {
      j00 * x + j01 * y == -res.s && j10 * x + j11 * y == -res.t
    }
  }

  /** One-sided difference quotients over steps that are never zero. */
  function SlopesAt(R: Residual, rho: real, T: real, fact: real, least: real): Slopes
    requires least > 0.0
  {
    var d, e := Increment(fact, rho, least), Increment(fact, T, least);
    Slopes(Prod(R(rho + d, T).s - R(rho, T).s, 1.0 / d), Prod(R(rho, T + e).s - R(rho, T).s, 1.0 / e),
           Prod(R(rho + d, T).t - R(rho, T).t, 1.0 / d), Prod(R(rho, T + e).t - R(rho, T).t, 1.0 / e))
  }

  /** On an affine residual they are its coefficients, whatever the steps are. */
  lemma SlopesExact(R: Residual, j: Slopes, s: real, t: real, rho: real, T: real, fact: real, least: real)
    requires least > 0.0
    requires forall x, y :: R(x, y) == Pair(s + Prod(j.j00, x) + Prod(j.j01, y), t + Prod(j.j10, x) + Prod(j.j11, y))
    ensures SlopesAt(R, rho, T, fact, least) == j
  {
    var d, e := Increment(fact, rho, least), Increment(fact, T, least);
    hide Increment;
    Quotient(j.j00, rho, d);
    Quotient(j.j10, rho, d);
    Quotient(j.j01, T, e);
    Quotient(j.j11, T, e);
    hide Prod;
    assert R(rho + d, T) == Pair(s + Prod(j.j00, rho + d) + Prod(j.j01, T), t + Prod(j.j10, rho + d) + Prod(j.j11, T));
    assert R(rho, T + e) == Pair(s + Prod(j.j00, rho) + Prod(j.j01, T + e), t + Prod(j.j10, rho) + Prod(j.j11, T + e));
  }

  lemma Quotient(a: real, x: real, d: real)
    requires d != 0.0
    ensures Prod(Prod(a, x + d) - Prod(a, x), 1.0 / d) == a
  {
    DivMul(1.0, d);
    assert a * (x + d) - a * x == a * d;
    assert a * d * (1.0 / d) == a * (1.0 / d * d);
  }

  method Jacobian(R: Residual, rho: real, T: real, res: Pair, fact: real, least: real) returns (j: Slopes, det: real)
    requires least > 0.0 && res == R(rho, T)
    ensures j == SlopesAt(R, rho, T, fact, least) && det == j.Det()
  {
    hide Increment;
    var drho := Increment(fact, rho, least);
    var idrho := Ratio(1.0, drho);
    var resp := R(rho + drho, T);
    var j00, j10 := (resp.s - res.s) * idrho, (resp.t - res.t) * idrho;
    var dT := Increment(fact, T, least);
    var idT := Ratio(1.0, dT);
    resp := R(rho, T + dT);
    var j01, j11 := (resp.s - res.s) * idT, (resp.t - res.t) * idT;
    j := Slopes(j00, j01, j10, j11);
    det := j00 * j11 - j01 * j10;
  }

  /** What a pass did: nothing, because the determinant was too small, or a limited and damped part of the
      Newton increment (dRho, dT). rho and T are the values it started from. */
  datatype Pass = Singular(rho: real, T: real, fact: real)
                | Moving(rho: real, T: real, fact: real, dRho: real, dT: real, alpha: real)
  {
    /** It led from its own state to (rho', T'). */
    ghost predicate LeadsTo(R: Residual, D: real, least: real, rho': real, T': real)
      requires least > 0.0
    {
      var j := SlopesAt(R, rho, T, fact, least);
      match this
      case Singular(_, _, _) => Abs(j.Det()) < 1e-16 && rho' == rho && T' == T
      case Moving(_, _, _, x, y, alpha) =>
        && Abs(j.Det()) >= 1e-16 && j.Solves(R(rho, T), x, y)
        && Damped(R, rho, T, LimitRho(rho, x, D), LimitT(T, y), alpha)
        && rho' == Moved(rho, alpha, LimitRho(rho, x, D)) && T' == Moved(T, alpha, LimitT(T, y))
    }

    /** The relative step of the difference quotients afterwards: larger after a singular pass, back towards
        1e-6 after a regular one. */
    function NextFact(): real {
      if Singular? then fact * 1.2 else if fact > 1e-6 then fact * (1.0 / 1.2) else fact
    }

    /** The increment, before limiting and damping, is below the relative tolerance in both variables. */
    predicate Below(tolerance: real) { Moving? && Settled(dRho, rho, tolerance) && Settled(dT, T, tolerance) }
  }

  /** The passes lead from (rho0, T0) to (rho, T), the first with a relative step of 1e-6. */
  ghost predicate Trail(R: Residual, D: real, least: real, rho0: real, T0: real, passes: seq<Pass>, rho: real, T: real)
    requires least > 0.0
  {
    && |passes| > 0 && passes[0].rho == rho0 && passes[0].T == T0 && passes[0].fact == 1e-6
    && (forall n :: 0 <= n < |passes| - 1 ==>
          passes[n].LeadsTo(R, D, least, passes[n + 1].rho, passes[n + 1].T) && passes[n + 1].fact == passes[n].NextFact())
    && passes[|passes| - 1].LeadsTo(R, D, least, rho, T)
  }

  lemma TrailStarts(R: Residual, D: real, least: real, p: Pass, rho: real, T: real)
    requires least > 0.0 && p.fact == 1e-6 && p.LeadsTo(R, D, least, rho, T)
    ensures Trail(R, D, least, p.rho, p.T, [p], rho, T)
  {
    hide Pass.LeadsTo;
  }

  lemma TrailGrows(R: Residual, D: real, least: real, rho0: real, T0: real, passes: seq<Pass>, p: Pass, rho: real, T: real)
    requires least > 0.0 && Trail(R, D, least, rho0, T0, passes, p.rho, p.T) && p.LeadsTo(R, D, least, rho, T)
    requires |passes| > 0 && p.fact == passes[|passes| - 1].NextFact()
    ensures Trail(R, D, least, rho0, T0, passes + [p], rho, T)
  {
    hide Pass.LeadsTo, Pass.NextFact;
  }

  /** Whatever the residual does, the iteration stops within the budget (one pass is always made), every
      density it leaves lies between zero and D, every temperature is nonnegative, and a state that
      already solves both equations is never left. Every pass is a limited and damped Newton step or none. It
      reports success exactly when the increment of the last pass was below the tolerance; otherwise the budget
      is used up. */
  method Solve(R: Residual, D: real, rho0: real, T0: real, tolerance: real, maxIter: int)
    returns (status: Status, rho: real, T: real, ghost passes: seq<Pass>)
    requires 0.0 <= rho0 <= D && T0 >= 0.0
    ensures 0.0 <= rho <= D && T >= 0.0
    ensures 1 <= |passes| && (|passes| <= maxIter || |passes| == 1)
    ensures R(rho0, T0) == Pair(0.0, 0.0) ==> rho == rho0 && T == T0
    ensures var least := Max(tolerance * 1e-6, EPS); least > 0.0 && Trail(R, D, least, rho0, T0, passes, rho, T)
    ensures forall n :: 0 <= n < |passes| - 1 ==> !passes[n].Below(tolerance)
    ensures status.Success? <==> passes[|passes| - 1].Below(tolerance)
    ensures status.Failure? ==> |passes| >= maxIter
  {
    hide Increment, Settled, LimitRho, LimitT, Moved, MakePositive, SlopesAt, Slopes.Det, Slopes.Solves, Damped, Trail;
    rho, T, passes := rho0, T0, [];
    var iter := 0;
    var converged := false;
    var deltaFact := 1e-6;
    LeastPositive(tolerance * 1e-6);
    var deltaMin := MakePositive(tolerance * 1e-6);
    var res := R(rho, T);
    var again := true;
    while again
      invariant 0.0 <= rho <= D && T >= 0.0 && res == R(rho, T) && iter == |passes|
      invariant R(rho0, T0) == Pair(0.0, 0.0) ==> rho == rho0 && T == T0
      invariant if iter == 0 then again && !converged && deltaFact == 1e-6 && rho == rho0 && T == T0
                else iter <= maxIter || iter == 1
      invariant iter > 0 ==> again == (!converged && iter < maxIter)
      invariant iter > 0 ==> Trail(R, D, deltaMin, rho0, T0, passes, rho, T)
      invariant iter > 0 ==> deltaFact == passes[iter - 1].NextFact() && converged == passes[iter - 1].Below(tolerance)
      invariant forall n :: 0 <= n < iter - 1 ==> !passes[n].Below(tolerance)
      decreases if again then 1 else 0, maxIter - iter
    {
      var j, det := Jacobian(R, rho, T, res, deltaFact, deltaMin);
      if Abs(det) < 1e-16 {
        ghost var stuck := Singular(rho, T, deltaFact);
        if iter == 0 { TrailStarts(R, D, deltaMin, stuck, rho, T); } else { TrailGrows(R, D, deltaMin, rho0, T0, passes, stuck, rho, T); }
        passes := passes + [stuck];
        assert [stuck] == [] + [stuck];
        deltaFact := deltaFact * 1.2;
        iter := iter + 1;
        again := !converged && iter < maxIter;
        continue;
      }
      var deltaRho, deltaT := Cramer(res, j, det);
      if Settled(deltaRho, rho, tolerance) && Settled(deltaT, T, tolerance) {
        converged := true;
      }
      var alpha;
      ghost var from := Moving(rho, T, deltaFact, deltaRho, deltaT, 1.0);
      rho, T, alpha, res := Move(R, D, rho, T, deltaRho, deltaT);
      ghost var step := from.(alpha := alpha);
      if iter == 0 { TrailStarts(R, D, deltaMin, step, rho, T); } else { TrailGrows(R, D, deltaMin, rho0, T0, passes, step, rho, T); }
      passes := passes + [step];
      assert [step] == [] + [step];
      iter := iter + 1;
      deltaFact := deltaFact * (if deltaFact > 1e-6 then 1.0 / 1.2 else 1.0);
      again := !converged && iter < maxIter;
    }
    status := if converged then Success else Failure;
  }

  /** Limits the increment to the physical range, damps it, and moves. */
  method Move(R: Residual, D: real, rho: real, T: real, deltaRho: real, deltaT: real)
    returns (rho': real, T': real, alpha: real, res: Pair)
    requires 0.0 <= rho <= D && T >= 0.0
    ensures 0.0 <= rho' <= D && T' >= 0.0 && 0.03125 <= alpha <= 1.0 && res == R(rho', T')
    ensures Damped(R, rho, T, LimitRho(rho, deltaRho, D), LimitT(T, deltaT), alpha)
    ensures rho' == Moved(rho, alpha, LimitRho(rho, deltaRho, D)) && T' == Moved(T, alpha, LimitT(T, deltaT))
    ensures deltaRho == 0.0 ==> rho' == rho
    ensures deltaT == 0.0 ==> T' == T
  {
    hide LimitRho, LimitT, Moved, Damped;
    var stepRho, stepT := LimitRho(rho, deltaRho, D), LimitT(T, deltaT);
    alpha, res := Backtrack(R, rho, T, stepRho, stepT);
    LimitedStep(rho, deltaRho, D, alpha);
    LimitedStepT(T, deltaT, alpha);
    MovedIs(rho, 0.0);
    MovedIs(T, 0.0);
    rho', T' := Moved(rho, alpha, stepRho), Moved(T, alpha, stepT);
  }

  /** The Newton step: it solves J delta == -res, so it is zero at a solution. */
  method Cramer(res: Pair, j: Slopes, det: real) returns (deltaRho: real, deltaT: real)
    requires det == j.Det() && det != 0.0
    ensures j.Solves(res, deltaRho, deltaT)
    ensures res == Pair(0.0, 0.0) ==> deltaRho == 0.0 && deltaT == 0.0
  {
    var idet := 1.0 / det;
    deltaRho := -(res.s * j.j11 - j.j01 * res.t) * idet;
    deltaT := -(j.j00 * res.t - j.j10 * res.s) * idet;
    DivMul(1.0, det);
    StepSolves(res.s, res.t, j.j00, j.j01, j.j10, j.j11, det, idet, deltaRho, deltaT);
  }

  lemma StepSolves(s: real, t: real, a: real, b: real, c: real, d: real, det: real, idet: real, x: real, y: real)
    requires det == a * d - b * c && idet * det == 1.0
    requires x == -(s * d - b * t) * idet && y == -(a * t - c * s) * idet
    ensures a * x + b * y == -s && c * x + d * y == -t
    ensures s == 0.0 && t == 0.0 ==> x == 0.0 && y == 0.0
  {
    var p, q := -(s * d - b * t), -(a * t - c * s);
    Recombine(a, b, p, q, -s, det, idet);
    Recombine(c, d, p, q, -t, det, idet);
  }

  lemma Recombine(a: real, b: real, p: real, q: real, r: real, det: real, idet: real)
    requires a * p + b * q == r * det && idet * det == 1.0
    ensures a * (p * idet) + b * (q * idet) == r
  {
    calc {
      a * (p * idet) + b * (q * idet);
      (a * p + b * q) * idet;
      r * det * idet;
      r * (idet * det);
      r;
    }
  }
}
