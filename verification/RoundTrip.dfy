/** The true primitives are a root of the master function, and unwrapping there returns them:
    p2c followed by the recovery is the identity, magnetic field included. */
module RoundTrip {
  import opened Reals
  import opened Vectors
  import opened PrimToCon
  import opened ConToPrim
  import opened Recovery
  import opened RootAlgebra

  // ---------- the state at the root, on scalars ----------

  lemma UnfoldX(p: Problem, mu: real, bsq: real)
    requires p.bsq == bsq && 1.0 + mu * bsq > 0.0
    ensures p.X(mu) == 1.0 / (1.0 + mu * bsq)
  {
  }

  lemma UnfoldQbar(p: Problem, mu: real, x: real, q: real, bsq: real, bsqRpsq: real)
    requires p.q == q && p.bsq == bsq && p.bsqRpsq == bsqRpsq
    ensures p.Qbar(mu, x) == q - 0.5 * (bsq + (mu * x) * (mu * x) * bsqRpsq)
  {
  }

  /** The scalars of a problem that p2c produced from a state with z = rho h W^2, Q = B^2, N = B.v
      and V = v^2. */
  ghost predicate Made(p: Problem, prs: real, V: real, Q: real, N: real, D: real, z: real) {
    D > 0.0 && z > 0.0 && Q >= 0.0 && MomentumMade(p, prs, V, Q, N, D, z) && FieldMade(p, Q, N, D, z)
  }

  ghost predicate MomentumMade(p: Problem, prs: real, V: real, Q: real, N: real, D: real, z: real) {
    && p.D == D && p.rsq * (D * D) == RsqD2(z, V, Q, N)
    && p.q * D == z - prs + Q - 0.5 * (Q * (1.0 - V) + N * N) - D
  }

  ghost predicate FieldMade(p: Problem, Q: real, N: real, D: real, z: real) {
    && p.rbsq * (D * D * D) == z * z * N * N
    && p.bsq * D == Q && p.bsqRpsq == p.bsq * p.rsq - p.rbsq
  }

  /** x, rbar^2 and qbar at mu = D / z, in terms of the state. */
  lemma FieldsAtRoot(p: Problem, prs: real, V: real, Q: real, N: real, D: real, z: real, mu: real, x: real,
                     rbar: real, qbar: real)
    requires Made(p, prs, V, Q, N, D, z) && mu * z == D
    requires x == p.X(mu) && rbar == p.RbarSq(mu, x) && qbar == p.Qbar(mu, x)
    ensures x * (z + Q) == z && mu * mu * rbar == V && qbar * D == z - prs - D
  {
    var rsq, rbsq, bsq, bsqRpsq, q := p.rsq, p.rbsq, p.bsq, p.bsqRpsq, p.q;
    FieldFactor(z, D, Q, mu, bsq);
    UnfoldX(p, mu, bsq);
    UnfoldRbar(p, mu, x, rsq, rbsq);
    UnfoldQbar(p, mu, x, q, bsq, bsqRpsq);
    RbarAtRoot(z, D, V, Q, N, mu, x, rsq, rbsq, rbar);
    QbarAtRoot(z, D, V, Q, N, prs, mu, x, q, bsq, bsqRpsq, rsq, rbsq, qbar);
  }

  /** mu h0 <= 1 / W: the root lies where aux_func <= 0 because h >= h0. */
  lemma RootBelowInverse(rho: real, e: real, W: real, iW: real, D: real, z: real, mu: real, h0: real)
    requires rho > 0.0 && iW * W == 1.0 && W >= 1.0 && D == rho * W && z == e * W * W && z > 0.0 && mu * z == D
    requires h0 > 0.0 && e >= h0 * rho
    ensures mu > 0.0 && Prod(mu, h0) <= iW && iW > 0.0 && Prod(mu, h0) >= 0.0
  {
    MulPos(rho, W);
    CancelPos(z, mu);
    assert z * mu == D;
    CancelPos(W, iW);
    assert W * iW == 1.0;
    var y := mu * e;
    calc {
      y * W * W;
      mu * z;
      D;
      rho * W;
    }
    assert (y * W - rho) * W == 0.0;
    assert y * W == rho;
    calc {
      rho * iW;
      y * (iW * W);
      y;
    }
    MulMono(h0 * rho, e, mu);
    var m := mu * h0;
    MulPos(mu, h0);
    assert (h0 * rho) * mu == m * rho;
    assert rho * (iW - m) == rho * iW - m * rho;
    assert e * mu == y;
    CancelPos(rho, iW - m);
  }

  lemma BelowCeiling(W: real, iW: real, V: real, g: real)
    requires iW * W == 1.0 && 1.0 <= W <= g && iW > 0.0 && V == 1.0 - iW * iW
    ensures 0.0 <= V <= LorentzCeiling(g)
  {
    MulMono(W, g, iW);
    var k := g * iW;
    assert k >= 1.0;
    SquareOrder(1.0, k);
    var g2, i2 := g * g, iW * iW;
    SquareIsPos(g, g2);
    assert k * k == i2 * g2;
    DivLe(1.0, g2, i2);
    assert (1.0 / g2 <= i2);
    MulMono(1.0, W, iW);
    SquareOrder(iW, 1.0);
  }

  lemma ReciprocalPair(W: real, iW: real)
    requires iW * W == 1.0 && W >= 1.0 && iW > 0.0
    ensures Ratio(1.0, iW) == W && Ratio(1.0, W) == iW && Ratio(W, 1.0 + W) == W / (1.0 + W)
  {
    DivIs(1.0, iW, W);
    DivIs(1.0, W, iW);
  }

  /** sqrt(1 - V) is 1 / W. */
  lemma InverseLorentz(sqrt: real -> real, V: real, iW: real)
    requires IsSqrt(sqrt) && iW > 0.0 && V == 1.0 - iW * iW
    ensures sqrt(1.0 - V) == iW
  {
    SqrtOfSquare(sqrt, iW);
  }

  lemma TrialEnergy(mu: real, qbar: real, rbar: real, V: real, W: real, iW: real, eps: real)
    requires W >= 1.0 && iW * W == 1.0 && V == 1.0 - iW * iW && iW > 0.0
    requires 1.0 + qbar - mu * rbar == (1.0 + eps) * iW
    ensures SieTrial(mu, qbar, rbar, V, W) == eps
  {
    ReciprocalPair(W, iW);
    var y := qbar - mu * rbar;
    EnergyTrial(W, iW, V, eps, y);
  }

  /** Once its parts are known the state is known. */
  lemma StateIs(p: Problem, mu: real, x: real, rbar: real, qbar: real, V: real, iW: real, W: real, rho: real,
                eps: real)
    requires p.Admissible()
    requires x == p.X(mu) && rbar == p.RbarSq(mu, x) && qbar == p.Qbar(mu, x)
    requires VsqTrial(mu, rbar) == V && V <= p.V0sq()
    requires p.env.sqrt(1.0 - V) == iW && Ratio(1.0, iW) == W && Ratio(1.0, W) == iW
    requires p.D * iW == rho && rho > p.env.RhoFloor()
    requires SieTrial(mu, qbar, rbar, V, W) == eps && p.env.SieFloor(rho, p.ye) < eps <= p.env.sieMax
    ensures p.State(mu) == Hat(x, rbar, qbar, V, iW, W, rho, eps, Flags(false, false, false, false))
  {
    hide Problem.X, Problem.RbarSq, Problem.Qbar, Problem.V0sq, VsqTrial, SieTrial, Ratio, Env.SieFloor;
  }

  /** A fluid state in its own terms: iW W == 1, V = v^2, D = rho W, e = rho h, z = e W^2. */
  ghost predicate FluidState(rho: real, eps: real, prs: real, W: real, iW: real, V: real, D: real, z: real, e: real) {
    && rho > 0.0 && iW * W == 1.0 && W >= 1.0 && V == 1.0 - iW * iW
    && D == rho * W && e == rho * (1.0 + eps) + prs && z == e * W * W
  }

  /** No floor or ceiling binds and the enthalpy is at least h0. */
  ghost predicate Unfloored(p: Problem, rho: real, eps: real, prs: real, W: real) {
    && rho * (1.0 + eps) + prs >= p.h0 * rho && W <= p.env.gamMax
    && rho > p.env.RhoFloor() && p.env.SieFloor(rho, p.ye) < eps <= p.env.sieMax
  }

  /** At mu = D / z the master function sees exactly the true state, with no floor, ceiling or
      velocity cap active; and this mu lies inside the search interval. */
  lemma StateAtRoot(p: Problem, rho: real, eps: real, prs: real, W: real, iW: real, V: real, Q: real, N: real,
                    D: real, z: real, e: real, mu: real)
    requires p.Admissible() && Made(p, prs, V, Q, N, D, z) && FluidState(rho, eps, prs, W, iW, V, D, z, e)
    requires Unfloored(p, rho, eps, prs, W) && mu * z == D
    ensures mu > 0.0 && p.Aux(mu) <= 0.0
    ensures var x := p.X(mu);
            p.State(mu) == Hat(x, p.RbarSq(mu, x), p.Qbar(mu, x), V, iW, W, rho, eps, Flags(false, false, false, false))
  {
    var x := p.X(mu);
    var rbar, qbar := p.RbarSq(mu, x), p.Qbar(mu, x);
    FieldsAtRoot(p, prs, V, Q, N, D, z, mu, x, rbar, qbar);
    StateAtRootParts(p, rho, eps, prs, W, iW, V, Q, N, D, z, e, mu, x, rbar, qbar);
  }

  lemma StateAtRootParts(p: Problem, rho: real, eps: real, prs: real, W: real, iW: real, V: real, Q: real, N: real,
                         D: real, z: real, e: real, mu: real, x: real, rbar: real, qbar: real)
    requires p.Admissible() && Made(p, prs, V, Q, N, D, z) && FluidState(rho, eps, prs, W, iW, V, D, z, e)
    requires Unfloored(p, rho, eps, prs, W) && mu * z == D
    requires x == p.X(mu) && rbar == p.RbarSq(mu, x) && qbar == p.Qbar(mu, x)
    requires mu * mu * rbar == V && qbar * D == z - prs - D
    ensures mu > 0.0 && p.Aux(mu) <= 0.0
    ensures p.State(mu) == Hat(x, rbar, qbar, V, iW, W, rho, eps, Flags(false, false, false, false))
  {
    hide Problem.X, Problem.RbarSq, Problem.Qbar, Problem.V0sq, SieTrial, Ratio, Env.SieFloor, Problem.Aux,
         Problem.State, VelocityBound, LorentzCeiling, Prod, Sq, RsqD2;
    var h0 := p.h0;
    RootBelowInverse(rho, e, W, iW, D, z, mu, h0);
    BelowCeiling(W, iW, V, p.env.gamMax);
    InverseLorentz(p.env.sqrt, V, iW);
    ReciprocalPair(W, iW);
    EnergyBalance(rho, eps, prs, W, iW, V, D, z, mu, rbar, qbar, e);
    TrialEnergy(mu, qbar, rbar, V, W, iW, eps);
    InsideInterval(p, mu, rbar, V, iW);
    StateIs(p, mu, x, rbar, qbar, V, iW, W, rho, eps);
  }

  lemma InsideInterval(p: Problem, mu: real, rbar: real, V: real, iW: real)
    requires p.Admissible() && mu > 0.0 && rbar == p.RbarSq(mu, p.X(mu))
    requires 0.0 <= Prod(mu, p.h0) <= iW && V == 1.0 - iW * iW && mu * mu * rbar == V
    requires V <= LorentzCeiling(p.env.gamMax)
    ensures VsqTrial(mu, rbar) == V && V <= p.V0sq() && p.Aux(mu) <= 0.0
  {
    hide Problem.X, Problem.RbarSq, Problem.Aux, VelocityBound, LorentzCeiling, Prod;
    RbarBounds(p, mu);
    var m := Prod(mu, p.h0);
    SquareOrder(m, iW);
    assert Sq(m) == m * m;
    AuxSquared(p, mu, rbar);
    BelowAux(p.h0, p.rsq, rbar, mu, p.env.gamMax);
  }

  // ---------- the residual at the root ----------

  /** The guarded ratio a = p / max(e, EPS) recovers p exactly when the guard is idle or p == 0. */
  lemma GuardedRatio(prs: real, e: real, a: real)
    requires a == prs / MakePositive(e)
    ensures a * e == prs <==> e >= EPS || prs == 0.0
  {
    var m := MakePositive(e);
    assert a * m == prs;
    if e < EPS {
      assert (m - e) * a == prs - a * e;
      if a * e == prs {
        assert (m - e) * a == 0.0;
        assert a == 0.0;
      }
    }
  }

  /** Both branches of nu agree at the root. */
  lemma NuAgrees(a: real, eps: real, iW: real, qbar: real, mu: real, rbar: real)
    requires 1.0 + qbar - mu * rbar == (1.0 + eps) * iW
    ensures NuHat(a, eps, iW, qbar, mu, rbar) == (1.0 + a) * (1.0 + eps) * iW
  {
    var y := 1.0 + qbar - mu * rbar;
    calc {
      (1.0 + a) * y;
      (1.0 + a) * ((1.0 + eps) * iW);
      (1.0 + a) * (1.0 + eps) * iW;
    }
  }

  /** The master function vanishes at mu = D / z, unless the guard on the energy density bites. */
  lemma ValueAtRoot(p: Problem, rho: real, eps: real, prs: real, W: real, iW: real, V: real, Q: real, N: real,
                    D: real, z: real, e: real, mu: real)
    requires p.Admissible() && Made(p, prs, V, Q, N, D, z) && FluidState(rho, eps, prs, W, iW, V, D, z, e)
    requires Unfloored(p, rho, eps, prs, W) && mu * z == D && prs == p.env.pressure(rho, eps, p.ye)
    ensures mu > 0.0 && (p.Value(mu) == 0.0 <==> rho * (1.0 + eps) >= EPS || prs == 0.0)
  {
    var x := p.X(mu);
    var rbar, qbar := p.RbarSq(mu, x), p.Qbar(mu, x);
    FieldsAtRoot(p, prs, V, Q, N, D, z, mu, x, rbar, qbar);
    StateAtRootParts(p, rho, eps, prs, W, iW, V, Q, N, D, z, e, mu, x, rbar, qbar);
    ValueAtRootParts(p, rho, eps, prs, W, iW, V, D, z, e, mu, x, rbar, qbar);
  }

  lemma ValueAtRootParts(p: Problem, rho: real, eps: real, prs: real, W: real, iW: real, V: real, D: real, z: real,
                         e: real, mu: real, x: real, rbar: real, qbar: real)
    requires p.Admissible() && mu > 0.0 && D > 0.0 && z > 0.0 && mu * z == D
    requires FluidState(rho, eps, prs, W, iW, V, D, z, e) && prs == p.env.pressure(rho, eps, p.ye)
    requires mu * mu * rbar == V && qbar * D == z - prs - D
    requires p.State(mu) == Hat(x, rbar, qbar, V, iW, W, rho, eps, Flags(false, false, false, false))
    ensures p.Value(mu) == 0.0 <==> rho * (1.0 + eps) >= EPS || prs == 0.0
  {
    hide Problem.State, Problem.Value, NuHat, Env.AHat, MakePositive, Prod;
    EnergyBalance(rho, eps, prs, W, iW, V, D, z, mu, rbar, qbar, e);
    var a := p.env.AHat(rho, eps, p.ye);
    var k := 1.0 + eps;
    var internal := rho * k;
    AHatIs(p.env, rho, eps, p.ye, prs, internal);
    GuardedRatio(prs, internal, a);
    NuAgrees(a, eps, iW, qbar, mu, rbar);
    var nu := NuHat(a, eps, iW, qbar, mu, rbar);
    var den := p.Denominator(mu);
    MasterAtRoot(internal, prs, iW, V, D, z, mu, rbar, a, nu, rho, k, den);
    ProdIs(mu, den);
    ValueSign(p, mu, den, Prod(mu, den));
  }

  lemma ProdIs(a: real, b: real)
    ensures Prod(a, b) == a * b
  {
  }

  lemma AHatIs(env: Env, rho: real, eps: real, ye: real, prs: real, e: real)
    requires prs == env.pressure(rho, eps, ye) && e == rho * (1.0 + eps)
    ensures env.AHat(rho, eps, ye) == prs / MakePositive(e)
  {
  }

  // ---------- from the conserved variables to the scalars ----------

  lemma MomentumRatio(gdet: real, D: real, zQ: real, N: real, v: real, B: real, sr: real, tr: real, m: real, S: real,
                      cD: real)
    requires gdet > 0.0 && D > 0.0 && sr * D == zQ && tr * D == -N
    requires m == zQ * v + -N * B && S == gdet * m && cD == gdet * D
    ensures Ratio(S, cD) == sr * v + tr * B
  {
    MulPos(gdet, D);
    var r := sr * v + tr * B;
    calc {
      r * D;
      (sr * D) * v + (tr * D) * B;
      m;
    }
    calc {
      r * cD;
      gdet * (r * D);
      gdet * m;
      S;
    }
    DivIs(S, cD, r);
  }

  /** The covariant momentum per mass is the lowered vector sr v + tr B, sr = (z + Q) / D, tr = -N / D. */
  lemma MomentumPerMass(gdet: real, D: real, zQ: real, N: real, v: Vec, B: Vec, sr: real, tr: real, S: Vec, cD: real)
    requires gdet > 0.0 && D > 0.0 && sr * D == zQ && tr * D == -N
    requires S == Scale(gdet, Add(Scale(zQ, v), Scale(-N, B))) && cD == gdet * D
    ensures Vec(Ratio(S.c0, cD), Ratio(S.c1, cD), Ratio(S.c2, cD)) == Add(Scale(sr, v), Scale(tr, B))
  {
    hide *;
    var m := Add(Scale(zQ, v), Scale(-N, B));
    CombinationParts(zQ, v, -N, B, m);
    ScaleParts(gdet, m);
    MomentumRatio(gdet, D, zQ, N, v.c0, B.c0, sr, tr, m.c0, S.c0, cD);
    MomentumRatio(gdet, D, zQ, N, v.c1, B.c1, sr, tr, m.c1, S.c1, cD);
    MomentumRatio(gdet, D, zQ, N, v.c2, B.c2, sr, tr, m.c2, S.c2, cD);
    CombinationParts(sr, v, tr, B, Vec(Ratio(S.c0, cD), Ratio(S.c1, cD), Ratio(S.c2, cD)));
  }

  lemma ScaleParts(s: real, a: Vec)
    ensures Scale(s, a).c0 == s * a.c0 && Scale(s, a).c1 == s * a.c1 && Scale(s, a).c2 == s * a.c2
  {
  }

  /** Raising it gives the same combination of v and B; its square is r^2. */
  lemma RaisedMomentum(g: Geom, v: Vec, B: Vec, sr: real, tr: real, rcov: Vec, V: real, Q: real, N: real)
    requires IsMetric(g.gcov, g.gcon)
    requires rcov == Add(Scale(sr, Apply(g.gcov, v)), Scale(tr, Apply(g.gcov, B)))
    requires V == Inner(g.gcov, v, v) && Q == Inner(g.gcov, B, B) && N == Inner(g.gcov, B, v)
    ensures var r := Add(Scale(sr, v), Scale(tr, B));
            && rcov == Apply(g.gcov, r) && Apply(g.gcon, rcov) == r
            && Dot(r, rcov) == sr * sr * V + 2.0 * sr * tr * N + tr * tr * Q
            && Inner(g.gcov, B, r) == sr * N + tr * Q
  {
    hide Apply, Dot, Add, Scale;
    ApplyLinear(g.gcov, v, sr, B, tr);
    InnerSquare(g.gcov, v, sr, B, tr);
    InnerSymmetric(g.gcov, v, B);
    InnerLinear(g.gcov, B, v, sr, B, tr);
  }

  lemma RsqScaled(sr: real, tr: real, D: real, z: real, Q: real, V: real, N: real, rsq: real, zQ: real)
    requires sr * D == zQ && tr * D == -N && zQ == z + Q
    requires rsq == sr * sr * V + 2.0 * sr * tr * N + tr * tr * Q
    ensures rsq * (D * D) == RsqD2(z, V, Q, N)
  {
    calc {
      rsq * (D * D);
      (sr * D) * (sr * D) * V + 2.0 * (sr * D) * (tr * D) * N + (tr * D) * (tr * D) * Q;
      zQ * zQ * V - 2.0 * zQ * N * N + N * N * Q;
      RsqD2(z, V, Q, N);
    }
  }

  /** (b.r)^2 D^3 == z^2 N^2 and b^2 D == Q for b = B / sqrt(D). */
  lemma FieldScaled(sD: real, sr: real, tr: real, D: real, z: real, Q: real, N: real, zQ: real, bdotr: real,
                    bsq: real, rbsq: real)
    requires D > 0.0 && sD * sD * D == 1.0 && sr * D == zQ && tr * D == -N && zQ == z + Q
    requires bdotr == sD * (sr * N + tr * Q) && bsq == sD * sD * Q && rbsq == bdotr * bdotr
    ensures bsq * D == Q && rbsq * (D * D * D) == z * z * N * N
    ensures bdotr * D == sD * (z * N)
  {
    var k := sr * N + tr * Q;
    calc {
      k * D;
      (sr * D) * N + (tr * D) * Q;
      z * N;
    }
    calc {
      bdotr * D;
      sD * (k * D);
      sD * (z * N);
    }
    calc {
      bsq * D;
      Q * (sD * sD * D);
      Q;
    }
    calc {
      rbsq * (D * D * D);
      (bdotr * D) * (bdotr * D) * D;
      (sD * (z * N)) * (sD * (z * N)) * D;
      z * z * N * N * (sD * sD * D);
      z * z * N * N;
    }
  }

  lemma FieldScaleIs(env: Env, D: real)
    requires IsSqrt(env.sqrt) && D > 0.0 && D >= env.RhoFloor()
    ensures var sD := FieldScale(env, D); sD > 0.0 && sD * sD * D == 1.0
  {
    var r := env.sqrt(D);
    assert r * r == D;
    assert r != 0.0;
    var sD := FieldScale(env, D);
    assert sD == 1.0 / r;
    DivPos(1.0, r);
    assert sD * r == 1.0;
    calc {
      sD * sD * D;
      sD * sD * (r * r);
      (sD * r) * (sD * r);
      1.0;
    }
  }

  /** tau / D and D, undensitized. */
  lemma EnergyRatio(gdet: real, igdet: real, X: real, D: real, ctau: real, cD: real)
    requires gdet > 0.0 && igdet * gdet == 1.0 && ctau == gdet * X && cD == gdet * D && D > 0.0
    ensures Prod(cD, igdet) == D && Prod(ctau, igdet) == X && Ratio(X, D) * D == X
  {
    calc { cD * igdet; (igdet * gdet) * D; D; }
    calc { ctau * igdet; (igdet * gdet) * X; X; }
  }

  /** The Valencia variables of a primitive state in the scalars used here. */
  lemma ValenciaParts(g: Geom, q: Prim, W: real, iW: real, v: Vec, e: real, V: real, Q: real, N: real, D: real,
                      z: real, zQ: real, X: real)
    requires W >= 1.0 && iW == 1.0 / W && v == Scale(iW, q.vp)
    requires Q == Inner(g.gcov, q.b, q.b) && N == Inner(g.gcov, q.b, v)
    requires e == q.rho + q.u + q.p && z == e * W * W && zQ == z + Q && D == q.rho * W && V == 1.0 - iW * iW
    requires X == z - q.p + Q - 0.5 * (Q * (1.0 - V) + N * N) - D
    ensures var c := Valencia(g, q, W);
            && c.S == Scale(g.gdet, Add(Scale(zQ, Apply(g.gcov, v)), Scale(-N, Apply(g.gcov, q.b))))
            && c.D == g.gdet * D && c.bcons == Scale(g.gdet, q.b) && c.tau == g.gdet * X
  {
    hide Inner, Apply, Scale, Add, FieldStrength, FromProducts;
    var rho, p, bsq := q.rho, q.p, FieldStrength(Q, N, iW);
    var cD := g.gdet * rho * W;
    ProductsUnfold(g.gdet, rho, p, q.b, e, W, Apply(g.gcov, v), Apply(g.gcov, q.b), Q, N, bsq, cD, zQ);
    DensityAndEnergy(g.gdet, rho, W, D, cD, zQ, p, bsq, Q, N, V, z, X, iW);
  }

  lemma DensityAndEnergy(gdet: real, rho: real, W: real, D: real, cD: real, zQ: real, p: real, bsq: real, Q: real,
                         N: real, V: real, z: real, X: real, iW: real)
    requires D == rho * W && cD == gdet * rho * W && zQ == z + Q && bsq == FieldStrength(Q, N, iW) && V == 1.0 - iW * iW
    requires X == z - p + Q - 0.5 * (Q * (1.0 - V) + N * N) - D
    ensures cD == gdet * D && gdet * (zQ - p - 0.5 * bsq - rho * W) == gdet * X
  {
    assert bsq == Q * (1.0 - V) + N * N;
    assert zQ - p - 0.5 * bsq - rho * W == X;
  }

  /** The coefficients that relate the recovery's vectors to v and B. */
  ghost predicate Coefficients(D: real, zQ: real, N: real, sr: real, tr: real) {
    sr * D == zQ && tr * D == -N
  }

  /** r and the energy of what p2c wrote. */
  lemma SetupMomentum(env: Env, g: Geom, q: Prim, W: real, iW: real, v: Vec, e: real, V: real, Q: real, N: real,
                      D: real, z: real, hasB: bool, h0: real, ye: real, sr: real, tr: real, c: Cons, s: Setup,
                      rcov: Vec)
    requires W >= 1.0 && iW == 1.0 / W && v == Scale(iW, q.vp)
    requires g.Is3Plus1() && c == Valencia(g, q, W) && s == SetupOf(env, g, c, hasB, h0, ye)
    requires V == Inner(g.gcov, v, v) && Q == Inner(g.gcov, q.b, q.b) && N == Inner(g.gcov, q.b, v)
    requires e == q.rho + q.u + q.p && z == e * W * W && D == q.rho * W && V == 1.0 - iW * iW
    requires D > 0.0 && Coefficients(D, z + Q, N, sr, tr)
    requires rcov == Vec(Ratio(c.S.c0, c.D), Ratio(c.S.c1, c.D), Ratio(c.S.c2, c.D))
    ensures MomentumMade(s.p, q.p, V, Q, N, D, z) && s.rcon == Add(Scale(sr, v), Scale(tr, q.b))
    ensures Prod(c.D, 1.0 / g.gdet) == D && c.bcons == Scale(g.gdet, q.b)
    ensures rcov == Apply(g.gcov, s.rcon)
    ensures Inner(g.gcov, q.b, s.rcon) == sr * N + tr * Q
  {
    hide Inner, Apply, Scale, Add, FieldScale, Ratio, Dot, Valencia, Prod, RsqD2, Sq;
    var zQ := z + Q;
    var X := z - q.p + Q - 0.5 * (Q * (1.0 - V) + N * N) - D;
    ValenciaParts(g, q, W, iW, v, e, V, Q, N, D, z, zQ, X);
    var vF, bF := Apply(g.gcov, v), Apply(g.gcov, q.b);
    var cS, cD, ctau, gdet := c.S, c.D, c.tau, g.gdet;
    MomentumPerMass(gdet, D, zQ, N, vF, bF, sr, tr, cS, cD);
    RaisedMomentum(g, v, q.b, sr, tr, rcov, V, Q, N);
    var igdet := 1.0 / gdet;
    EnergyRatio(gdet, igdet, X, D, ctau, cD);
    var rsq := s.p.rsq;
    RsqScaled(sr, tr, D, z, Q, V, N, rsq, zQ);
  }

  /** What p2c wrote is what the master function's problem is Made of. */
  lemma SetupMade(env: Env, g: Geom, q: Prim, W: real, iW: real, v: Vec, e: real, V: real, Q: real, N: real,
                  D: real, z: real, hasB: bool, h0: real, ye: real, sr: real, tr: real, c: Cons, s: Setup)
    requires W >= 1.0 && iW == 1.0 / W && v == Scale(iW, q.vp)
    requires g.Is3Plus1() && c == Valencia(g, q, W) && s == SetupOf(env, g, c, hasB, h0, ye)
    requires env.Admissible(h0, ye) && (hasB || q.b == ZERO)
    requires V == Inner(g.gcov, v, v) && Q == Inner(g.gcov, q.b, q.b) && N == Inner(g.gcov, q.b, v)
    requires e == q.rho + q.u + q.p && z == e * W * W && z > 0.0 && D == q.rho * W && V == 1.0 - iW * iW
    requires D > 0.0 && D >= env.RhoFloor() && Coefficients(D, z + Q, N, sr, tr)
    ensures Made(s.p, q.p, V, Q, N, D, z) && s.rcon == Add(Scale(sr, v), Scale(tr, q.b))
    ensures s.bu == Scale(if hasB then FieldScale(env, D) else 0.0, q.b)
    ensures hasB ==> s.bdotr * D == FieldScale(env, D) * (z * N)
  {
    hide Inner, Apply, Scale, Add, FieldScale, Ratio, Dot, Valencia, Prod, RsqD2, Sq, MomentumMade, FieldMade,
         Coefficients, SetupOf;
    var rcov := Vec(Ratio(c.S.c0, c.D), Ratio(c.S.c1, c.D), Ratio(c.S.c2, c.D));
    SetupMomentum(env, g, q, W, iW, v, e, V, Q, N, D, z, hasB, h0, ye, sr, tr, c, s, rcov);
    NormNonneg(g, q.b);
    if hasB {
      FieldOfCons(env, g, q.b, c, D, 1.0 / g.gdet, v, rcov, sr, tr, z, Q, N, z + Q, s, h0, ye);
    } else {
      ZeroField(g, v);
      NoField(env, g, c, D, z, Q, N, h0, ye, s);
      ScaleZero();
    }
  }

  lemma NormNonneg(g: Geom, b: Vec)
    requires g.Is3Plus1()
    ensures Inner(g.gcov, b, b) >= 0.0
  {
  }

  lemma ScaleZero()
    ensures Scale(0.0, ZERO) == ZERO
  {
  }

  lemma ZeroField(g: Geom, v: Vec)
    ensures Inner(g.gcov, ZERO, ZERO) == 0.0 && Inner(g.gcov, ZERO, v) == 0.0
  {
  }

  lemma NoField(env: Env, g: Geom, c: Cons, D: real, z: real, Q: real, N: real, h0: real, ye: real, s: Setup)
    requires g.gdet != 0.0 && s == SetupOf(env, g, c, false, h0, ye) && Q == 0.0 && N == 0.0
    ensures FieldMade(s.p, Q, N, D, z) && s.bu == ZERO
  {
  }

  lemma FieldOfCons(env: Env, g: Geom, b: Vec, c: Cons, D: real, igdet: real, v: Vec, rcov: Vec, sr: real, tr: real,
                    z: real, Q: real, N: real, zQ: real, s: Setup, h0: real, ye: real)
    requires g.Is3Plus1() && IsSqrt(env.sqrt) && D > 0.0 && D >= env.RhoFloor()
    requires igdet == 1.0 / g.gdet && c.bcons == Scale(g.gdet, b) && Prod(c.D, igdet) == D
    requires rcov == Vec(Ratio(c.S.c0, c.D), Ratio(c.S.c1, c.D), Ratio(c.S.c2, c.D))
    requires rcov == Apply(g.gcov, Add(Scale(sr, v), Scale(tr, b)))
    requires Inner(g.gcov, b, Add(Scale(sr, v), Scale(tr, b))) == sr * N + tr * Q
    requires Q == Inner(g.gcov, b, b) && Q >= 0.0 && Coefficients(D, zQ, N, sr, tr) && zQ == z + Q
    requires s == SetupOf(env, g, c, true, h0, ye)
    ensures FieldMade(s.p, Q, N, D, z)
    ensures s.bu == Scale(FieldScale(env, D), b) && s.bdotr * D == FieldScale(env, D) * (z * N)
  {
    hide Inner, Apply, Scale, Add, FieldScale, Ratio, Dot, Prod, Sq;
    var sD := FieldScale(env, D);
    FieldScaleIs(env, D);
    Undensitize(g.gdet, igdet, b);
    var r := Add(Scale(sr, v), Scale(tr, b));
    ScaledField(g, sD, b, r);
    var bsq, rbsq, bdotr, rsq := s.p.bsq, s.p.rbsq, s.bdotr, s.p.rsq;
    SqIs(bdotr);
    ProdIs(bsq, rsq);
    SquareNonneg(sD);
    var k := sD * sD;
    MulNonneg(k, Q);
    FieldScaled(sD, sr, tr, D, z, Q, N, zQ, bdotr, bsq, rbsq);
  }

  lemma SqIs(a: real)
    ensures Sq(a) == a * a
  {
  }

  lemma Undensitize(gdet: real, igdet: real, b: Vec)
    requires gdet != 0.0 && igdet == 1.0 / gdet
    ensures Scale(igdet, Scale(gdet, b)) == b
  {
    assert igdet * gdet == 1.0;
    UndensitizeOne(gdet, igdet, b.c0);
    UndensitizeOne(gdet, igdet, b.c1);
    UndensitizeOne(gdet, igdet, b.c2);
  }

  lemma UndensitizeOne(gdet: real, igdet: real, x: real)
    requires igdet * gdet == 1.0
    ensures igdet * (gdet * x) == x
  {
    assert igdet * (gdet * x) == (igdet * gdet) * x;
  }

  lemma ScaledField(g: Geom, sD: real, b: Vec, r: Vec)
    requires Symmetric(g.gcov)
    ensures Inner(g.gcov, Scale(sD, b), Scale(sD, b)) == sD * sD * Inner(g.gcov, b, b)
    ensures Dot(Scale(sD, b), Apply(g.gcov, r)) == sD * Inner(g.gcov, b, r)
  {
    hide Apply;
    DotScale(sD, b, Apply(g.gcov, r));
    InnerScale(g.gcov, sD, b);
  }

  lemma DotScale(s: real, a: Vec, b: Vec)
    ensures Dot(Scale(s, a), b) == s * Dot(a, b)
  {
  }

  // ---------- the velocity ----------

  lemma FieldVelocity(mu: real, z: real, D: real, N: real, sD: real, bdotr: real, B: real, bu: real, mubb: real)
    requires mu * z == D && sD * sD * D == 1.0 && D > 0.0 && bdotr * D == sD * (z * N) && bu == sD * B
    requires mubb == (mu * bdotr) * bu
    ensures mubb * D == N * B
  {
    calc {
      mubb * D;
      mu * (bdotr * D) * bu;
      mu * (sD * (z * N)) * (sD * B);
      (mu * z) * (sD * sD) * (N * B);
      (sD * sD * D) * (N * B);
      N * B;
    }
  }

  /** k (r + y), one component of the stored velocity. */
  function Boosted(k: real, r: real, y: real): real { k * (r + y) }

  lemma VelocityPart(z: real, D: real, Q: real, N: real, mu: real, x: real, W: real, iW: real, sr: real, tr: real,
                     v: real, vp: real, B: real, mubb: real, r: real, k: real)
    requires z > 0.0 && D > 0.0 && Q >= 0.0 && mu * z == D && x * (z + Q) == z && iW * W == 1.0
    requires Coefficients(D, z + Q, N, sr, tr) && r == Comb(sr, v, tr, B) && Prod(mubb, D) == Prod(N, B)
    requires v == Prod(iW, vp) && k == Prod(Prod(W, mu), x)
    ensures Boosted(k, r, mubb) == vp
  {
    calc {
      r * D;
      (sr * D) * v + (tr * D) * B;
      (z + Q) * v - N * B;
    }
    VelocityAtRoot(z, D, Q, N, mu, x, W, r, v, B, mubb);
    calc {
      W * v;
      (iW * W) * vp;
      vp;
    }
  }

  /** The stored velocity at the root is W v, the primitive velocity itself. */
  lemma VelocityRecovered(q: Prim, s: Setup, h: Hat, z: real, D: real, Q: real, N: real, mu: real, x: real, W: real,
                          iW: real, sr: real, tr: real, v: Vec, sD: real)
    requires z > 0.0 && D > 0.0 && Q >= 0.0 && mu * z == D && x * (z + Q) == z && iW * W == 1.0
    requires Coefficients(D, z + Q, N, sr, tr) && v == Scale(iW, q.vp) && h.W == W && h.x == x
    requires s.rcon == Add(Scale(sr, v), Scale(tr, q.b)) && FieldKnown(s, q.b, sD, D, z, N)
    ensures StoredVelocity(s, mu, h) == q.vp
  {
    hide *;
    var k := Prod(Prod(W, mu), x);
    var m := Prod(mu, s.bdotr);
    var B := q.b;
    var y := Scale(m, s.bu);
    StoredParts(s, mu, h, W, x, k, m, y);
    ScaleProd(iW, q.vp);
    CombParts(sr, v, tr, B, s.rcon);
    FieldTerm(s, mu, z, D, N, sD, B, m, y);
    VelocityPart(z, D, Q, N, mu, x, W, iW, sr, tr, v.c0, q.vp.c0, B.c0, y.c0, s.rcon.c0, k);
    VelocityPart(z, D, Q, N, mu, x, W, iW, sr, tr, v.c1, q.vp.c1, B.c1, y.c1, s.rcon.c1, k);
    VelocityPart(z, D, Q, N, mu, x, W, iW, sr, tr, v.c2, q.vp.c2, B.c2, y.c2, s.rcon.c2, k);
  }

  /** The scaled field, or no field at all. */
  ghost predicate FieldKnown(s: Setup, b: Vec, sD: real, D: real, z: real, N: real) {
    || (s.bu == Scale(sD, b) && sD * sD * D == 1.0 && s.bdotr * D == sD * (z * N))
    || (s.bu == ZERO && b == ZERO)
  }

  lemma ScaleProd(s: real, a: Vec)
    ensures Scale(s, a).c0 == Prod(s, a.c0) && Scale(s, a).c1 == Prod(s, a.c1) && Scale(s, a).c2 == Prod(s, a.c2)
  {
  }

  lemma FieldTerm(s: Setup, mu: real, z: real, D: real, N: real, sD: real, B: Vec, m: real, y: Vec)
    requires mu * z == D && D > 0.0 && m == Prod(mu, s.bdotr) && y == Scale(m, s.bu)
    requires FieldKnown(s, B, sD, D, z, N)
    ensures Prod(y.c0, D) == Prod(N, B.c0) && Prod(y.c1, D) == Prod(N, B.c1) && Prod(y.c2, D) == Prod(N, B.c2)
  {
    var bdotr := s.bdotr;
    if s.bu == ZERO && B == ZERO {
    } else {
      FieldVelocity(mu, z, D, N, sD, bdotr, B.c0, s.bu.c0, y.c0);
      FieldVelocity(mu, z, D, N, sD, bdotr, B.c1, s.bu.c1, y.c1);
      FieldVelocity(mu, z, D, N, sD, bdotr, B.c2, s.bu.c2, y.c2);
    }
  }

  lemma StoredParts(s: Setup, mu: real, h: Hat, W: real, x: real, k: real, m: real, y: Vec)
    requires h.W == W && h.x == x && k == Prod(Prod(W, mu), x) && m == Prod(mu, s.bdotr) && y == Scale(m, s.bu)
    ensures StoredVelocity(s, mu, h) ==
            Vec(Boosted(k, s.rcon.c0, y.c0), Boosted(k, s.rcon.c1, y.c1), Boosted(k, s.rcon.c2, y.c2))
  {
    hide Scale, Prod;
    assert StoredVelocity(s, mu, h) == Scale(k, Add(s.rcon, y));
    BoostParts(k, s.rcon, y);
  }

  lemma BoostParts(k: real, r: Vec, y: Vec)
    ensures Scale(k, Add(r, y)) == Vec(Boosted(k, r.c0, y.c0), Boosted(k, r.c1, y.c1), Boosted(k, r.c2, y.c2))
  {
  }

  // ---------- the theorem ----------

  /** A primitive state the code can hold: an equation of state consistent with the recovery's calls,
      enthalpy at least h0, Lorentz factor below the ceiling, and no floor or ceiling binding. */
  ghost predicate Physical(env: Env, g: Geom, q: Prim, h0: real, ye: real) {
    && q.rho > 0.0
    && var eps := q.u / q.rho;
    && q.p == env.pressure(q.rho, eps, ye)
    && q.p == env.pressureOfTemp(q.rho, env.tempOfSie(q.rho, eps, ye), ye)
    && q.rho + q.u + q.p >= h0 * q.rho
    && LorentzFactor(env.sqrt, g.gcov, q.vp) <= env.gamMax
    && q.rho > env.RhoFloor() && env.SieFloor(q.rho, ye) < eps <= env.sieMax
  }

  /** mu = 1 / (h W). */
  function TrueMu(q: Prim, W: real): real
    requires W != 0.0 && q.rho + q.u + q.p != 0.0
  {
    q.rho * W / ((q.rho + q.u + q.p) * W * W)
  }

  /** A primitive state in the scalars of the proof: specific energy, W and 1 / W, the velocity v and its
      square V, e = rho h, z = e W^2, D = rho W, Q = B^2, N = B.v, mu = D / z, the coefficients sr and tr of
      the momentum r = sr v + tr B, and the field scale sD = 1 / sqrt(D). */
  datatype Scalars = Scalars(eps: real, W: real, iW: real, v: Vec, V: real, e: real, z: real, D: real, Q: real,
                             N: real, mu: real, sr: real, tr: real, sD: real)

  ghost predicate Measures(env: Env, g: Geom, q: Prim, k: Scalars) {
    && k.W == LorentzFactor(env.sqrt, g.gcov, q.vp) && k.W >= 1.0 && k.iW == 1.0 / k.W && k.v == Scale(k.iW, q.vp)
    && q.rho > 0.0 && k.eps == q.u / q.rho && k.e == q.rho + q.u + q.p && k.e > 0.0
    && k.V == 1.0 - k.iW * k.iW && k.V == Inner(g.gcov, k.v, k.v)
    && k.Q == Inner(g.gcov, q.b, q.b) && k.N == Inner(g.gcov, q.b, k.v)
    && k.D == q.rho * k.W && k.D >= q.rho && k.z == k.e * k.W * k.W && k.z > 0.0 && k.mu * k.z == k.D
    && Coefficients(k.D, k.z + k.Q, k.N, k.sr, k.tr) && k.sD == FieldScale(env, k.D)
  }

  lemma Measured(env: Env, g: Geom, q: Prim, W: real) returns (k: Scalars)
    requires Symmetric(g.gcov) && q.rho > 0.0 && q.rho + q.u + q.p > 0.0
    requires W == LorentzFactor(env.sqrt, g.gcov, q.vp) && W >= 1.0 && Sq(W) == 1.0 + Inner(g.gcov, q.vp, q.vp)
    ensures Measures(env, g, q, k) && k.W == W && k.mu == TrueMu(q, W)
  {
    hide Inner, Scale, LorentzFactor, FieldScale, Sq, Coefficients;
    var rho, e, iW := q.rho, q.rho + q.u + q.p, 1.0 / W;
    var v, D, z := Scale(iW, q.vp), rho * W, e * W * W;
    KinematicScalars(g, q, W, iW, v, rho, e, D, z);
    var Q, N := Inner(g.gcov, q.b, q.b), Inner(g.gcov, q.b, v);
    var mu, sr, tr := D / z, (z + Q) / D, -N / D;
    DivMul(D, z);
    CoefficientsHold(D, z, Q, N, sr, tr);
    var eps := q.u / rho;
    k := Scalars(eps, W, iW, v, 1.0 - iW * iW, e, z, D, Q, N, mu, sr, tr, FieldScale(env, D));
  }

  lemma KinematicScalars(g: Geom, q: Prim, W: real, iW: real, v: Vec, rho: real, e: real, D: real, z: real)
    requires W >= 1.0 && Sq(W) == 1.0 + Inner(g.gcov, q.vp, q.vp) && iW == 1.0 / W && v == Scale(iW, q.vp)
    requires Symmetric(g.gcov) && rho > 0.0 && e > 0.0 && D == rho * W && z == e * W * W
    ensures Inner(g.gcov, v, v) == 1.0 - iW * iW && D >= rho && D > 0.0 && z > 0.0
  {
    hide Inner, Scale;
    InnerScale(g.gcov, iW, q.vp);
    MulMono(1.0, W, rho);
    MulPos(e, W);
    MulPos(e * W, W);
    SpeedFromNorm(iW, W, Inner(g.gcov, q.vp, q.vp));
  }

  lemma SpeedFromNorm(iW: real, W: real, k: real)
    requires W >= 1.0 && iW == 1.0 / W && Sq(W) == 1.0 + k
    ensures Sq(iW) * k == 1.0 - iW * iW
  {
    DivMul(1.0, W);
    UnitFactor(1.0, iW, W);
    assert Sq(iW) * k == iW * iW * (W * W) - iW * iW;
  }

  lemma CoefficientsHold(D: real, z: real, Q: real, N: real, sr: real, tr: real)
    requires D != 0.0 && sr == (z + Q) / D && tr == -N / D
    ensures Coefficients(D, z + Q, N, sr, tr)
  {
  }

  /** Everything known about a cell that p2c filled, at mu = 1 / (h W). */
  ghost predicate Prepared(env: Env, q: Prim, s: Setup, ye: real, k: Scalars) {
    && s.p.env == env && s.p.ye == ye
    && Made(s.p, q.p, k.V, k.Q, k.N, k.D, k.z) && FluidState(q.rho, k.eps, q.p, k.W, k.iW, k.V, k.D, k.z, k.e)
    && Unfloored(s.p, q.rho, k.eps, q.p, k.W) && k.mu * k.z == k.D && k.v == Scale(k.iW, q.vp)
    && Coefficients(k.D, k.z + k.Q, k.N, k.sr, k.tr) && s.rcon == Add(Scale(k.sr, k.v), Scale(k.tr, q.b))
    && FieldKnown(s, q.b, k.sD, k.D, k.z, k.N)
    && q.p == env.pressure(q.rho, k.eps, ye)
    && q.p == env.pressureOfTemp(q.rho, env.tempOfSie(q.rho, k.eps, ye), ye)
    && q.rho * (1.0 + k.eps) == q.rho + q.u && Prod(k.eps, q.rho) == q.u
  }

  /** The conserved variables of a physical state lead to such a cell. */
  lemma ConservedPrepare(env: Env, g: Geom, q: Prim, hasB: bool, h0: real, ye: real, k: Scalars, c: Cons, s: Setup)
    requires g.Is3Plus1() && env.Admissible(h0, ye) && (hasB || q.b == ZERO) && Physical(env, g, q, h0, ye)
    requires Measures(env, g, q, k) && c == Valencia(g, q, k.W) && s == SetupOf(env, g, c, hasB, h0, ye)
    ensures Prepared(env, q, s, ye, k)
  {
    hide Valencia, SetupOf, Env.Admissible, Physical, Made, FluidState, Unfloored, Inner, Scale, Add, FieldScale, FieldKnown,
         Coefficients, LorentzFactor, IsMetric, Prod;
    SetupParts(env, g, c, hasB, h0, ye);
    FloorBelow(env, g, q, h0, ye, k.D);
    SetupMade(env, g, q, k.W, k.iW, k.v, k.e, k.V, k.Q, k.N, k.D, k.z, hasB, h0, ye, k.sr, k.tr, c, s);
    PhysicalParts(env, g, q, h0, ye, s.p, k.W, k.iW, k.V, k.D, k.z, k.e, k.eps);
    FieldKnownHolds(env, q, s, hasB, k.D, k.z, k.N, k.sD);
    EnergyPerVolume(q, k.eps);
  }

  /** What it means for the recovery to invert p2c on q: the mu is in the search interval, no floor, ceiling
      or velocity cap acts there, the master function vanishes exactly when the guard on rho (1 + eps) is idle
      (or the pressure is zero), and unwrapping returns density, velocity, energy and pressure. */
  ghost predicate Inverts(s: Setup, mu: real, q: Prim) {
    && s.p.Admissible() && mu > 0.0 && s.p.Aux(mu) <= 0.0
    && !s.p.State(mu).flags.Any()
    && (s.p.Value(mu) == 0.0 <==> q.rho + q.u >= EPS || q.p == 0.0)
    && Returns(Unwrap(s, mu), q)
  }

  predicate Returns(r: Recovered, q: Prim) {
    r.rho == q.rho && r.vel == q.vp && r.u == q.u && r.prs == q.p
  }

  /** p2c then the recovery, for every metric, field and physical primitive state. */
  lemma RecoveryInvertsP2C(env: Env, g: Geom, q: Prim, hasB: bool, h0: real, ye: real)
    requires g.Is3Plus1() && env.Admissible(h0, ye) && (hasB || q.b == ZERO) && Physical(env, g, q, h0, ye)
    ensures var W := LorentzFactor(env.sqrt, g.gcov, q.vp);
            && W >= 1.0 && q.rho + q.u + q.p > 0.0
            && Inverts(SetupOf(env, g, Valencia(g, q, W), hasB, h0, ye), TrueMu(q, W), q)
  {
    hide *;
    GeomPositive(g);
    MetricSymmetric(g);
    EnvSqrt(env, h0, ye);
    PositiveNorm(g, q.vp);
    PhysicalPositive(env, g, q, h0, ye);
    LorentzFactorAtLeastOne(env.sqrt, g.gcov, q.vp);
    var W := LorentzFactor(env.sqrt, g.gcov, q.vp);
    var k := Measured(env, g, q, W);
    var c := Valencia(g, q, W);
    var s := SetupOf(env, g, c, hasB, h0, ye);
    SetupAdmissible(env, g, c, hasB, h0, ye);
    ConservedPrepare(env, g, q, hasB, h0, ye, k, c, s);
    Defined(s.p);
    RootOfPrepared(env, q, s, ye, k);
    UnwrapPrepared(env, q, s, ye, k, s.p.X(k.mu), s.p.State(k.mu));
    NoFlags();
    InvertsIs(s, k.mu, q);
  }

  /** Without a field r is the momentum per mass: r^2 = h^2 (W^2 - 1). */
  lemma MomentumOf(env: Env, g: Geom, q: Prim, h0: real, ye: real, W: real, s: Setup, h: real)
    requires q.rho > 0.0 && h == (q.rho + q.u + q.p) / q.rho
    requires W > 0.0 && W == LorentzFactor(env.sqrt, g.gcov, q.vp) && g.gdet != 0.0
    requires s == SetupOf(env, g, Valencia(g, q, W), false, h0, ye)
    requires g.Is3Plus1() && env.Admissible(h0, ye) && q.b == ZERO && Physical(env, g, q, h0, ye)
    ensures s.p.bsq == 0.0 && s.p.rbsq == 0.0 && s.p.D == Prod(q.rho, W) && W >= 1.0
    ensures s.p.rsq == Prod(Sq(h), Sq(W) - 1.0)
  {
    hide *;
    MetricSymmetric(g);
    EnvSqrt(env, h0, ye);
    PositiveNorm(g, q.vp);
    PhysicalPositive(env, g, q, h0, ye);
    LorentzFactorAtLeastOne(env.sqrt, g.gcov, q.vp);
    var k := Measured(env, g, q, W);
    var c := Valencia(g, q, W);
    ConservedPrepare(env, g, q, false, h0, ye, k, c, s);
    NoFieldSetup(env, g, q, c, h0, ye, k, s);
    PreparedParts(env, q, s, ye, k);
    MadeParts(s.p, q.p, k.V, k.Q, k.N, k.D, k.z);
    MadeMomentum(s.p, q.p, k);
    MeasuredParts(env, g, q, k);
    MomentumFromEnthalpy(q.rho, q.rho + q.u + q.p, W, k.iW, h, k.D, k.z, k.V, s.p.rsq);
  }

  lemma NoFieldSetup(env: Env, g: Geom, q: Prim, c: Cons, h0: real, ye: real, k: Scalars, s: Setup)
    requires q.b == ZERO && g.gdet != 0.0 && s == SetupOf(env, g, c, false, h0, ye) && Measures(env, g, q, k)
    ensures s.p.bsq == 0.0 && s.p.rbsq == 0.0 && k.Q == 0.0 && k.N == 0.0
  {
    hide Inner, Apply, Scale, Ratio, Dot, Prod, Coefficients, LorentzFactor, FieldScale;
    NoFieldProducts(g.gcov, k.v);
  }

  lemma MadeMomentum(p: Problem, prs: real, k: Scalars)
    requires Made(p, prs, k.V, k.Q, k.N, k.D, k.z) && k.Q == 0.0 && k.N == 0.0
    ensures p.D == k.D && Prod(p.rsq, Sq(k.D)) == Prod(Sq(k.z), k.V)
  {
  }

  lemma MeasuredParts(env: Env, g: Geom, q: Prim, k: Scalars)
    requires Measures(env, g, q, k)
    ensures k.W >= 1.0 && Prod(k.W, k.iW) == 1.0 && k.V == 1.0 - Sq(k.iW) && k.D == Prod(q.rho, k.W)
    ensures k.z == Prod(q.rho + q.u + q.p, Sq(k.W))
  {
    hide Inner, Scale, LorentzFactor, FieldScale, Coefficients;
    DivMul(1.0, k.W);
  }

  lemma MomentumFromEnthalpy(rho: real, e: real, W: real, iW: real, h: real, D: real, z: real, V: real, rsq: real)
    requires rho > 0.0 && h == e / rho && W >= 1.0 && Prod(W, iW) == 1.0 && V == 1.0 - Sq(iW)
    requires D == Prod(rho, W) && z == Prod(e, Sq(W)) && Prod(rsq, Sq(D)) == Prod(Sq(z), V)
    ensures rsq == Prod(Sq(h), Sq(W) - 1.0)
  {
    hide *;
    DivProd(e, rho);
    FactorOut(rho, e, W, iW, h, D, z, V);
    SameFactor(rsq, Prod(Sq(h), Sq(W) - 1.0), rho, W, D);
  }

  lemma FactorOut(rho: real, e: real, W: real, iW: real, h: real, D: real, z: real, V: real)
    requires Prod(h, rho) == e && Prod(W, iW) == 1.0 && V == 1.0 - Sq(iW) && D == Prod(rho, W) && z == Prod(e, Sq(W))
    ensures Prod(Sq(z), V) == Prod(Prod(Sq(h), Sq(W) - 1.0), Sq(D))
  {
    var w := Sq(W);
    assert w * V == w - 1.0 by { assert w * Sq(iW) == (W * iW) * (W * iW); }
    assert Sq(D) == Sq(rho) * w && Sq(e) == Sq(h) * Sq(rho);
    assert Sq(z) * V == Sq(e) * w * (w * V);
    assert Sq(h) * Sq(rho) * w * (w - 1.0) == Sq(h) * (w - 1.0) * (Sq(rho) * w);
  }

  lemma SameFactor(a: real, b: real, rho: real, W: real, D: real)
    requires rho > 0.0 && W >= 1.0 && D == Prod(rho, W) && Prod(a, Sq(D)) == Prod(b, Sq(D))
    ensures a == b
  {
    MulPos(rho, W);
    SquareIsPos(D, Sq(D));
    var k := Sq(D);
    assert (a - b) * k == 0.0;
  }

  lemma InvertsIs(s: Setup, mu: real, q: Prim)
    requires s.p.Admissible() && mu > 0.0 && s.p.Aux(mu) <= 0.0
    requires s.p.h0 > 0.0 && s.p.rsq >= 0.0 && s.p.env.gamMax >= 1.0
    requires !s.p.State(mu).flags.Any() && (s.p.Value(mu) == 0.0 <==> q.rho + q.u >= EPS || q.p == 0.0)
    requires Returns(Unwrap(s, mu), q)
    ensures Inverts(s, mu, q)
  {
    hide Problem.Admissible, Problem.Aux, Problem.State, Problem.Value, Unwrap, Returns, EPS;
  }

  lemma EnvSqrt(env: Env, h0: real, ye: real)
    requires env.Admissible(h0, ye)
    ensures IsSqrt(env.sqrt)
  {
    hide IsSqrt;
  }

  lemma PhysicalPositive(env: Env, g: Geom, q: Prim, h0: real, ye: real)
    requires env.Admissible(h0, ye) && Physical(env, g, q, h0, ye)
    ensures q.rho > 0.0 && q.rho + q.u + q.p > 0.0
  {
    hide LorentzFactor, IsSqrt, Env.SieFloor, Env.RhoFloor, Env.Enthalpy;
    MulPos(h0, q.rho);
  }

  lemma RootOfPrepared(env: Env, q: Prim, s: Setup, ye: real, k: Scalars)
    requires s.p.Admissible() && Prepared(env, q, s, ye, k)
    requires s.p.h0 > 0.0 && s.p.rsq >= 0.0 && s.p.env.gamMax >= 1.0
    ensures k.mu > 0.0 && s.p.Aux(k.mu) <= 0.0
    ensures s.p.Value(k.mu) == 0.0 <==> q.rho + q.u >= EPS || q.p == 0.0
    ensures AtTruth(s.p, k, q.rho, s.p.State(k.mu))
  {
    hide Problem.Admissible, Made, FluidState, Unfloored, Scale, Add, FieldKnown, Coefficients, Problem.Aux, Problem.Value,
         Problem.State, Problem.X, Problem.RbarSq, Problem.Qbar, Prod, EPS;
    StateAtRoot(s.p, q.rho, k.eps, q.p, k.W, k.iW, k.V, k.Q, k.N, k.D, k.z, k.e, k.mu);
    ValueAtRoot(s.p, q.rho, k.eps, q.p, k.W, k.iW, k.V, k.Q, k.N, k.D, k.z, k.e, k.mu);
  }

  /** The state that the master function sees at mu is the primitive state. */
  ghost predicate AtTruth(p: Problem, k: Scalars, rho: real, h: Hat) {
    var x := p.X(k.mu);
    h == Hat(x, p.RbarSq(k.mu, x), p.Qbar(k.mu, x), k.V, k.iW, k.W, rho, k.eps, Flags(false, false, false, false))
  }

  lemma UnwrapPrepared(env: Env, q: Prim, s: Setup, ye: real, k: Scalars, x: real, h: Hat)
    requires s.p.Admissible() && Prepared(env, q, s, ye, k) && k.mu > 0.0
    requires s.p.h0 > 0.0 && s.p.rsq >= 0.0 && s.p.env.gamMax >= 1.0
    requires x == s.p.X(k.mu) && h == s.p.State(k.mu) && AtTruth(s.p, k, q.rho, h)
    ensures Returns(Unwrap(s, k.mu), q) && !h.flags.Any()
  {
    hide *;
    PreparedParts(env, q, s, ye, k);
    TruthParts(s.p, k, q.rho, h, x);
    FieldsAtRoot(s.p, q.p, k.V, k.Q, k.N, k.D, k.z, k.mu, x, s.p.RbarSq(k.mu, x), s.p.Qbar(k.mu, x));
    MadeParts(s.p, q.p, k.V, k.Q, k.N, k.D, k.z);
    VelocityRecovered(q, s, h, k.z, k.D, k.Q, k.N, k.mu, x, k.W, k.iW, k.sr, k.tr, k.v, k.sD);
    UnwrapParts(s, k.mu, h);
    ReturnsIs(Unwrap(s, k.mu), q);
  }

  lemma ReturnsIs(r: Recovered, q: Prim)
    ensures Returns(r, q) <==> r.rho == q.rho && r.vel == q.vp && r.u == q.u && r.prs == q.p
  {
  }

  lemma TruthParts(p: Problem, k: Scalars, rho: real, h: Hat, x: real)
    requires AtTruth(p, k, rho, h) && x == p.X(k.mu)
    ensures h.x == x && h.W == k.W && h.rho == rho && h.eps == k.eps && !h.flags.Any()
  {
    hide Problem.X, Problem.RbarSq, Problem.Qbar;
  }

  lemma PreparedParts(env: Env, q: Prim, s: Setup, ye: real, k: Scalars)
    requires Prepared(env, q, s, ye, k)
    ensures s.p.env == env && s.p.ye == ye && Made(s.p, q.p, k.V, k.Q, k.N, k.D, k.z)
    ensures k.iW * k.W == 1.0 && k.mu * k.z == k.D && k.v == Scale(k.iW, q.vp)
    ensures Coefficients(k.D, k.z + k.Q, k.N, k.sr, k.tr) && s.rcon == Add(Scale(k.sr, k.v), Scale(k.tr, q.b))
    ensures FieldKnown(s, q.b, k.sD, k.D, k.z, k.N)
    ensures q.p == env.pressureOfTemp(q.rho, env.tempOfSie(q.rho, k.eps, ye), ye) && Prod(k.eps, q.rho) == q.u
  {
    hide Made, Unfloored, Scale, Add, FieldKnown, Coefficients, Prod;
  }

  lemma FloorBelow(env: Env, g: Geom, q: Prim, h0: real, ye: real, D: real)
    requires Physical(env, g, q, h0, ye) && D >= q.rho
    ensures D > 0.0 && D >= env.RhoFloor()
  {
    hide LorentzFactor, Env.SieFloor, Env.RhoFloor;
  }

  /** What Physical says, in the terms of the lemmas about the root. */
  lemma PhysicalParts(env: Env, g: Geom, q: Prim, h0: real, ye: real, p: Problem, W: real, iW: real, V: real, D: real,
                      z: real, e: real, eps: real)
    requires Physical(env, g, q, h0, ye) && p.env == env && p.h0 == h0 && p.ye == ye
    requires W == LorentzFactor(env.sqrt, g.gcov, q.vp) && W >= 1.0 && iW == 1.0 / W && V == 1.0 - iW * iW
    requires q.rho > 0.0 && eps == q.u / q.rho && e == q.rho + q.u + q.p && D == q.rho * W && z == e * W * W
    ensures FluidState(q.rho, eps, q.p, W, iW, V, D, z, e) && Unfloored(p, q.rho, eps, q.p, W)
    ensures q.p == env.pressure(q.rho, eps, ye)
    ensures q.p == env.pressureOfTemp(q.rho, env.tempOfSie(q.rho, eps, ye), ye)
    ensures q.rho * (1.0 + eps) == q.rho + q.u
  {
    hide LorentzFactor, Env.SieFloor, Env.RhoFloor;
    assert eps * q.rho == q.u;
    var rho := q.rho;
    assert rho * (1.0 + eps) == rho + q.u;
    assert iW * W == 1.0;
  }

  lemma NoFlags()
    ensures !Flags(false, false, false, false).Any()
  {
  }

  lemma FieldKnownHolds(env: Env, q: Prim, s: Setup, hasB: bool, D: real, z: real, N: real, sD: real)
    requires IsSqrt(env.sqrt) && D > 0.0 && D >= env.RhoFloor() && sD == FieldScale(env, D)
    requires s.bu == Scale(if hasB then FieldScale(env, D) else 0.0, q.b)
    requires hasB ==> s.bdotr * D == FieldScale(env, D) * (z * N)
    requires hasB || q.b == ZERO
    ensures FieldKnown(s, q.b, sD, D, z, N)
  {
    hide FieldScale;
    FieldScaleIs(env, D);
    ScaleZero();
  }

  lemma MadeParts(p: Problem, prs: real, V: real, Q: real, N: real, D: real, z: real)
    requires Made(p, prs, V, Q, N, D, z)
    ensures z > 0.0 && D > 0.0 && Q >= 0.0
  {
  }

  lemma EnergyPerVolume(q: Prim, eps: real)
    requires q.rho > 0.0 && eps == q.u / q.rho
    ensures Prod(eps, q.rho) == q.u
  {
  }
}
