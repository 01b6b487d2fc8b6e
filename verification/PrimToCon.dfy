/** The forward map from primitive to conserved MHD variables (prim2con.hpp, Valencia form). */
module PrimToCon {
  import opened Reals
  import opened Vectors
  import opened SignalSpeeds

  /** The metric at one point: spatial block and inverse, the mixed components g_{m0},
      shift, lapse and spatial volume element. */
  datatype Geom = Geom(gcov: Mat, gcov0: Vec, gcon: Mat, beta: Vec, alpha: real, gdet: real) {
    /** The 3+1 split that every coordinate system provides. */
    ghost predicate Is3Plus1() {
      IsMetric(gcov, gcon) && gcov0 == Apply(gcov, beta) && alpha > 0.0 && gdet > 0.0
    }
  }

  /** vp is the velocity times the Lorentz factor; u the internal energy per volume. */
  datatype Prim = Prim(rho: real, vp: Vec, b: Vec, u: real, p: real)

  /** Densitized conserved variables. */
  datatype Cons = Cons(D: real, S: Vec, bcons: Vec, tau: real)

  /** GetLorentzFactor: W with W^2 == 1 + |vp|^2. */
  function LorentzFactor(sqrt: real -> real, gcov: Mat, vp: Vec): (W: real) {
    sqrt(1.0 + Inner(gcov, vp, vp))
  }

  lemma LorentzFactorAtLeastOne(sqrt: real -> real, gcov: Mat, vp: Vec)
    requires IsSqrt(sqrt) && Inner(gcov, vp, vp) >= 0.0
    ensures var W := LorentzFactor(sqrt, gcov, vp);
            W >= 1.0 && Sq(W) == 1.0 + Inner(gcov, vp, vp)
  {
    var W := LorentzFactor(sqrt, gcov, vp);
    if W < 1.0 {
      MulMono(W, 1.0, W);
    }
  }

  /** The squared speed of the largest Lorentz factor allowed. */
  function LorentzCeiling(g: real): real
    requires g != 0.0
  {
    1.0 - 1.0 / (g * g)
  }

  lemma CeilingRange(g: real)
    requires g >= 1.0
    ensures g * g >= 1.0 && 0.0 <= LorentzCeiling(g) < 1.0
  {
    SquareOrder(1.0, g);
    var g2 := g * g;
    DivLe(1.0, g2, 1.0);
    DivPos(1.0, g2);
  }

  /** b^2 = B^2 / W^2 + (B.v)^2, the field strength the fluid sees. */
  function FieldStrength(Q: real, N: real, iW: real): real { Q * iW * iW + N * N }

  lemma FieldStrengthScaled(Q: real, N: real, iW: real, W: real, bsq: real)
    requires iW * W == 1.0 && bsq == FieldStrength(Q, N, iW)
    ensures bsq * W * W == Q + N * N * W * W
  {
    UnitFactor(Q, iW, W);
  }

  /** The textbook Valencia conserved variables: with z = (rho + u + p) W^2, Q = B^2, N = B.v,
      b^2 and lowered v and B, S_m = (z + Q) v_m - N B_m and tau = z + Q - p - b^2 / 2 - D. */
  function Valencia(g: Geom, q: Prim, W: real): Cons
    requires W != 0.0
  {
    var v := Scale(1.0 / W, q.vp);
    var Q, N := Inner(g.gcov, q.b, q.b), Inner(g.gcov, q.b, v);
    FromProducts(g.gdet, q.rho, q.p, q.b, q.rho + q.u + q.p, W, Apply(g.gcov, v), Apply(g.gcov, q.b), Q, N,
                 FieldStrength(Q, N, 1.0 / W))
  }

  function FromProducts(gdet: real, rho: real, p: real, b: Vec, rhoh: real, W: real,
                        vcov: Vec, bcov: Vec, Q: real, N: real, bsq: real): Cons
  {
    Cons(gdet * rho * W,
         Scale(gdet, Add(Scale(rhoh * W * W + Q, vcov), Scale(-N, bcov))),
         Scale(gdet, b),
         gdet * (rhoh * W * W + Q - p - 0.5 * bsq - rho * W))
  }

  /** b^m, the spatial part of the comoving field, with N = B.v. */
  function ComovingField(g: Geom, b: Vec, v: Vec, N: real, W: real): Vec
    requires W != 0.0 && g.alpha != 0.0
  {
    Vec(b.c0 * (1.0 / W) + N * W * (v.c0 - g.beta.c0 / g.alpha),
        b.c1 * (1.0 / W) + N * W * (v.c1 - g.beta.c1 / g.alpha),
        b.c2 * (1.0 / W) + N * W * (v.c2 - g.beta.c2 / g.alpha))
  }

  /** The comoving field lowered with the full 4-metric: the shift cancels, leaving
      b_m = B_m / W + N W v_m. */
  lemma ShiftCancels(g: Geom, b: Vec, v: Vec, N: real, W: real)
    requires g.gcov0 == Apply(g.gcov, g.beta) && g.alpha > 0.0 && W != 0.0
    ensures Add(Scale(W * N / g.alpha, g.gcov0), Apply(g.gcov, ComovingField(g, b, v, N, W)))
            == Add(Scale(1.0 / W, Apply(g.gcov, b)), Scale(N * W, Apply(g.gcov, v)))
  {
    hide *;
    ShiftParts(g);
    var k, NW, iW := W * N / g.alpha, N * W, 1.0 / W;
    DivMul(W * N, g.alpha);
    var flow := Add(Scale(iW, b), Scale(NW, v));
    var low := Apply(g.gcov, flow);
    ComovingSplit(g, b, v, N, W, k, flow);
    ApplyLinear(g.gcov, flow, 1.0, g.beta, -k);
    ApplyLinear(g.gcov, b, iW, v, NW);
    ShiftOut(k, g.gcov0, low);
  }

  lemma ShiftParts(g: Geom)
    requires g.gcov0 == Apply(g.gcov, g.beta) && g.alpha > 0.0
    ensures g.alpha != 0.0
  {
  }

  lemma ShiftOut(k: real, t: Vec, low: Vec)
    ensures Add(Scale(k, t), Add(Scale(1.0, low), Scale(-k, t))) == low
  {
  }

  lemma ComovingSplit(g: Geom, b: Vec, v: Vec, N: real, W: real, k: real, flow: Vec)
    requires g.alpha != 0.0 && W != 0.0 && k * g.alpha == W * N && flow == Add(Scale(1.0 / W, b), Scale(N * W, v))
    ensures ComovingField(g, b, v, N, W) == Add(Scale(1.0, flow), Scale(-k, g.beta))
  {
    hide Add, Scale;
    var iW, NW := 1.0 / W, N * W;
    CombinationParts(iW, b, NW, v, flow);
    CombinationParts(1.0, flow, -k, g.beta, ComovingField(g, b, v, N, W));
    FieldSplit(b.c0, v.c0, g.beta.c0, g.alpha, k, NW, iW);
    FieldSplit(b.c1, v.c1, g.beta.c1, g.alpha, k, NW, iW);
    FieldSplit(b.c2, v.c2, g.beta.c2, g.alpha, k, NW, iW);
  }

  lemma FieldSplit(b: real, v: real, beta: real, alpha: real, k: real, NW: real, iW: real)
    requires alpha != 0.0 && k * alpha == NW
    ensures b * iW + NW * (v - beta / alpha) == 1.0 * (iW * b + NW * v) + -k * beta
  {
    var r := beta / alpha;
    assert r * alpha == beta;
    assert NW * r == k * beta;
  }

  /** (z + Q) v - N B, from the total enthalpy and the lowered comoving field b. */
  lemma MomentumAlgebra(rhoh: real, W: real, Q: real, N: real, v: real, B: real, b: real, bsq: real, iW: real,
                        rhoRel: real, b0: real, z: real)
    requires iW * W == 1.0
    requires b == iW * B + N * W * v
    requires bsq * W * W == Q + N * N * W * W
    requires rhoRel == (rhoh + bsq) * W * W && b0 == W * N && z == rhoh * W * W + Q
    ensures rhoRel * v + -b0 * b == z * v + -N * B
  {
    calc {
      b0 * b;
      (iW * W) * (N * B) + N * N * W * W * v;
      N * B + N * N * W * W * v;
    }
    calc {
      rhoRel * v;
      rhoh * W * W * v + (bsq * W * W) * v;
      rhoh * W * W * v + Q * v + N * N * W * W * v;
    }
  }

  /** sum_n a_n b^n, n < 3. */
  method Contract(a: Vec, b: Vec) returns (s: real)
    ensures s == Dot(a, b)
  {
    hide Dot, Partial;
    s := 0.0;
    PartialAll(a, b);
    for n := 0 to 3
      invariant s == Partial(a, b, n)
    {
      PartialNext(a, b, n);
      s := s + a.At(n) * b.At(n);
    }
  }

  /** Add row i of the double sum m_ij a_i b_j to s0. */
  method AddRow(row: Vec, ai: real, b: Vec, s0: real) returns (s: real)
    ensures s == s0 + ai * Dot(row, b)
  {
    hide Dot, Partial;
    s := s0;
    PartialAll(row, b);
    for j := 0 to 3
      invariant s == s0 + Prod(ai, Partial(row, b, j))
    {
      PartialNext(row, b, j);
      RowTerm(ai, Partial(row, b, j), row.At(j), b.At(j));
      s := s + row.At(j) * ai * b.At(j);
    }
  }

  lemma RowTerm(a: real, x: real, r: real, b: real)
    ensures Prod(a, x + r * b) == Prod(a, x) + r * a * b
  {
  }

  /** m_ij a^i b^j by the double loop over spatial indices. */
  method DoubleSum(m: Mat, a: Vec, b: Vec) returns (s: real)
    ensures s == Inner(m, a, b)
  {
    hide Dot, Partial, Apply;
    s := 0.0;
    ghost var mb := Apply(m, b);
    PartialAll(a, mb);
    for i := 0 to 3
      invariant s == Partial(a, mb, i)
    {
      PartialNext(a, mb, i);
      ApplyAt(m, b, i);
      s := AddRow(m.Row(i), a.At(i), b, s);
    }
  }

  /** v^2, B^2 and B.v by one double loop over spatial indices. */
  method FieldProducts(m: Mat, b: Vec, v: Vec) returns (vsq: real, Bsq: real, Bdotv: real)
    ensures vsq == Inner(m, v, v) && Bsq == Inner(m, b, b) && Bdotv == Inner(m, b, v)
  {
    hide Dot, Partial, Apply;
    vsq, Bsq, Bdotv := 0.0, 0.0, 0.0;
    ghost var mb, mv := Apply(m, b), Apply(m, v);
    PartialAll(v, mv);
    PartialAll(b, mb);
    PartialAll(b, mv);
    for i := 0 to 3
      invariant vsq == Partial(v, mv, i) && Bsq == Partial(b, mb, i) && Bdotv == Partial(b, mv, i)
    {
      PartialNext(v, mv, i);
      PartialNext(b, mb, i);
      PartialNext(b, mv, i);
      ApplyAt(m, b, i);
      ApplyAt(m, v, i);
      vsq := AddRow(m.Row(i), v.At(i), v, vsq);
      Bsq := AddRow(m.Row(i), b.At(i), b, Bsq);
      Bdotv := AddRow(m.Row(i), b.At(i), v, Bdotv);
    }
  }

  function MomentumAt(gdet: real, rhoRel: real, b0: real, vm: real, bm: real): real {
    gdet * (rhoRel * vm - b0 * bm)
  }

  lemma MomentumParts(gdet: real, rhoRel: real, b0: real, v: Vec, b: Vec)
    ensures Vec(MomentumAt(gdet, rhoRel, b0, v.c0, b.c0), MomentumAt(gdet, rhoRel, b0, v.c1, b.c1),
                MomentumAt(gdet, rhoRel, b0, v.c2, b.c2))
            == Scale(gdet, Add(Scale(rhoRel, v), Scale(-b0, b)))
  {
    assert -b0 * b.c0 == -(b0 * b.c0) && -b0 * b.c1 == -(b0 * b.c1) && -b0 * b.c2 == -(b0 * b.c2);
  }

  /** S_m = gdet * (rhoRel v_m - b0 b_m), lowering v as it goes. */
  method Momentum(g: Geom, v: Vec, rhoRel: real, b0: real, bcov: Vec) returns (S: Vec)
    ensures S == Scale(g.gdet, Add(Scale(rhoRel, Apply(g.gcov, v)), Scale(-b0, bcov)))
  {
    hide MomentumAt, Dot, Add, Scale;
    S := ZERO;
    ghost var vFlat := Apply(g.gcov, v);
    for m := 0 to 3
      invariant m > 0 ==> S.c0 == MomentumAt(g.gdet, rhoRel, b0, vFlat.c0, bcov.c0)
      invariant m > 1 ==> S.c1 == MomentumAt(g.gdet, rhoRel, b0, vFlat.c1, bcov.c1)
      invariant m > 2 ==> S.c2 == MomentumAt(g.gdet, rhoRel, b0, vFlat.c2, bcov.c2)
    {
      var vcov := Contract(g.gcov.Row(m), v);
      S := S.Set(m, MomentumAt(g.gdet, rhoRel, b0, vcov, bcov.At(m)));
    }
    MomentumParts(g.gdet, rhoRel, b0, vFlat, bcov);
  }

  /** b_m, m = 0..2: the 4-metric applied to (bcon0, bcon). */
  method LowerField(g: Geom, bcon0: real, bcon: Vec) returns (bcov: Vec)
    ensures bcov == Add(Scale(bcon0, g.gcov0), Apply(g.gcov, bcon))
  {
    bcov := ZERO;
    ghost var low := Apply(g.gcov, bcon);
    for m := 0 to 3
      invariant m > 0 ==> bcov.c0 == bcon0 * g.gcov0.c0 + low.c0
      invariant m > 1 ==> bcov.c1 == bcon0 * g.gcov0.c1 + low.c1
      invariant m > 2 ==> bcov.c2 == bcon0 * g.gcov0.c2 + low.c2
    {
      var s := Contract(g.gcov.Row(m), bcon);
      bcov := bcov.Set(m, g.gcov0.At(m) * bcon0 + s);
    }
  }

  /** The total momentum with the field stress removed, on any lowered velocity and field. */
  lemma MomentumVector(rhoh: real, W: real, Q: real, N: real, v: Vec, B: Vec, b: Vec, bsq: real, iW: real,
                       rhoRel: real, b0: real, z: real)
    requires iW * W == 1.0
    requires b == Add(Scale(iW, B), Scale(N * W, v))
    requires bsq * W * W == Q + N * N * W * W
    requires rhoRel == (rhoh + bsq) * W * W && b0 == W * N && z == rhoh * W * W + Q
    ensures Add(Scale(rhoRel, v), Scale(-b0, b)) == Add(Scale(z, v), Scale(-N, B))
  {
    hide *;
    CombinationParts(iW, B, N * W, v, b);
    MomentumAlgebra(rhoh, W, Q, N, v.c0, B.c0, b.c0, bsq, iW, rhoRel, b0, z);
    MomentumAlgebra(rhoh, W, Q, N, v.c1, B.c1, b.c1, bsq, iW, rhoRel, b0, z);
    MomentumAlgebra(rhoh, W, Q, N, v.c2, B.c2, b.c2, bsq, iW, rhoRel, b0, z);
    CombinationParts(rhoRel, v, -b0, b, Add(Scale(rhoRel, v), Scale(-b0, b)));
    CombinationParts(z, v, -N, B, Add(Scale(rhoRel, v), Scale(-b0, b)));
  }

  lemma EnergyFromComoving(gdet: real, rho: real, p: real, rhoh: real, W: real, Q: real, N: real, bsq: real,
                           rhoRel: real, b0: real, D: real, z: real)
    requires bsq * W * W == Q + N * N * W * W
    requires rhoRel == (rhoh + bsq) * W * W && b0 == W * N && D == gdet * rho * W && z == rhoh * W * W + Q
    ensures gdet * (rhoRel - (p + 0.5 * bsq) - b0 * b0) - D == gdet * (z - p - 0.5 * bsq - rho * W)
  {
    assert rhoRel - b0 * b0 == z;
  }

  lemma ProductsUnfold(gdet: real, rho: real, p: real, b: Vec, rhoh: real, W: real, vcov: Vec, bcov: Vec,
                       Q: real, N: real, bsq: real, D: real, z: real)
    requires D == gdet * rho * W && z == rhoh * W * W + Q
    ensures FromProducts(gdet, rho, p, b, rhoh, W, vcov, bcov, Q, N, bsq)
            == Cons(D, Scale(gdet, Add(Scale(z, vcov), Scale(-N, bcov))), Scale(gdet, b),
                    gdet * (z - p - 0.5 * bsq - rho * W))
  {
    hide Add, Scale;
  }

  /** The fluid whose signal speeds belong to a primitive state with Lorentz factor W. */
  function FlowOf(g: Geom, q: Prim, gam1: real, W: real): Flow
    requires W != 0.0
  {
    var v := Scale(1.0 / W, q.vp);
    Flow(q.rho + q.u + q.p, q.p, FieldStrength(Inner(g.gcov, q.b, q.b), Inner(g.gcov, q.b, v), 1.0 / W), gam1, v,
         Inner(g.gcov, v, v))
  }

  /** It has the enthalpy rho + u + p, the coordinate-free velocity vp / W, and the comoving field strength
      b^2 = (B^2 + (B.vp)^2) / W^2. */
  lemma FlowIs(g: Geom, q: Prim, gam1: real, W: real)
    requires Symmetric(g.gcov) && W > 0.0
    ensures var f := FlowOf(g, q, gam1, W);
            && f.rhoh == q.rho + q.u + q.p && f.p == q.p && f.gam1 == gam1 && Scale(W, f.v) == q.vp
            && Prod(f.vsq, W * W) == Inner(g.gcov, q.vp, q.vp)
            && Prod(f.bsq, W * W) == Inner(g.gcov, q.b, q.b) + Sq(Inner(g.gcov, q.b, q.vp))
  {
    hide Inner;
    var iW, v := 1.0 / W, Scale(1.0 / W, q.vp);
    DivMul(1.0, W);
    InnerScale(g.gcov, iW, q.vp);
    UnitScaling(g.gcov, q.b, q.vp, iW, v);
    BackAgain(q.vp.c0, iW, W);
    BackAgain(q.vp.c1, iW, W);
    BackAgain(q.vp.c2, iW, W);
    StrengthScaled(iW, W, Inner(g.gcov, q.vp, q.vp), Inner(g.gcov, q.b, q.b), Inner(g.gcov, q.b, q.vp));
  }

  lemma BackAgain(x: real, iW: real, W: real)
    requires iW * W == 1.0
    ensures W * (iW * x) == x
  {
    assert W * (iW * x) == (iW * W) * x;
  }

  lemma UnitScaling(m: Mat, b: Vec, u: Vec, s: real, v: Vec)
    requires v == Scale(s, u)
    ensures Inner(m, b, v) == s * Inner(m, b, u)
  {
    hide Dot;
    RowScaling(m.r0, u, s);
    RowScaling(m.r1, u, s);
    RowScaling(m.r2, u, s);
    var w := Apply(m, u);
    assert Apply(m, v) == Scale(s, w);
    RowScaling(b, w, s);
  }

  lemma RowScaling(a: Vec, u: Vec, s: real)
    ensures Dot(a, Scale(s, u)) == s * Dot(a, u)
  {
  }

  lemma StrengthScaled(iW: real, W: real, U: real, Q: real, N: real)
    requires iW * W == 1.0
    ensures Prod(Sq(iW) * U, W * W) == U
    ensures Prod(FieldStrength(Q, iW * N, iW), W * W) == Q + Sq(N)
  {
    UnitFactor(U, iW, W);
    UnitFactor(Q, iW, W);
    UnitFactor(Sq(N), iW, W);
    assert Sq(iW) * U * (W * W) == U * iW * iW * W * W;
    assert (iW * N) * (iW * N) * (W * W) == N * N * iW * iW * W * W;
  }

  /** sig holds the signal speeds of the state, unless the source divides by zero on the way. */
  predicate SignalsOf(sqrt: real -> real, g: Geom, f: Flow, sig: Vec) {
    f.Regular() ==> sig == Signals(sqrt, f, g.alpha, g.beta, g.gcon)
  }

  /** The kernel p2c: its component-by-component sums are the Valencia variables. */
  method P2C(g: Geom, sqrt: real -> real, q: Prim, ye: real, gam1: real) returns (c: Cons, yeCons: real, sig: Vec)
    requires g.Is3Plus1() && IsSqrt(sqrt)
    ensures LorentzFactor(sqrt, g.gcov, q.vp) >= 1.0
    ensures c == Valencia(g, q, LorentzFactor(sqrt, g.gcov, q.vp)) && yeCons == Prod(c.D, ye)
    ensures SignalsOf(sqrt, g, FlowOf(g, q, gam1, LorentzFactor(sqrt, g.gcov, q.vp)), sig)
  {
    hide Inner, Scale, Flow.Regular, Signals, LorentzFactor, ComovingField;
    LorentzFactorAtLeastOne(sqrt, g.gcov, q.vp) by { PositiveNorm(g, q.vp); }
    var W := LorentzFactor(sqrt, g.gcov, q.vp);
    var v := Scale(1.0 / W, q.vp);
    var vsq, Bsq, Bdotv := FieldProducts(g.gcov, q.b, v);
    var bcon := ComovingField(g, q.b, v, Bdotv, W);
    var bcov := LowerField(g, W * Bdotv / g.alpha, bcon);
    ShiftCancels(g, q.b, v, Bdotv, W);
    var iW := 1.0 / W;
    var bsq := FieldStrength(Bsq, Bdotv, iW);
    FieldStrengthScaled(Bsq, Bdotv, iW, W, bsq);
    c := Assemble(g, q.rho, q.p, q.b, q.rho + q.u + q.p, W, iW, v, Bsq, Bdotv, bcov, bsq);
    yeCons := Prod(c.D, ye);
    sig := SignalSpeeds.SignalSpeeds(sqrt, q.rho, q.u, q.p, bsq, v, vsq, gam1, g.alpha, g.beta, g.gcon);
  }

  lemma PositiveNorm(g: Geom, v: Vec)
    requires g.Is3Plus1()
    ensures Inner(g.gcov, v, v) >= 0.0
  {
  }

  /** The last part of p2c: D, S_m, B^m and tau from the products and the comoving field. */
  method Assemble(g: Geom, rho: real, p: real, B: Vec, rhoh: real, W: real, iW: real, v: Vec, Bsq: real,
                  Bdotv: real, bcov: Vec, bsq: real) returns (c: Cons)
    requires iW * W == 1.0
    requires bcov == Add(Scale(iW, Apply(g.gcov, B)), Scale(Bdotv * W, Apply(g.gcov, v)))
    requires bsq * W * W == Bsq + Bdotv * Bdotv * W * W
    ensures c == FromProducts(g.gdet, rho, p, B, rhoh, W, Apply(g.gcov, v), Apply(g.gcov, B), Bsq, Bdotv, bsq)
  {
    hide *;
    var gdet := g.gdet;
    var b0 := W * Bdotv;
    var rhoRel := (rhoh + bsq) * W * W;
    var D := gdet * rho * W;
    var S := Momentum(g, v, rhoRel, b0, bcov);
    var tau := gdet * (rhoRel - (p + 0.5 * bsq) - b0 * b0) - D;
    c := Cons(D, S, Scale(gdet, B), tau);
    ghost var z := rhoh * W * W + Bsq;
    MomentumVector(rhoh, W, Bsq, Bdotv, Apply(g.gcov, v), Apply(g.gcov, B), bcov, bsq, iW, rhoRel, b0, z);
    EnergyFromComoving(gdet, rho, p, rhoh, W, Bsq, Bdotv, bsq, rhoRel, b0, D, z);
    ProductsUnfold(gdet, rho, p, B, rhoh, W, Apply(g.gcov, v), Apply(g.gcov, B), Bsq, Bdotv, bsq, D, z);
  }
}
