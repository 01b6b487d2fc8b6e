/** The two ways the code limits a velocity to the Lorentz factor ceiling: in the cell repairs and at
    the faces of the Riemann solver. Velocities are the primitive ones, times the Lorentz factor. */
module Clamp {
  import opened Reals
  import opened Vectors
  import opened PrimToCon

  /** The repairs (fixup_c2p, fixup_src) and the floors: the root covers the numerator only. */
  function FixupRescale(sqrt: real -> real, gammaMax: real, W: real): real
    requires W > 1.0
  {
    SquareOrder(1.0, W);
    sqrt(gammaMax * gammaMax - 1.0) / (W * W - 1.0)
  }

  /** What the repaired velocity's Lorentz factor really is, for any moving cell the rescaling is applied to
      (the energy ceiling applies it without looking at the velocity): W'^2 - 1 is (gmax^2 - 1) / (W^2 - 1), so the
      faster the cell was, the slower it becomes. It is the ceiling exactly when W^2 == 2 (or the
      ceiling is 1), and it respects the ceiling exactly when W^2 >= 2 (or the ceiling is 1). */
  lemma FixupClamp(sqrt: real -> real, gcov: Mat, vp: Vec, gammaMax: real)
    requires IsSqrt(sqrt) && Symmetric(gcov) && Inner(gcov, vp, vp) >= 0.0
    requires LorentzFactor(sqrt, gcov, vp) > 1.0 && gammaMax >= 1.0
    ensures var W := LorentzFactor(sqrt, gcov, vp);
            var w := LorentzFactor(sqrt, gcov, Scale(FixupRescale(sqrt, gammaMax, W), vp));
            && Sq(W) > 1.0 && w >= 1.0 && Sq(w) == 1.0 + (Sq(gammaMax) - 1.0) / (Sq(W) - 1.0)
            && (w == gammaMax <==> gammaMax == 1.0 || Sq(W) == 2.0)
            && (w <= gammaMax <==> gammaMax == 1.0 || Sq(W) >= 2.0)
  {
    hide Inner, Scale;
    var W := LorentzFactor(sqrt, gcov, vp);
    LorentzFactorAtLeastOne(sqrt, gcov, vp);
    SquareOrder(1.0, W);
    SquareOrder(1.0, gammaMax);
    var f, N := FixupRescale(sqrt, gammaMax, W), Inner(gcov, vp, vp);
    var G := Sq(gammaMax) - 1.0;
    InnerScale(gcov, f, vp);
    FixupAlgebra(sqrt(G), G, N, f);
    var M := Inner(gcov, Scale(f, vp), Scale(f, vp));
    DivNonneg(G, N);
    LorentzFactorAtLeastOne(sqrt, gcov, Scale(f, vp));
    var w := LorentzFactor(sqrt, gcov, Scale(f, vp));
    SquareOrder(w, gammaMax);
    SquareOrder(gammaMax, w);
    QuotientOrder(G, N);
    if gammaMax > 1.0 { SquareOrder(1.0, gammaMax); }
  }

  /** With a ceiling of 10, a cell at Lorentz factor 20 is slowed below 1.12; with a ceiling of 1.1, one at
      1.2 is made faster. */
  lemma FixupExamples(sqrt: real -> real)
    requires IsSqrt(sqrt)
    ensures LorentzFactor(sqrt, IDENTITY, Vec(sqrt(399.0), 0.0, 0.0)) == 20.0
    ensures LorentzFactor(sqrt, IDENTITY, Scale(FixupRescale(sqrt, 10.0, 20.0), Vec(sqrt(399.0), 0.0, 0.0))) < 1.12
    ensures LorentzFactor(sqrt, IDENTITY, Vec(sqrt(0.44), 0.0, 0.0)) == 1.2
    ensures LorentzFactor(sqrt, IDENTITY, Scale(FixupRescale(sqrt, 1.1, 1.2), Vec(sqrt(0.44), 0.0, 0.0))) > 1.2
  {
    hide *;
    ExampleSquares();
    var v := AlongAxis(sqrt, 399.0, 20.0);
    FixupClamp(sqrt, IDENTITY, v, 10.0);
    var w := LorentzFactor(sqrt, IDENTITY, Scale(FixupRescale(sqrt, 10.0, 20.0), v));
    SqOrder(w, 1.12);
    var u := AlongAxis(sqrt, 0.44, 1.2);
    FixupClamp(sqrt, IDENTITY, u, 1.1);
    var y := LorentzFactor(sqrt, IDENTITY, Scale(FixupRescale(sqrt, 1.1, 1.2), u));
    SqOrder(1.2, y);
  }

  lemma ExampleSquares()
    ensures Sq(10.0) == 100.0 && Sq(20.0) == 400.0 && Sq(1.1) == 1.21 && Sq(1.2) == 1.44 && Sq(1.12) == 1.2544
    ensures 1.0 + (100.0 - 1.0) / (400.0 - 1.0) < 1.2544 && 1.0 + (1.21 - 1.0) / (1.44 - 1.0) > 1.44
  {
  }

  /** A velocity along an axis, with the Lorentz factor it has. */
  lemma AlongAxis(sqrt: real -> real, x: real, W: real) returns (v: Vec)
    requires IsSqrt(sqrt) && x >= 0.0 && W >= 0.0 && Sq(W) == 1.0 + x
    ensures v == Vec(sqrt(x), 0.0, 0.0) && LorentzFactor(sqrt, IDENTITY, v) == W
    ensures Symmetric(IDENTITY) && Inner(IDENTITY, v, v) >= 0.0
  {
    hide Apply, Dot, IsSqrt;
    v := Vec(sqrt(x), 0.0, 0.0);
    RootOf(sqrt, x);
    IdentityApplies(v);
    AxisNorm(sqrt(x));
    RootOf(sqrt, 1.0 + x);
    var t := sqrt(1.0 + x);
    SquareOrder(t, W);
    SquareOrder(W, t);
  }

  lemma FixupAlgebra(s: real, G: real, N: real, f: real)
    requires N > 0.0 && s * s == G && f == s / N
    ensures Sq(f) * N == G / N
  {
    DivMul(s, N);
    assert f * N == s;
    assert Sq(f) * N * N == s * s by { assert f * N * (f * N) == Sq(f) * N * N; }
    DivIs(G, N, Sq(f) * N);
  }

  lemma QuotientOrder(G: real, N: real)
    requires N > 0.0 && G >= 0.0
    ensures G / N == G <==> G == 0.0 || N == 1.0
    ensures G / N <= G <==> G == 0.0 || N >= 1.0
  {
    DivIs(G, N, G);
    DivLe(G, N, G);
    if G > 0.0 {
      if N < 1.0 { MulMonoStrict(N, 1.0, G); }
      if N > 1.0 { MulMonoStrict(1.0, N, G); }
    }
  }

  /** The clamp of the repairs. The Lorentz factor it reports is within the ceiling, and it is that of the
      velocity it leaves exactly when nothing had to be clamped, or W^2 == 2, or the ceiling is 1. */
  method ClampFixup(sqrt: real -> real, gcov: Mat, vp: Vec, gammaMax: real) returns (v: Vec, W: real)
    requires IsSqrt(sqrt) && Symmetric(gcov) && Inner(gcov, vp, vp) >= 0.0 && gammaMax >= 1.0
    ensures exists k :: k >= 0.0 && v == Scale(k, vp)
    ensures 1.0 <= W <= gammaMax
    ensures var W0 := LorentzFactor(sqrt, gcov, vp);
            && W0 >= 1.0 && (W0 <= gammaMax ==> v == vp && W == W0)
            && (W0 > gammaMax ==> W == gammaMax && Sq(W0) > 1.0
                                  && Sq(LorentzFactor(sqrt, gcov, v)) == 1.0 + (Sq(gammaMax) - 1.0) / (Sq(W0) - 1.0))
            && (LorentzFactor(sqrt, gcov, v) == W <==> W0 <= gammaMax || Sq(W0) == 2.0 || gammaMax == 1.0)
  {
    hide FixupRescale, LorentzFactor, Inner, Scale, Sq;
    LorentzFactorAtLeastOne(sqrt, gcov, vp);
    v := vp;
    UnitScale(vp);
    W := LorentzFactor(sqrt, gcov, v);
    if W > gammaMax {
      FixupClamp(sqrt, gcov, vp, gammaMax);
      RescaleNonneg(sqrt, gammaMax, W);
      v := Scale(FixupRescale(sqrt, gammaMax, W), v);
      W := gammaMax;
    }
  }

  lemma UnitScale(v: Vec)
    ensures v == Scale(1.0, v)
  {
  }

  lemma RescaleNonneg(sqrt: real -> real, gammaMax: real, W: real)
    requires IsSqrt(sqrt) && gammaMax >= 1.0 && W > 1.0
    ensures FixupRescale(sqrt, gammaMax, W) >= 0.0
  {
    SquareOrder(1.0, gammaMax);
    SquareOrder(1.0, W);
    DivNonneg(sqrt(gammaMax * gammaMax - 1.0), W * W - 1.0);
  }

  // ---------------------------------------------------------------------------------------------
  // At the faces: the root covers the whole quotient, but the coordinate velocity is then formed with
  // the old Lorentz factor.

  /** The primitive velocity after the first limiter. */
  function Limited(sqrt: real -> real, vp: Vec, gamMax: real, W0: real): Vec {
    if W0 > gamMax && W0 * W0 != 1.0 then Scale(sqrt((gamMax * gamMax - 1.0) / (W0 * W0 - 1.0)), vp) else vp
  }

  /** After the first limiter the coordinate speed satisfies v^2 W0^2 = min(W0, gmax)^2 - 1, which
      keeps it under the second limit. */
  lemma FaceSpeed(sqrt: real -> real, gcov: Mat, vp: Vec, gamMax: real, W0: real)
    requires IsSqrt(sqrt) && Symmetric(gcov) && Inner(gcov, vp, vp) >= 0.0 && gamMax >= 1.0
    requires W0 == LorentzFactor(sqrt, gcov, vp)
    ensures W0 >= 1.0 && (W0 > gamMax ==> W0 * W0 - 1.0 > 0.0)
    ensures var v := Scale(1.0 / W0, Limited(sqrt, vp, gamMax, W0));
            var vsq := Inner(gcov, v, v);
            && vsq * Sq(W0) == Min(Sq(W0), Sq(gamMax)) - 1.0
            && 0.0 <= vsq <= 1.0 - 1.0 / (gamMax * gamMax) < 1.0
  {
    hide Inner, Scale, LorentzFactor, Limited, Sq, Min;
    FirstLimit(sqrt, gcov, vp, gamMax, W0);
    var u := Limited(sqrt, vp, gamMax, W0);
    var iW := 1.0 / W0;
    DivMul(1.0, W0);
    InnerScale(gcov, iW, u);
    SpeedBounds(Inner(gcov, Scale(iW, u), Scale(iW, u)), iW, W0, gamMax, Inner(gcov, u, u));
  }

  lemma FirstLimit(sqrt: real -> real, gcov: Mat, vp: Vec, gamMax: real, W0: real)
    requires IsSqrt(sqrt) && Symmetric(gcov) && Inner(gcov, vp, vp) >= 0.0 && gamMax >= 1.0
    requires W0 == LorentzFactor(sqrt, gcov, vp)
    ensures W0 >= 1.0 && (W0 > gamMax ==> W0 * W0 - 1.0 > 0.0)
    ensures var u := Limited(sqrt, vp, gamMax, W0); Inner(gcov, u, u) == Min(Sq(W0), Sq(gamMax)) - 1.0
  {
    hide Inner, Scale, LorentzFactor;
    LorentzFactorAtLeastOne(sqrt, gcov, vp);
    SquareOrder(W0, gamMax);
    if W0 > gamMax {
      SquareOrder(1.0, W0);
      SquareOrder(1.0, gamMax);
      var G, N := gamMax * gamMax - 1.0, W0 * W0 - 1.0;
      var q := G / N;
      DivNonneg(G, N);
      InnerScale(gcov, sqrt(q), vp);
      assert Sq(sqrt(q)) == q;
      DivMul(G, N);
      assert q * N == G;
      assert Inner(gcov, vp, vp) == N;
      var f := Sq(sqrt(q));
      assert f * N == q * N;
    }
  }

  lemma SpeedBounds(vsq: real, iW: real, W: real, g: real, M: real)
    requires W >= 1.0 && g >= 1.0 && iW * W == 1.0 && vsq == Sq(iW) * M && M == Min(Sq(W), Sq(g)) - 1.0
    ensures vsq * Sq(W) == M && 0.0 <= vsq <= 1.0 - 1.0 / (g * g) < 1.0
  {
    UnitFactor(M, iW, W);
    assert vsq * Sq(W) == M * iW * iW * W * W;
    SquareOrder(1.0, W);
    SquareOrder(1.0, g);
    DivIs(M, Sq(W), vsq);
    DivNonneg(M, Sq(W));
    SpeedQuotient(M, Sq(W), Sq(g));
  }

  lemma SpeedQuotient(M: real, a: real, b: real)
    requires a >= 1.0 && b >= 1.0 && M <= a - 1.0 && M <= b - 1.0
    ensures M / a <= 1.0 - 1.0 / b < 1.0
  {
    var r := 1.0 / b;
    DivMul(1.0, b);
    DivPos(1.0, b);
    DivLe(1.0, b, 1.0);
    BelowLimit(M, a, b, r);
    DivLe(M, a, 1.0 - r);
  }

  lemma BelowLimit(M: real, a: real, b: real, r: real)
    requires a >= 1.0 && b >= 1.0 && M <= a - 1.0 && M <= b - 1.0 && 0.0 < r <= 1.0 && r * b == 1.0
    ensures M <= (1.0 - r) * a
  {
    if a <= b {
      calc {
        M;
        <= a - r * b;
        <= { MulMono(a, b, r); }
        a - a * r;
        (1.0 - r) * a;
      }
    } else {
      calc {
        M;
        <= b - r * b;
        (1.0 - r) * b;
        <= { MulMono(b, a, 1.0 - r); }
        (1.0 - r) * a;
      }
    }
  }

  /** The reported Lorentz factor. Beyond the ceiling it falls again: W^2 (W0^2 - gmax^2 + 1) = W0^2. */
  lemma FinalLorentz(sqrt: real -> real, vsq: real, W0: real, g: real)
    requires IsSqrt(sqrt) && W0 >= 1.0 && g >= 1.0 && 0.0 <= vsq < 1.0
    requires vsq * Sq(W0) == Min(Sq(W0), Sq(g)) - 1.0
    ensures sqrt(1.0 - vsq) > 0.0
    ensures var W := 1.0 / sqrt(1.0 - vsq);
            && W >= 1.0 && Sq(W) * (1.0 - vsq) == 1.0 && W <= g
            && (W0 <= g ==> W == W0)
            && (W0 > g ==> Sq(W) * (Sq(W0) - Sq(g) + 1.0) == Sq(W0))
  {
    var c, s := 1.0 - vsq, sqrt(1.0 - vsq);
    assert s * s == c;
    assert s != 0.0 by { if s == 0.0 { assert false; } }
    var W := 1.0 / s;
    DivMul(1.0, s);
    DivPos(1.0, s);
    assert Sq(W) * c == 1.0 by { assert Sq(W) * (s * s) == (W * s) * (W * s); }
    var A := Sq(W0);
    SquareOrder(1.0, W0);
    SquareOrder(1.0, g);
    SquareOrder(W0, g);
    SquareOrder(g, W0);
    assert c * A == A - Min(A, Sq(g)) + 1.0;
    assert Sq(W) * (c * A) == A by { assert Sq(W) * (c * A) == (Sq(W) * c) * A; }
    OneOverSquare(W, c);
    if W0 <= g {
      SquareOrder(W, W0);
      SquareOrder(W0, W);
    } else {
      BelowCeiling(Sq(W), A, Sq(g));
      SquareOrder(W, g);
    }
  }

  /** With a ceiling of 10, a face state at Lorentz factor 20 leaves with less than 1.16. */
  lemma FaceExample(sqrt: real -> real)
    requires IsSqrt(sqrt)
    ensures sqrt(1.0 - 99.0 / 400.0) > 0.0 && 99.0 / 400.0 * Sq(20.0) == Min(Sq(20.0), Sq(10.0)) - 1.0
    ensures 1.0 / sqrt(1.0 - 99.0 / 400.0) < 1.16
  {
    hide IsSqrt;
    FinalLorentz(sqrt, 99.0 / 400.0, 20.0, 10.0);
    var W := 1.0 / sqrt(1.0 - 99.0 / 400.0);
    SquareOrder(1.16, W);
    assert Sq(W) * (400.0 - 100.0 + 1.0) == 400.0;
  }

  lemma OneOverSquare(W: real, c: real)
    requires W > 0.0 && 0.0 < c <= 1.0 && Sq(W) * c == 1.0
    ensures W >= 1.0
  {
    MulMono(c, 1.0, Sq(W));
    SquareOrder(1.0, W);
  }

  lemma BelowCeiling(w: real, A: real, G: real)
    requires G >= 1.0 && A > G && w * (A - G + 1.0) == A
    ensures w <= G
  {
    var c := A - G + 1.0;
    MulNonneg(G - 1.0, A - G);
    assert c * (G - w) == (G - 1.0) * (A - G) by {
      assert c * (G - w) == c * G - w * c;
    }
    CancelPos(c, G - w);
  }

  /** The second limiter: the squared speed and the velocity it leaves. */
  function SecondLimit(sqrt: real -> real, vsq: real, v: Vec, gamMax: real): (real, Vec)
    requires gamMax >= 1.0
  {
    CeilingRange(gamMax);
    if vsq > LorentzCeiling(gamMax) then
      var scale := LorentzCeiling(gamMax) / vsq;
      (vsq * scale, Scale(sqrt(scale), v))
    else (vsq, v)
  }

  /** Where it acts it keeps the velocity's direction and sense and brings both squared speeds, the one it
      reports and that of the velocity it leaves, to 1 - 1 / gamMax^2. */
  lemma SecondLimitCaps(sqrt: real -> real, gcov: Mat, v: Vec, gamMax: real)
    requires IsSqrt(sqrt) && Symmetric(gcov) && gamMax >= 1.0
    requires Inner(gcov, v, v) > 1.0 - 1.0 / (gamMax * gamMax)
    ensures var (vsq, u) := SecondLimit(sqrt, Inner(gcov, v, v), v, gamMax);
            && vsq == 1.0 - 1.0 / (gamMax * gamMax) && Inner(gcov, u, u) == vsq
            && exists k :: 0.0 <= k < 1.0 && u == Scale(k, v)
  {
    hide *;
    CeilingRange(gamMax);
    var cap, n := 1.0 - 1.0 / (gamMax * gamMax), Inner(gcov, v, v);
    CeilingIs(gamMax);
    SecondLimitIs(sqrt, n, v, gamMax);
    DivNonneg(cap, n);
    DivMul(cap, n);
    var scale := cap / n;
    var k := sqrt(scale);
    InnerScale(gcov, k, v);
    RootOfFraction(sqrt, cap, n);
    assert Sq(k) * n == cap;
  }

  lemma CeilingIs(gamMax: real)
    requires gamMax >= 1.0 && gamMax * gamMax >= 1.0
    ensures LorentzCeiling(gamMax) == 1.0 - 1.0 / (gamMax * gamMax)
  {
  }

  lemma SecondLimitIs(sqrt: real -> real, n: real, v: Vec, gamMax: real)
    requires gamMax >= 1.0 && n > LorentzCeiling(gamMax) >= 0.0
    ensures SecondLimit(sqrt, n, v, gamMax)
            == (n * (LorentzCeiling(gamMax) / n), Scale(sqrt(LorentzCeiling(gamMax) / n), v))
  {
    hide Scale;
  }

  lemma RootOfFraction(sqrt: real -> real, a: real, b: real)
    requires IsSqrt(sqrt) && 0.0 <= a < b
    ensures a / b >= 0.0 && b * (a / b) == a && Sq(sqrt(a / b)) == a / b && 0.0 <= sqrt(a / b) < 1.0
  {
    DivNonneg(a, b);
    DivMul(a, b);
    var q := a / b;
    assert q < 1.0 by {
      if q >= 1.0 { MulMono(1.0, q, b); }
    }
    var k := sqrt(q);
    if k >= 1.0 { MulMono(1.0, k, k); }
  }

  lemma SecondLimitIdle(sqrt: real -> real, vsq: real, v: Vec, gamMax: real)
    requires gamMax >= 1.0 && vsq <= 1.0 - 1.0 / (gamMax * gamMax)
    ensures SecondLimit(sqrt, vsq, v, gamMax) == (vsq, v)
  {
  }

  /** The face velocity and its Lorentz factor, with both limiters of prim_to_flux. Over exact reals the
      second limiter never acts. */
  method FaceVelocity(sqrt: real -> real, gcov: Mat, vp: Vec, gamMax: real) returns (v: Vec, W: real)
    requires IsSqrt(sqrt) && Symmetric(gcov) && Inner(gcov, vp, vp) >= 0.0 && gamMax >= 1.0
    ensures exists k :: k >= 0.0 && v == Scale(k, vp)
    ensures var vsq := Inner(gcov, v, v);
            0.0 <= vsq < 1.0 && Sq(W) * (1.0 - vsq) == 1.0 && 1.0 <= W <= gamMax
    ensures var W0 := LorentzFactor(sqrt, gcov, vp);
            && W0 >= 1.0
            && (W0 <= gamMax ==> v == Scale(1.0 / W0, vp) && W == W0)
            && (W0 > gamMax ==> Sq(W) * (Sq(W0) - Sq(gamMax) + 1.0) == Sq(W0))
  {
    hide *;
    var vpcon := vp;
    var W0 := LorentzFactor(sqrt, gcov, vpcon);
    FaceSpeed(sqrt, gcov, vp, gamMax, W0);
    DivNonneg(1.0, W0);
    UnitScale(vp);
    ghost var k := 1.0;
    if W0 > gamMax {
      var rescale := sqrt((gamMax * gamMax - 1.0) / (W0 * W0 - 1.0));
      RatioNonneg(sqrt, gamMax, W0);
      k := rescale;
      vpcon := Scale(rescale, vpcon);
    }
    ScaledTwice(1.0 / W0, k, vp);
    assert vpcon == Limited(sqrt, vp, gamMax, W0) by { LimitedIs(sqrt, vp, gamMax, W0); }
    v := Scale(1.0 / W0, vpcon);
    var vsq := Inner(gcov, v, v);
    SecondLimitIdle(sqrt, vsq, v, gamMax);
    var limited := SecondLimit(sqrt, vsq, v, gamMax);
    vsq, v := limited.0, limited.1;
    FinalLorentz(sqrt, vsq, W0, gamMax);
    W := 1.0 / sqrt(1.0 - vsq);
  }

  lemma RatioNonneg(sqrt: real -> real, gamMax: real, W0: real)
    requires IsSqrt(sqrt) && 1.0 <= gamMax < W0
    ensures W0 * W0 - 1.0 > 0.0 && sqrt((gamMax * gamMax - 1.0) / (W0 * W0 - 1.0)) >= 0.0
  {
    SquareOrder(1.0, gamMax);
    SquareOrder(1.0, W0);
    DivNonneg(gamMax * gamMax - 1.0, W0 * W0 - 1.0);
  }

  lemma ScaledTwice(a: real, b: real, v: Vec)
    requires a >= 0.0 && b >= 0.0
    ensures Prod(a, b) >= 0.0 && Scale(a, Scale(b, v)) == Scale(Prod(a, b), v)
  {
    MulNonneg(a, b);
  }

  lemma LimitedIs(sqrt: real -> real, vp: Vec, gamMax: real, W0: real)
    requires W0 > gamMax ==> W0 * W0 - 1.0 > 0.0
    ensures Limited(sqrt, vp, gamMax, W0)
            == if W0 > gamMax then Scale(sqrt((gamMax * gamMax - 1.0) / (W0 * W0 - 1.0)), vp) else vp
  {
  }
}
