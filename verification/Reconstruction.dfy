/** The reconstructions of reconstruction.hpp: bounds, exactness on linear data, and symmetries. */
module Reconstruction {
  import opened Reals

  // ---------------------------------------------------------------------------------------------
  // Piecewise linear.

  /** std::copysign(x, y) for a nonnegative magnitude. */
  function CopySign(x: real, y: real): real { if y < 0.0 then -x else x }

  /** The monotonized central limiter. */
  function Mc(dm: real, dp: real, alpha: real): real {
    var dc := if Prod(dm, dp) > 0.0 then 0.5 * (dm + dp) else 0.0;
    CopySign(Min(Abs(dc), Prod(alpha, Min(Abs(dm), Abs(dp)))), dc)
  }

  lemma ProdSigns(a: real, b: real)
    ensures Prod(a, b) > 0.0 <==> (a > 0.0 && b > 0.0) || (a < 0.0 && b < 0.0)
  {
    if a > 0.0 && b > 0.0 { MulPos(a, b); }
    else if a < 0.0 && b < 0.0 { MulPos(-a, -b); }
    else if a > 0.0 && b < 0.0 { MulPos(a, -b); }
    else if a < 0.0 && b > 0.0 { MulPos(-a, b); }
  }

  /** The limited slope has the sign of both differences, or is zero, and is at most alpha times the
      smaller one. */
  lemma McBounds(dm: real, dp: real, alpha: real)
    requires alpha >= 0.0
    ensures (dm <= 0.0 <= dp || dp <= 0.0 <= dm) ==> Mc(dm, dp, alpha) == 0.0
    ensures dm > 0.0 && dp > 0.0 ==> 0.0 <= Mc(dm, dp, alpha) <= Prod(alpha, Min(dm, dp))
    ensures dm < 0.0 && dp < 0.0 ==> -Prod(alpha, Min(-dm, -dp)) <= Mc(dm, dp, alpha) <= 0.0
  {
    ProdSigns(dm, dp);
    MulNonneg(alpha, Min(Abs(dm), Abs(dp)));
    assert Prod(alpha, Min(Abs(dm), Abs(dp))) >= 0.0;
    McCases(dm, dp, alpha);
    hide Prod, Mc;
  }

  /** The limiter by the signs of its arguments. */
  lemma McCases(dm: real, dp: real, alpha: real)
    ensures dm > 0.0 && dp > 0.0 ==> Mc(dm, dp, alpha) == Min(0.5 * (dm + dp), Prod(alpha, Min(dm, dp)))
    ensures dm < 0.0 && dp < 0.0 ==> Mc(dm, dp, alpha) == -Min(-0.5 * (dm + dp), Prod(alpha, Min(-dm, -dp)))
    ensures (dm <= 0.0 <= dp || dp <= 0.0 <= dm) ==> Mc(dm, dp, alpha) == Min(0.0, Prod(alpha, Min(Abs(dm), Abs(dp))))
  {
    hide Prod;
    ProdSigns(dm, dp);
  }

  lemma McSymmetric(dm: real, dp: real, alpha: real)
    ensures Mc(dp, dm, alpha) == Mc(dm, dp, alpha)
    ensures alpha >= 0.0 ==> Mc(-dm, -dp, alpha) == -Mc(dm, dp, alpha)
  {
    hide Prod, Mc;
    McCases(dm, dp, alpha);
    McCases(dp, dm, alpha);
    McCases(-dm, -dp, alpha);
    assert Min(dm, dp) == Min(dp, dm) && Min(-dm, -dp) == Min(-dp, -dm) && Min(Abs(dm), Abs(dp)) == Min(Abs(dp), Abs(dm));
    if alpha >= 0.0 {
      ProdNonneg(alpha, Min(Abs(dm), Abs(dp)));
      assert Abs(-dm) == Abs(dm) && Abs(-dp) == Abs(dp) && -(-dm) == dm && -(-dp) == dp;
    }
  }

  lemma McExact(d: real, alpha: real)
    requires alpha >= 1.0
    ensures Mc(d, d, alpha) == d
  {
    McCases(d, d, alpha);
    MulMono(1.0, alpha, Abs(d));
    assert Prod(alpha, Abs(d)) >= Abs(d);
    hide Prod, Mc;
  }

  datatype Faces = Faces(l: real, r: real)

  function PiecewiseLinear(qm: real, q0: real, qp: real): Faces {
    var dq := Mc(q0 - qm, qp - q0, 1.5);
    Faces(q0 + 0.5 * dq, q0 - 0.5 * dq)
  }

  predicate Between(x: real, a: real, b: real) { Min(a, b) <= x <= Max(a, b) }

  /** Each face value lies between the cell and the neighbour across that face; reversing the stencil
      swaps the faces; linear data are reproduced. */
  lemma PiecewiseLinearProperties(qm: real, q0: real, qp: real)
    ensures var f := PiecewiseLinear(qm, q0, qp);
            && Between(f.l, q0, qp) && Between(f.r, qm, q0)
            && PiecewiseLinear(qp, q0, qm) == Faces(f.r, f.l)
            && (q0 - qm == qp - q0 ==> f == Faces(0.5 * (q0 + qp), 0.5 * (qm + q0)))
  {
    hide Mc;
    var dm, dp := q0 - qm, qp - q0;
    McBounds(dm, dp, 1.5);
    McSymmetric(dm, dp, 1.5);
    assert q0 - qp == -dp && qm - q0 == -dm;
    McSymmetric(-dp, -dm, 1.5);
    if dm == dp { McExact(dm, 1.5); }
  }

  /** The slope between two differences of one sign: their mean, or half as much again as the smaller one. */
  lemma PiecewiseLinearSlope(qm: real, q0: real, qp: real)
    ensures var f, dm, dp := PiecewiseLinear(qm, q0, qp), q0 - qm, qp - q0;
            && f.l - f.r == 2.0 * (f.l - q0)
            && (dm > 0.0 && dp > 0.0 ==> f.l - f.r == Min(0.5 * (dm + dp), 1.5 * Min(dm, dp)))
            && (dm < 0.0 && dp < 0.0 ==> f.l - f.r == -Min(0.5 * (-dm - dp), 1.5 * Min(-dm, -dp)))
            && (dm <= 0.0 <= dp || dp <= 0.0 <= dm ==> f == Faces(q0, q0))
  {
    hide Mc;
    var dm, dp := q0 - qm, qp - q0;
    McCases(dm, dp, 1.5);
    McBounds(dm, dp, 1.5);
  }

  // ---------------------------------------------------------------------------------------------
  // WENO5Z.

  /** The small number that keeps the weights finite, 1e-100 in the source: any positive one will do. */
  type Positive = x: real | x > 0.0 witness 1.0

  /** Smoothness of the stencil that ends at its third argument. */
  function Beta(eps: Positive, q0: real, q1: real, q2: real): real {
    13.0 / 3.0 * Sq(q0 - 2.0 * q1 + q2) + Sq(q0 - 4.0 * q1 + 3.0 * q2) + eps
  }

  function BetaCentral(eps: Positive, q1: real, q2: real, q3: real): real {
    13.0 / 3.0 * Sq(q1 - 2.0 * q2 + q3) + Sq(q3 - q1) + eps
  }

  lemma BetaPositive(eps: Positive, q0: real, q1: real, q2: real)
    ensures Beta(eps, q0, q1, q2) > 0.0 && BetaCentral(eps, q0, q1, q2) > 0.0
  {
    hide Sq;
    SqNonneg(q0 - 2.0 * q1 + q2);
    SqNonneg(q0 - 4.0 * q1 + 3.0 * q2);
    SqNonneg(q2 - q0);
  }

  /** A beta after rescaling by the global smoothness tau. */
  function Rescaled(beta: real, tau: real): real
    requires beta > 0.0
  {
    (beta + tau) / beta
  }

  lemma RescaledPositive(beta: real, tau: real)
    requires beta > 0.0 && tau >= 0.0
    ensures Rescaled(beta, tau) > 0.0
  {
    DivPos(beta + tau, beta);
  }

  /** The value at the face beyond q2, from q0 towards q4, with rescaled smoothness x0, x1, x2. */
  function Weighted(eps: Positive, x0: real, x1: real, x2: real, q0: real, q1: real, q2: real, q3: real, q4: real): real
    requires x0 > 0.0 && x1 > 0.0 && x2 > 0.0
  {
    var w0, w1, w2 := 0.1 * x0 + eps, 0.6 * x1 + eps, 0.3 * x2 + eps;
    (w0 * (1.0 / 3.0 * q0 - 7.0 / 6.0 * q1 + 11.0 / 6.0 * q2)
     + w1 * (-1.0 / 6.0 * q1 + 5.0 / 6.0 * q2 + 1.0 / 3.0 * q3)
     + w2 * (1.0 / 3.0 * q2 + 5.0 / 6.0 * q3 - 1.0 / 6.0 * q4)) * (1.0 / (w0 + w1 + w2))
  }

  /** How far the nonlinear weights are trusted on that side. */
  function Trust(eps: Positive, x0: real, x1: real, x2: real): (alpha: real)
    requires x0 > 0.0 && x1 > 0.0 && x2 > 0.0
    ensures alpha > 0.0
  {
    var w0, w1, w2 := 0.1 * x0 + eps, 0.6 * x1 + eps, 0.3 * x2 + eps;
    TrustPositive(w0, w1, w2);
    3.0 * (1.0 / (w0 + w1 + w2)) * w0 * w1 * w2 / (0.3 * w0 * w1 + 0.6 * w0 * w2 + 0.1 * w1 * w2) + eps
  }

  lemma TrustPositive(w0: real, w1: real, w2: real)
    requires w0 > 0.0 && w1 > 0.0 && w2 > 0.0
    ensures 0.3 * w0 * w1 + 0.6 * w0 * w2 + 0.1 * w1 * w2 > 0.0
    ensures 3.0 * (1.0 / (w0 + w1 + w2)) * w0 * w1 * w2 / (0.3 * w0 * w1 + 0.6 * w0 * w2 + 0.1 * w1 * w2) > 0.0
  {
    MulPos(w0, w1);
    MulPos(w0, w2);
    MulPos(w1, w2);
    var wsum := 1.0 / (w0 + w1 + w2);
    DivPos(1.0, w0 + w1 + w2);
    MulPos(3.0 * wsum, w0);
    MulPos(3.0 * wsum * w0, w1);
    MulPos(3.0 * wsum * w0 * w1, w2);
    DivPos(3.0 * wsum * w0 * w1 * w2, 0.3 * w0 * w1 + 0.6 * w0 * w2 + 0.1 * w1 * w2);
  }

  /** 2 a b / (a + b). */
  function Harmonic(a: real, b: real): real
    requires a > 0.0 && b > 0.0
  {
    2.0 * Prod(a, b) / (a + b)
  }

  function Blend(alpha: real, x: real, y: real): real { alpha * x + (1.0 - alpha) * y }

  /** The three rescaled smoothness measures of a stencil. */
  datatype Smoothness = Smoothness(x0: real, x1: real, x2: real)

  function Measure(eps: Positive, q0: real, q1: real, q2: real, q3: real, q4: real): (s: Smoothness)
    ensures s.x0 > 0.0 && s.x1 > 0.0 && s.x2 > 0.0
  {
    BetaPositive(eps, q0, q1, q2);
    BetaPositive(eps, q1, q2, q3);
    BetaPositive(eps, q4, q3, q2);
    var tau := Abs(Beta(eps, q4, q3, q2) - Beta(eps, q0, q1, q2));
    RescaledPositive(Beta(eps, q0, q1, q2), tau);
    RescaledPositive(BetaCentral(eps, q1, q2, q3), tau);
    RescaledPositive(Beta(eps, q4, q3, q2), tau);
    Smoothness(Rescaled(Beta(eps, q0, q1, q2), tau), Rescaled(BetaCentral(eps, q1, q2, q3), tau), Rescaled(Beta(eps, q4, q3, q2), tau))
  }

  function Weno5Z(eps: Positive, q0: real, q1: real, q2: real, q3: real, q4: real): Faces {
    var s := Measure(eps, q0, q1, q2, q3, q4);
    var alpha := Harmonic(Trust(eps, s.x0, s.x1, s.x2), Trust(eps, s.x2, s.x1, s.x0));
    var dq := Mc(q2 - q1, q3 - q2, 2.0);
    Faces(Blend(alpha, Weighted(eps, s.x0, s.x1, s.x2, q0, q1, q2, q3, q4), q2 + 0.5 * dq),
          Blend(alpha, Weighted(eps, s.x2, s.x1, s.x0, q4, q3, q2, q1, q0), q2 - 0.5 * dq))
  }

  /** With equal smoothness the three stencils combine to the fifth-order value, up to eps. */
  lemma WeightedEqual(eps: Positive, x: real, q0: real, q1: real, q2: real, q3: real, q4: real)
    requires x > 0.0
    ensures Prod(x + 3.0 * eps, Weighted(eps, x, x, x, q0, q1, q2, q3, q4))
            == Prod(x, (2.0 * q0 - 13.0 * q1 + 47.0 * q2 + 27.0 * q3 - 3.0 * q4) / 60.0)
               + Prod(eps, (2.0 * q0 - 8.0 * q1 + 18.0 * q2 + 7.0 * q3 - q4) / 6.0)
  {
    var w0, w1, w2 := 0.1 * x + eps, 0.6 * x + eps, 0.3 * x + eps;
    var p0 := 1.0 / 3.0 * q0 - 7.0 / 6.0 * q1 + 11.0 / 6.0 * q2;
    var p1 := -1.0 / 6.0 * q1 + 5.0 / 6.0 * q2 + 1.0 / 3.0 * q3;
    var p2 := 1.0 / 3.0 * q2 + 5.0 / 6.0 * q3 - 1.0 / 6.0 * q4;
    var n, t := w0 + w1 + w2, w0 * p0 + w1 * p1 + w2 * p2;
    assert n == x + 3.0 * eps;
    assert Weighted(eps, x, x, x, q0, q1, q2, q3, q4) == t * (1.0 / n);
    hide Weighted;
    UndoNorm(n, t);
    Shares(eps, x, p0, p1, p2, t);
    assert 0.1 * p0 + 0.6 * p1 + 0.3 * p2 == (2.0 * q0 - 13.0 * q1 + 47.0 * q2 + 27.0 * q3 - 3.0 * q4) / 60.0;
    assert p0 + p1 + p2 == (2.0 * q0 - 8.0 * q1 + 18.0 * q2 + 7.0 * q3 - q4) / 6.0;
  }

  lemma UndoNorm(n: real, t: real)
    requires n > 0.0
    ensures Prod(n, t * (1.0 / n)) == t
  {
    DivMul(1.0, n);
    assert n * (t * (1.0 / n)) == t * (1.0 / n * n);
  }

  lemma Shares(eps: real, x: real, p0: real, p1: real, p2: real, t: real)
    requires t == (0.1 * x + eps) * p0 + (0.6 * x + eps) * p1 + (0.3 * x + eps) * p2
    ensures t == Prod(x, 0.1 * p0 + 0.6 * p1 + 0.3 * p2) + Prod(eps, p0 + p1 + p2)
  {
    assert (0.1 * x + eps) * p0 == 0.1 * (x * p0) + eps * p0;
    assert (0.6 * x + eps) * p1 == 0.6 * (x * p1) + eps * p1;
    assert (0.3 * x + eps) * p2 == 0.3 * (x * p2) + eps * p2;
  }

  /** The mean over cell n of the quadratic a + b t + c t^2, where cell n reaches from n - 1/2 to n + 1/2. */
  function CellMean(a: real, b: real, c: real, n: real): real { a + b * n + c * (n * n + 1.0 / 12.0) }

  function AtFace(a: real, b: real, c: real): real { a + 0.5 * b + 0.25 * c }

  /** Each of the three stencils has the face value of a quadratic exactly, so any weights do. */
  lemma WeightedQuadratic(eps: Positive, x0: real, x1: real, x2: real, a: real, b: real, c: real)
    requires x0 > 0.0 && x1 > 0.0 && x2 > 0.0
    ensures Weighted(eps, x0, x1, x2, CellMean(a, b, c, -2.0), CellMean(a, b, c, -1.0), CellMean(a, b, c, 0.0),
                     CellMean(a, b, c, 1.0), CellMean(a, b, c, 2.0)) == AtFace(a, b, c)
  {
    var q0, q1, q2, q3, q4 := CellMean(a, b, c, -2.0), CellMean(a, b, c, -1.0), CellMean(a, b, c, 0.0),
                              CellMean(a, b, c, 1.0), CellMean(a, b, c, 2.0);
    var w0, w1, w2 := 0.1 * x0 + eps, 0.6 * x1 + eps, 0.3 * x2 + eps;
    var y, n := AtFace(a, b, c), w0 + w1 + w2;
    var p0 := 1.0 / 3.0 * q0 - 7.0 / 6.0 * q1 + 11.0 / 6.0 * q2;
    var p1 := -1.0 / 6.0 * q1 + 5.0 / 6.0 * q2 + 1.0 / 3.0 * q3;
    var p2 := 1.0 / 3.0 * q2 + 5.0 / 6.0 * q3 - 1.0 / 6.0 * q4;
    assert p0 == y && p1 == y && p2 == y;
    Normalize(w0, w1, w2, y, n, w0 * p0 + w1 * p1 + w2 * p2);
  }

  /** And all three find a quadratic equally smooth: four times the integral over the cell of the squared first
      and second derivatives, (b^2 + c^2 / 3) + 4 c^2. */
  lemma SmoothQuadratic(eps: Positive, a: real, b: real, c: real)
    ensures var q0, q1, q2, q3, q4 := CellMean(a, b, c, -2.0), CellMean(a, b, c, -1.0), CellMean(a, b, c, 0.0),
                                      CellMean(a, b, c, 1.0), CellMean(a, b, c, 2.0);
            var B := 4.0 * (Sq(b) + 13.0 / 3.0 * Sq(c)) + eps;
            Beta(eps, q0, q1, q2) == BetaCentral(eps, q1, q2, q3) == Beta(eps, q4, q3, q2) == B
  {
    DoubleSquare(b);
    DoubleSquare(c);
    hide Sq;
    var q0, q1, q2, q3, q4 := CellMean(a, b, c, -2.0), CellMean(a, b, c, -1.0), CellMean(a, b, c, 0.0),
                              CellMean(a, b, c, 1.0), CellMean(a, b, c, 2.0);
    assert q0 - 2.0 * q1 + q2 == 2.0 * c && q1 - 2.0 * q2 + q3 == 2.0 * c && q4 - 2.0 * q3 + q2 == 2.0 * c;
    assert q0 - 4.0 * q1 + 3.0 * q2 == 2.0 * b && q3 - q1 == 2.0 * b && q4 - 4.0 * q3 + 3.0 * q2 == -2.0 * b;
  }

  lemma DoubleSquare(b: real)
    ensures Sq(2.0 * b) == 4.0 * Sq(b) && Sq(-2.0 * b) == 4.0 * Sq(b)
  {
  }

  lemma RescaledIs(beta: real, tau: real)
    requires beta > 0.0
    ensures Prod(Rescaled(beta, tau) - 1.0, beta) == tau && (tau == 0.0 ==> Rescaled(beta, tau) == 1.0)
  {
    DivMul(beta + tau, beta);
    DivIs(beta, beta, 1.0);
  }

  /** How far the weights are trusted: three over the sum of linear over actual weight, stencil by stencil with
      the outer linear weights exchanged. */
  lemma TrustIs(eps: Positive, x0: real, x1: real, x2: real)
    requires x0 > 0.0 && x1 > 0.0 && x2 > 0.0
    ensures var w0, w1, w2 := 0.1 * x0 + eps, 0.6 * x1 + eps, 0.3 * x2 + eps;
            Prod(Trust(eps, x0, x1, x2) - eps, Prod(w0 + w1 + w2, 0.3 * (w0 * w1) + 0.6 * (w0 * w2) + 0.1 * (w1 * w2)))
            == 3.0 * (w0 * w1 * w2)
  {
    var w0, w1, w2 := 0.1 * x0 + eps, 0.6 * x1 + eps, 0.3 * x2 + eps;
    TrustPositive(w0, w1, w2);
    var wsum, d := 1.0 / (w0 + w1 + w2), 0.3 * w0 * w1 + 0.6 * w0 * w2 + 0.1 * w1 * w2;
    var top := 3.0 * wsum * w0 * w1 * w2;
    assert Trust(eps, x0, x1, x2) - eps == top / d;
    hide Trust;
    TrustAlgebra(w0, w1, w2, wsum, d, top, top / d);
  }

  lemma TrustAlgebra(w0: real, w1: real, w2: real, wsum: real, d: real, top: real, q: real)
    requires w0 > 0.0 && w1 > 0.0 && w2 > 0.0 && wsum == 1.0 / (w0 + w1 + w2) && d > 0.0
    requires d == 0.3 * w0 * w1 + 0.6 * w0 * w2 + 0.1 * w1 * w2 && top == 3.0 * wsum * w0 * w1 * w2 && q == top / d
    ensures Prod(q, Prod(w0 + w1 + w2, 0.3 * (w0 * w1) + 0.6 * (w0 * w2) + 0.1 * (w1 * w2))) == 3.0 * (w0 * w1 * w2)
  {
    var n, m := w0 + w1 + w2, w0 * w1 * w2;
    DivMul(1.0, n);
    DivMul(top, d);
    assert d == 0.3 * (w0 * w1) + 0.6 * (w0 * w2) + 0.1 * (w1 * w2);
    assert top == 3.0 * (wsum * m);
    assert q * (n * d) == (q * d) * n;
    assert 3.0 * (wsum * m) * n == 3.0 * (m * (wsum * n));
  }

  lemma HarmonicMean(a: real, b: real)
    requires a > 0.0 && b > 0.0
    ensures Prod(Harmonic(a, b), 1.0 / a + 1.0 / b) == 2.0 && (a == b ==> Harmonic(a, b) == a)
  {
    var s, h, x, y := a + b, Harmonic(a, b), 1.0 / a, 1.0 / b;
    DivMul(2.0 * Prod(a, b), s);
    DivMul(1.0, a);
    DivMul(1.0, b);
    hide Harmonic, Prod;
    HarmonicAlgebra(a, b, s, h, x, y) by { PairProduct(a, b); }
  }

  lemma PairProduct(a: real, b: real)
    ensures Prod(a, b) == a * b
  {
  }

  lemma HarmonicAlgebra(a: real, b: real, s: real, h: real, x: real, y: real)
    requires a > 0.0 && b > 0.0 && s == a + b && h * s == 2.0 * Prod(a, b) && Prod(a, b) == a * b && x * a == 1.0 && y * b == 1.0
    ensures Prod(h, x + y) == 2.0 && (a == b ==> h == a)
  {
    MulPos(a, b);
    var m, t := a * b, h * (x + y);
    assert (x + y) * m == s by { assert x * m == (x * a) * b && y * m == (y * b) * a; }
    assert t * m == h * s;
    assert (t - 2.0) * m == 0.0;
    if a == b {
      assert (h - a) * s == 0.0;
    }
  }

  /** On quadratic data the two faces are the exact values, blended with the limited linear ones; the trust in
      the exact ones is that of equal smoothness. */
  lemma Weno5ZQuadratic(eps: Positive, a: real, b: real, c: real)
    ensures var q0, q1, q2, q3, q4 := CellMean(a, b, c, -2.0), CellMean(a, b, c, -1.0), CellMean(a, b, c, 0.0),
                                      CellMean(a, b, c, 1.0), CellMean(a, b, c, 2.0);
            var trust, dq := Trust(eps, 1.0, 1.0, 1.0), Mc(q2 - q1, q3 - q2, 2.0);
            Weno5Z(eps, q0, q1, q2, q3, q4)
            == Faces(Prod(trust, AtFace(a, b, c)) + Prod(1.0 - trust, q2 + 0.5 * dq),
                     Prod(trust, AtFace(a, -b, c)) + Prod(1.0 - trust, q2 - 0.5 * dq))
  {
    hide Beta, BetaCentral, Rescaled, Weighted, Trust, Harmonic, Mc, CellMean, AtFace, Blend, Prod;
    SmoothQuadratic(eps, a, b, c);
    var q0, q1, q2, q3, q4 := CellMean(a, b, c, -2.0), CellMean(a, b, c, -1.0), CellMean(a, b, c, 0.0),
                              CellMean(a, b, c, 1.0), CellMean(a, b, c, 2.0);
    BetaPositive(eps, q0, q1, q2);
    RescaledIs(Beta(eps, q0, q1, q2), 0.0);
    assert Measure(eps, q0, q1, q2, q3, q4) == Smoothness(1.0, 1.0, 1.0);
    HarmonicMean(Trust(eps, 1.0, 1.0, 1.0), Trust(eps, 1.0, 1.0, 1.0));
    WeightedQuadratic(eps, 1.0, 1.0, 1.0, a, b, c);
    MirrorMeans(a, b, c);
    WeightedQuadratic(eps, 1.0, 1.0, 1.0, a, -b, c);
    var trust, dq := Trust(eps, 1.0, 1.0, 1.0), Mc(q2 - q1, q3 - q2, 2.0);
    BlendIs(trust, AtFace(a, b, c), q2 + 0.5 * dq);
    BlendIs(trust, AtFace(a, -b, c), q2 - 0.5 * dq);
  }

  lemma BlendIs(alpha: real, x: real, y: real)
    ensures Blend(alpha, x, y) == Prod(alpha, x) + Prod(1.0 - alpha, y)
  {
  }

  lemma MirrorMeans(a: real, b: real, c: real)
    ensures CellMean(a, -b, c, -2.0) == CellMean(a, b, c, 2.0) && CellMean(a, -b, c, -1.0) == CellMean(a, b, c, 1.0)
    ensures CellMean(a, -b, c, 0.0) == CellMean(a, b, c, 0.0)
    ensures CellMean(a, -b, c, 1.0) == CellMean(a, b, c, -1.0) && CellMean(a, -b, c, 2.0) == CellMean(a, b, c, -2.0)
  {
  }

  /** Reversing the stencil swaps the two faces. */
  lemma Weno5ZMirror(eps: Positive, q0: real, q1: real, q2: real, q3: real, q4: real)
    ensures Weno5Z(eps, q4, q3, q2, q1, q0) == Faces(Weno5Z(eps, q0, q1, q2, q3, q4).r, Weno5Z(eps, q0, q1, q2, q3, q4).l)
  {
    hide Beta, BetaCentral, Rescaled, Weighted, Trust, Harmonic, Mc, Blend;
    CentralMirror(eps, q1, q2, q3);
    var s := Measure(eps, q0, q1, q2, q3, q4);
    assert Measure(eps, q4, q3, q2, q1, q0) == Smoothness(s.x2, s.x1, s.x0);
    HarmonicSymmetric(Trust(eps, s.x0, s.x1, s.x2), Trust(eps, s.x2, s.x1, s.x0));
    var dm, dp := q2 - q1, q3 - q2;
    assert q2 - q3 == -dp && q1 - q2 == -dm;
    McSymmetric(dm, dp, 2.0);
    McSymmetric(-dp, -dm, 2.0);
  }

  lemma CentralMirror(eps: Positive, q1: real, q2: real, q3: real)
    ensures BetaCentral(eps, q3, q2, q1) == BetaCentral(eps, q1, q2, q3)
  {
    var b := q3 - q1;
    assert Sq(-b) == Sq(b);
    assert q3 - 2.0 * q2 + q1 == q1 - 2.0 * q2 + q3;
  }

  lemma HarmonicSymmetric(a: real, b: real)
    requires a > 0.0 && b > 0.0
    ensures Harmonic(a, b) == Harmonic(b, a)
  {
    assert Prod(a, b) == Prod(b, a);
  }

  /** On linear data both face values are exact, whatever the nonlinear weights. */
  lemma Weno5ZLinear(eps: Positive, q: real, d: real)
    ensures Weno5Z(eps, q - 2.0 * d, q - d, q, q + d, q + 2.0 * d) == Faces(q + 0.5 * d, q - 0.5 * d)
  {
    hide Beta, BetaCentral, Rescaled, Weighted, Trust, Harmonic, Mc, Blend, Measure;
    var s := Measure(eps, q - 2.0 * d, q - d, q, q + d, q + 2.0 * d);
    WeightedLinear(eps, s.x0, s.x1, s.x2, q, d);
    WeightedLinear(eps, s.x2, s.x1, s.x0, q, -d);
    McExact(d, 2.0);
    var alpha := Harmonic(Trust(eps, s.x0, s.x1, s.x2), Trust(eps, s.x2, s.x1, s.x0));
    BlendSame(alpha, q + 0.5 * d);
    BlendSame(alpha, q - 0.5 * d);
    assert q - (q - d) == d && q + d - q == d;
  }

  lemma BlendSame(alpha: real, x: real)
    ensures Blend(alpha, x, x) == x
  {
  }

  lemma WeightedLinear(eps: Positive, x0: real, x1: real, x2: real, q: real, d: real)
    requires x0 > 0.0 && x1 > 0.0 && x2 > 0.0
    ensures Weighted(eps, x0, x1, x2, q - 2.0 * d, q - d, q, q + d, q + 2.0 * d) == q + 0.5 * d
  {
    var w0, w1, w2 := 0.1 * x0 + eps, 0.6 * x1 + eps, 0.3 * x2 + eps;
    var y, n := q + 0.5 * d, w0 + w1 + w2;
    var p0 := 1.0 / 3.0 * (q - 2.0 * d) - 7.0 / 6.0 * (q - d) + 11.0 / 6.0 * q;
    var p1 := -1.0 / 6.0 * (q - d) + 5.0 / 6.0 * q + 1.0 / 3.0 * (q + d);
    var p2 := 1.0 / 3.0 * q + 5.0 / 6.0 * (q + d) - 1.0 / 6.0 * (q + 2.0 * d);
    assert p0 == y && p1 == y && p2 == y;
    Normalize(w0, w1, w2, y, n, w0 * p0 + w1 * p1 + w2 * p2);
  }

  lemma Normalize(w0: real, w1: real, w2: real, y: real, n: real, t: real)
    requires n == w0 + w1 + w2 && n > 0.0 && t == w0 * y + w1 * y + w2 * y
    ensures t * (1.0 / n) == y
  {
    assert t == n * y;
    DivMul(1.0, n);
    assert n * y * (1.0 / n) == y * (1.0 / n * n);
  }

  /** The kernel, which reuses its locals for the left and then the right weights. */
  method WENO5Z(eps: Positive, q0: real, q1: real, q2: real, q3: real, q4: real) returns (ql: real, qr: real)
    ensures Faces(ql, qr) == Weno5Z(eps, q0, q1, q2, q3, q4)
  {
    hide Mc;
    BetaPositive(eps, q0, q1, q2);
    BetaPositive(eps, q1, q2, q3);
    BetaPositive(eps, q4, q3, q2);
    var beta0, beta1, beta2 := Beta(eps, q0, q1, q2), BetaCentral(eps, q1, q2, q3), Beta(eps, q4, q3, q2);
    var tau5 := Abs(beta2 - beta0);
    hide Beta, BetaCentral, Weighted, Trust, Rescaled, Harmonic, Blend;
    RescaledPositive(beta0, tau5);
    RescaledPositive(beta1, tau5);
    RescaledPositive(beta2, tau5);
    beta0, beta1, beta2 := Rescaled(beta0, tau5), Rescaled(beta1, tau5), Rescaled(beta2, tau5);
    ql := Weighted(eps, beta0, beta1, beta2, q0, q1, q2, q3, q4);
    var alphaL := Trust(eps, beta0, beta1, beta2);
    qr := Weighted(eps, beta2, beta1, beta0, q4, q3, q2, q1, q0);
    var alphaR := Trust(eps, beta2, beta1, beta0);
    var dq := q3 - q2;
    dq := Mc(q2 - q1, dq, 2.0);
    var alphaLin := Harmonic(alphaL, alphaR);
    ql := Blend(alphaLin, ql, q2 + 0.5 * dq);
    qr := Blend(alphaLin, qr, q2 - 0.5 * dq);
  }

  // ---------------------------------------------------------------------------------------------
  // MP5.

  function Minmod(a: real, b: real): real {
    if Prod(a, b) > 0.0 then (if Abs(a) < Abs(b) then a else b) else 0.0
  }

  lemma MinmodNegate(a: real, b: real)
    ensures Minmod(-a, -b) == -Minmod(a, b)
  {
    hide Prod;
    ProdSigns(a, b);
    ProdSigns(-a, -b);
  }

  function Median(a: real, b: real, c: real): real { a + Minmod(b - a, c - a) }

  /** Between two ordered bounds the median is the clamp. */
  lemma MedianClamps(a: real, lo: real, hi: real)
    requires lo <= hi
    ensures Median(a, lo, hi) == Min(Max(a, lo), hi)
  {
    hide Prod;
    ProdSigns(lo - a, hi - a);
  }

  datatype Stencil = Stencil(m2: real, m1: real, c: real, p1: real, p2: real) {
    function Negated(): Stencil { Stencil(-m2, -m1, -c, -p1, -p2) }

    function Moved(t: real): Stencil { Stencil(m2 + t, m1 + t, c + t, p1 + t, p2 + t) }
  }

  function Unlimited(F: Stencil): real { (2.0 * F.m2 - 13.0 * F.m1 + 47.0 * F.c + 27.0 * F.p1 - 3.0 * F.p2) / 60.0 }

  function FaceMP(F: Stencil): real { F.c + Minmod(F.p1 - F.c, 4.0 * (F.c - F.m1)) }

  predicate Accepted(F: Stencil) { Prod(Unlimited(F) - F.c, Unlimited(F) - FaceMP(F)) <= 1e-12 }

  /** The curvature bound at a face from the two second differences beside it. */
  function FaceCurvature(d: real, e: real): real { Minmod(Minmod(4.0 * d - e, 4.0 * e - d), Minmod(d, e)) }

  function Middle(F: Stencil): real {
    0.5 * (F.c + F.p1) - 0.5 * FaceCurvature(F.m1 + F.p1 - 2.0 * F.c, F.c + F.p2 - 2.0 * F.p1)
  }

  function Upper(F: Stencil): real { F.c + 4.0 * (F.c - F.m1) }

  function LargeCurvature(F: Stencil): real {
    0.5 * (3.0 * F.c - F.m1)
    + 4.0 / 3.0 * FaceCurvature(F.m2 + F.c - 2.0 * F.m1, F.m1 + F.p1 - 2.0 * F.c)
  }

  function FMin(F: Stencil): real {
    Max(Min(Min(F.c, F.p1), Middle(F)), Min(Min(F.c, Upper(F)), LargeCurvature(F)))
  }

  function FMax(F: Stencil): real {
    Min(Max(Max(F.c, F.p1), Middle(F)), Max(Max(F.c, Upper(F)), LargeCurvature(F)))
  }

  function Mp5(F: Stencil): real {
    if Accepted(F) then Unlimited(F) else Median(Unlimited(F), FMin(F), FMax(F))
  }

  /** The unlimited value is exact for cell means of polynomials of degree four. */
  lemma UnlimitedQuartic(a: real, b: real, c: real, d: real, e: real)
    ensures Unlimited(Stencil(QuarticMean(a, b, c, d, e, -2.0), QuarticMean(a, b, c, d, e, -1.0),
                              QuarticMean(a, b, c, d, e, 0.0), QuarticMean(a, b, c, d, e, 1.0),
                              QuarticMean(a, b, c, d, e, 2.0))) == a + b / 2.0 + c / 4.0 + d / 8.0 + e / 16.0
  {
  }

  function QuarticMean(a: real, b: real, c: real, d: real, e: real, n: real): real {
    a + b * n + c * (n * n + 1.0 / 12.0) + d * (n * n * n + n / 4.0) + e * (n * n * n * n + n * n / 2.0 + 1.0 / 80.0)
  }

  /** The curvature at a face is zero between second differences of opposite sign, and otherwise the smallest of
      both and of the two extrapolations 4 d - e and 4 e - d, if those have that sign too. */
  lemma FaceCurvatureIs(d: real, e: real)
    ensures d > 0.0 && e > 0.0 ==> FaceCurvature(d, e) == Max(0.0, Min(Min(d, e), Min(4.0 * d - e, 4.0 * e - d)))
    ensures d < 0.0 && e < 0.0 ==> FaceCurvature(d, e) == Min(0.0, Max(Max(d, e), Max(4.0 * d - e, 4.0 * e - d)))
    ensures d <= 0.0 <= e || e <= 0.0 <= d ==> FaceCurvature(d, e) == 0.0
  {
    hide Prod;
    ProdSigns(d, e);
    ProdSigns(4.0 * d - e, 4.0 * e - d);
    ProdSigns(Minmod(4.0 * d - e, 4.0 * e - d), Minmod(d, e));
  }

  /** The monotonicity-preserving value: the neighbour across the face, or four differences away from the other
      neighbour, whichever is nearer; the cell value at an extremum. */
  lemma FaceMPIs(F: Stencil)
    ensures F.p1 > F.c > F.m1 ==> FaceMP(F) == Min(F.p1, 5.0 * F.c - 4.0 * F.m1)
    ensures F.p1 < F.c < F.m1 ==> FaceMP(F) == Max(F.p1, 5.0 * F.c - 4.0 * F.m1)
    ensures (F.p1 <= F.c && F.m1 <= F.c) || (F.p1 >= F.c && F.m1 >= F.c) ==> FaceMP(F) == F.c
  {
    hide Prod;
    ProdSigns(F.p1 - F.c, 4.0 * (F.c - F.m1));
  }

  /** The three bounds where the second difference is d throughout. */
  lemma QuadraticBounds(F: Stencil, d: real)
    requires F.m2 + F.c - 2.0 * F.m1 == d == F.m1 + F.p1 - 2.0 * F.c && F.c + F.p2 - 2.0 * F.p1 == d
    ensures Middle(F) == 0.5 * (F.c + F.p1) - 0.5 * d && Upper(F) == 5.0 * F.c - 4.0 * F.m1
    ensures LargeCurvature(F) == 0.5 * (3.0 * F.c - F.m1) + 4.0 / 3.0 * d
  {
    FaceCurvatureIs(d, d);
    hide FaceCurvature;
  }

  /** Which values lie above the lower and below the upper bound. */
  lemma BoundsMean(F: Stencil, x: real)
    ensures x >= FMin(F) <==> (x >= F.c || x >= F.p1 || x >= Middle(F)) && (x >= F.c || x >= Upper(F) || x >= LargeCurvature(F))
    ensures x <= FMax(F) <==> (x <= F.c || x <= F.p1 || x <= Middle(F)) && (x <= F.c || x <= Upper(F) || x <= LargeCurvature(F))
  {
    hide Middle, Upper, LargeCurvature;
  }

  /** The limiter fires exactly when the unlimited value lies clearly beyond the cell value and the
      monotonicity-preserving one. */
  lemma AcceptedIs(F: Stencil)
    ensures Mp5(F) == Unlimited(F) || Prod(Unlimited(F) - F.c, Unlimited(F) - FaceMP(F)) > 1e-12
    ensures Prod(Unlimited(F) - F.c, Unlimited(F) - FaceMP(F)) <= 1e-12 ==> Mp5(F) == Unlimited(F)
  {
    hide Unlimited, FaceMP, Median, FMin, FMax, Prod;
  }

  /** When the limiter fires, the result is the unlimited value clamped to an interval that contains
      the cell value. */
  lemma Mp5Clamps(F: Stencil)
    ensures FMin(F) <= F.c <= FMax(F)
    ensures !Accepted(F) ==> Mp5(F) == Min(Max(Unlimited(F), FMin(F)), FMax(F))
  {
    hide Middle, Upper, LargeCurvature, Unlimited, Accepted, Median;
    MedianClamps(Unlimited(F), FMin(F), FMax(F));
  }

  lemma FaceCurvatureNegate(d: real, e: real)
    ensures FaceCurvature(-d, -e) == -FaceCurvature(d, e)
  {
    hide Minmod;
    var x, y := 4.0 * d - e, 4.0 * e - d;
    assert 4.0 * -d - -e == -x && 4.0 * -e - -d == -y;
    MinmodNegate(x, y);
    MinmodNegate(d, e);
    MinmodNegate(Minmod(x, y), Minmod(d, e));
  }

  lemma PartsNegate(F: Stencil)
    ensures Middle(F.Negated()) == -Middle(F) && LargeCurvature(F.Negated()) == -LargeCurvature(F)
    ensures Upper(F.Negated()) == -Upper(F) && Unlimited(F.Negated()) == -Unlimited(F)
    ensures FaceMP(F.Negated()) == -FaceMP(F)
  {
    hide FaceCurvature, Minmod;
    var G := F.Negated();
    var d2m, d2, d2p := F.m2 + F.c - 2.0 * F.m1, F.m1 + F.p1 - 2.0 * F.c, F.c + F.p2 - 2.0 * F.p1;
    assert G.m2 + G.c - 2.0 * G.m1 == -d2m && G.m1 + G.p1 - 2.0 * G.c == -d2 && G.c + G.p2 - 2.0 * G.p1 == -d2p;
    FaceCurvatureNegate(d2, d2p);
    FaceCurvatureNegate(d2m, d2);
    var a, b := F.p1 - F.c, 4.0 * (F.c - F.m1);
    assert G.p1 - G.c == -a && 4.0 * (G.c - G.m1) == -b;
    MinmodNegate(a, b);
  }

  lemma BoundsNegate(F: Stencil)
    ensures FMin(F.Negated()) == -FMax(F) && FMax(F.Negated()) == -FMin(F)
  {
    hide Middle, Upper, LargeCurvature, Unlimited, FaceMP;
    PartsNegate(F);
  }

  lemma AcceptedNegate(F: Stencil)
    ensures Accepted(F.Negated()) == Accepted(F) && F.Negated().c == -F.c
  {
    hide Unlimited, FaceMP, Prod, Middle, Upper, LargeCurvature;
    PartsNegate(F);
    var x, y := Unlimited(F) - F.c, Unlimited(F) - FaceMP(F);
    ProdNegate(x, y);
  }

  lemma Mp5When(F: Stencil)
    ensures Accepted(F) ==> Mp5(F) == Unlimited(F)
  {
    hide Accepted, Unlimited, Median, FMin, FMax;
  }

  /** MP5 commutes with negation. */
  lemma Mp5Negate(F: Stencil)
    ensures Mp5(F.Negated()) == -Mp5(F)
  {
    hide *;
    PartsNegate(F);
    BoundsNegate(F);
    AcceptedNegate(F);
    Mp5When(F);
    Mp5When(F.Negated());
    Mp5Clamps(F);
    Mp5Clamps(F.Negated());
    ClampNegate(Unlimited(F), FMin(F), FMax(F));
  }

  lemma ClampNegate(a: real, lo: real, hi: real)
    requires lo <= hi
    ensures Min(Max(-a, -hi), -lo) == -Min(Max(a, lo), hi)
  {
  }

  lemma ProdNegate(x: real, y: real)
    ensures Prod(-x, -y) == Prod(x, y)
  {
  }

  lemma PartsMove(F: Stencil, t: real)
    ensures Middle(F.Moved(t)) == Middle(F) + t && LargeCurvature(F.Moved(t)) == LargeCurvature(F) + t
    ensures Upper(F.Moved(t)) == Upper(F) + t && Unlimited(F.Moved(t)) == Unlimited(F) + t
    ensures FaceMP(F.Moved(t)) == FaceMP(F) + t
  {
    hide FaceCurvature, Minmod;
    var G := F.Moved(t);
    assert G.m2 + G.c - 2.0 * G.m1 == F.m2 + F.c - 2.0 * F.m1;
    assert G.m1 + G.p1 - 2.0 * G.c == F.m1 + F.p1 - 2.0 * F.c;
    assert G.c + G.p2 - 2.0 * G.p1 == F.c + F.p2 - 2.0 * F.p1;
    assert G.p1 - G.c == F.p1 - F.c && 4.0 * (G.c - G.m1) == 4.0 * (F.c - F.m1);
  }

  lemma BoundsMove(F: Stencil, t: real)
    ensures FMin(F.Moved(t)) == FMin(F) + t && FMax(F.Moved(t)) == FMax(F) + t
  {
    hide Middle, Upper, LargeCurvature, Unlimited, FaceMP;
    PartsMove(F, t);
  }

  lemma AcceptedMove(F: Stencil, t: real)
    ensures Accepted(F.Moved(t)) == Accepted(F) && F.Moved(t).c == F.c + t
  {
    hide Unlimited, FaceMP, Prod, Middle, Upper, LargeCurvature;
    PartsMove(F, t);
    assert Unlimited(F.Moved(t)) - F.Moved(t).c == Unlimited(F) - F.c;
    assert Unlimited(F.Moved(t)) - FaceMP(F.Moved(t)) == Unlimited(F) - FaceMP(F);
  }

  /** MP5 commutes with adding a constant. */
  lemma Mp5Move(F: Stencil, t: real)
    ensures Mp5(F.Moved(t)) == Mp5(F) + t
  {
    hide *;
    PartsMove(F, t);
    BoundsMove(F, t);
    AcceptedMove(F, t);
    Mp5When(F);
    Mp5When(F.Moved(t));
    Mp5Clamps(F);
    Mp5Clamps(F.Moved(t));
    ClampMove(Unlimited(F), FMin(F), FMax(F), t);
  }

  lemma ClampMove(a: real, lo: real, hi: real, t: real)
    ensures Min(Max(a + t, lo + t), hi + t) == Min(Max(a, lo), hi) + t
  {
  }

  /** On linear data MP5 accepts the unlimited value, which is exact. */
  lemma Mp5Linear(q: real, d: real)
    ensures Mp5(Stencil(q - 2.0 * d, q - d, q, q + d, q + 2.0 * d)) == q + 0.5 * d
  {
    var F := Stencil(q - 2.0 * d, q - d, q, q + d, q + 2.0 * d);
    assert Unlimited(F) == q + 0.5 * d;
    LinearFace(q, d);
    var h := 0.5 * d;
    SquareNonneg(h);
    assert Prod(h, -h) == -(h * h);
    hide Unlimited, FaceMP, Prod, Median, FMin, FMax;
    assert Unlimited(F) - F.c == h && Unlimited(F) - FaceMP(F) == -h;
  }

  lemma LinearFace(q: real, d: real)
    ensures FaceMP(Stencil(q - 2.0 * d, q - d, q, q + d, q + 2.0 * d)) == q + d
  {
    hide Prod;
    ProdSigns(q + d - q, 4.0 * (q - (q - d)));
  }

  /** mp5_subcalc: locals are reused as in the source. */
  method Mp5Subcalc(F: Stencil) returns (f: real)
    ensures f == Mp5(F)
  {
    hide Minmod, Prod;
    f := 2.0 * F.m2 - 13.0 * F.m1 + 47.0 * F.c + 27.0 * F.p1 - 3.0 * F.p2;
    f := f / 60.0;
    var fMP := F.c + Minmod(F.p1 - F.c, 4.0 * (F.c - F.m1));
    if Prod(f - F.c, f - fMP) <= 1e-12 { return; }
    var d2m := F.m2 + F.c - 2.0 * F.m1;
    var d2 := F.m1 + F.p1 - 2.0 * F.c;
    var d2p := F.c + F.p2 - 2.0 * F.p1;
    var scrh1 := Minmod(4.0 * d2 - d2p, 4.0 * d2p - d2);
    var scrh2 := Minmod(d2, d2p);
    var dMMp := Minmod(scrh1, scrh2);
    scrh1 := Minmod(4.0 * d2m - d2, 4.0 * d2 - d2m);
    scrh2 := Minmod(d2m, d2);
    var dMMm := Minmod(scrh1, scrh2);
    var fUL := F.c + 4.0 * (F.c - F.m1);
    var fAV := 0.5 * (F.c + F.p1);
    var fMD := fAV - 0.5 * dMMp;
    var fLC := 0.5 * (3.0 * F.c - F.m1) + 4.0 / 3.0 * dMMm;
    scrh1 := Min(F.c, F.p1);
    scrh1 := Min(scrh1, fMD);
    scrh2 := Min(F.c, fUL);
    scrh2 := Min(scrh2, fLC);
    var Fmin := Max(scrh1, scrh2);
    scrh1 := Max(F.c, F.p1);
    scrh1 := Max(scrh1, fMD);
    scrh2 := Max(F.c, fUL);
    scrh2 := Max(scrh2, fLC);
    var Fmax := Min(scrh1, scrh2);
    f := Median(f, Fmin, Fmax);
  }

  /** Both faces of a cell; the right one reads the stencil backwards. */
  function Mp5Faces(q0: real, q1: real, q2: real, q3: real, q4: real): Faces {
    Faces(Mp5(Stencil(q0, q1, q2, q3, q4)), Mp5(Stencil(q4, q3, q2, q1, q0)))
  }

  /** Reversing the stencil swaps the faces, an affine change of the data is one of the faces, up to sign,
      and linear data are reproduced on both. */
  lemma Mp5FacesProperties(q0: real, q1: real, q2: real, q3: real, q4: real, t: real, d: real)
    ensures var f := Mp5Faces(q0, q1, q2, q3, q4);
            && Mp5Faces(q4, q3, q2, q1, q0) == Faces(f.r, f.l)
            && Mp5Faces(q0 + t, q1 + t, q2 + t, q3 + t, q4 + t) == Faces(f.l + t, f.r + t)
            && Mp5Faces(-q0, -q1, -q2, -q3, -q4) == Faces(-f.l, -f.r)
    ensures Mp5Faces(q2 - 2.0 * d, q2 - d, q2, q2 + d, q2 + 2.0 * d) == Faces(q2 + 0.5 * d, q2 - 0.5 * d)
  {
    hide Mp5;
    var L, R := Stencil(q0, q1, q2, q3, q4), Stencil(q4, q3, q2, q1, q0);
    Mp5Move(L, t);
    Mp5Move(R, t);
    Mp5Negate(L);
    Mp5Negate(R);
    Mp5Linear(q2, d);
    var e := -d;
    Mp5Linear(q2, e);
    assert q2 - 2.0 * e == q2 + 2.0 * d && q2 + 2.0 * e == q2 - 2.0 * d;
  }

  method MP5(q0: real, q1: real, q2: real, q3: real, q4: real) returns (ql: real, qr: real)
    ensures Faces(ql, qr) == Mp5Faces(q0, q1, q2, q3, q4)
  {
    ql := Mp5Subcalc(Stencil(q0, q1, q2, q3, q4));
    qr := Mp5Subcalc(Stencil(q4, q3, q2, q1, q0));
  }
}
