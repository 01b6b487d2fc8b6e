/** Arithmetic shared by the kernels: the helpers of robust.hpp over exact reals. */
module Reals {

  /** Ten times the smallest normal double in the source. What is proved holds for any positive number. */
  const SMALL: Tiny

  type Tiny = x: real | x > 0.0 witness 1.0

  /** Ten times the double-precision machine epsilon. */
  const EPS: real := 10.0 * 2.220446049250313e-16

  function Min(a: real, b: real): real { if b < a then b else a }

  function Max(a: real, b: real): real { if a < b then b else a }

  function Abs(a: real): real { if a < 0.0 then -a else a }

  function Sgn(a: real): real { if a < 0.0 then -1.0 else 1.0 }

  /** a / b away from zero, where rounding absorbs the SMALL that the source adds to b;
      at b == 0 the denominator is SMALL itself, so the result is finite. */
  function Ratio(a: real, b: real): real {
    if b == 0.0 then a / SMALL else a / b
  }

  function MakePositive(a: real): real { Max(a, EPS) }

  function MakeBounded(a: real, lo: real, hi: real): real {
    Min(Max(a, lo + EPS), hi * (1.0 - EPS))
  }

  /** What std::sqrt promises over exact reals. */
  ghost predicate IsSqrt(sqrt: real -> real) {
    forall x :: x >= 0.0 ==> sqrt(x) >= 0.0 && sqrt(x) * sqrt(x) == x
  }

  lemma RootOf(sqrt: real -> real, x: real)
    requires IsSqrt(sqrt) && x >= 0.0
    ensures sqrt(x) >= 0.0 && sqrt(x) * sqrt(x) == x && Sq(sqrt(x)) == x
  {
  }

  function Sq(a: real): real { a * a }

  function Prod(a: real, b: real): real { a * b }

  lemma SquarePos(a: real)
    requires a != 0.0
    ensures a * a > 0.0
  {
  }

  /** The same for a named square. */
  lemma SquareIsPos(a: real, s: real)
    requires a != 0.0 && s == a * a
    ensures s > 0.0
  {
    var q := s / a;
    DivIs(s, a, a);
    assert q * a == s;
    if a > 0.0 {
      MulPos(q, a);
    } else {
      var m, n := -q, -a;
      MulPos(m, n);
      assert m * n == q * a;
    }
  }

  lemma SquareNonneg(a: real)
    ensures a * a >= 0.0
  {
  }

  lemma MulNonneg(a: real, b: real)
    requires a >= 0.0 && b >= 0.0
    ensures a * b >= 0.0
  {
  }

  lemma MulPos(a: real, b: real)
    requires a > 0.0 && b > 0.0
    ensures a * b > 0.0
  {
  }

  lemma MulMono(a: real, b: real, c: real)
    requires a <= b && c >= 0.0
    ensures a * c <= b * c
  {
    MulNonneg(b - a, c);
    assert (b - a) * c == b * c - a * c;
  }

  lemma MulMonoStrict(a: real, b: real, c: real)
    requires a < b && c > 0.0
    ensures a * c < b * c
  {
    MulPos(b - a, c);
    assert (b - a) * c == b * c - a * c;
  }

  /** Squaring is monotone on nonnegative reals, in both directions. */
  lemma SquareOrder(a: real, b: real)
    requires a >= 0.0 && b >= 0.0
    ensures a <= b <==> a * a <= b * b
    ensures a < b <==> a * a < b * b
  {
    assert (b - a) * (b + a) == b * b - a * a;
    if a < b {
      MulPos(b - a, b + a);
    } else if b < a {
      MulPos(a - b, b + a);
      assert (a - b) * (b + a) == a * a - b * b;
    }
  }

  /** The same on the named square, for proofs that keep products closed. */
  lemma SqOrder(a: real, b: real)
    requires a >= 0.0 && b >= 0.0
    ensures a <= b <==> Sq(a) <= Sq(b)
    ensures a < b <==> Sq(a) < Sq(b)
  {
    SquareOrder(a, b);
  }

  lemma SqNonneg(a: real)
    ensures Sq(a) >= 0.0
  {
  }

  lemma ProdNonneg(a: real, b: real)
    requires a >= 0.0 && b >= 0.0
    ensures Prod(a, b) >= 0.0
  {
  }

  lemma ProdMono(c: real, a: real, b: real)
    requires a <= b && c >= 0.0
    ensures Prod(c, a) <= Prod(c, b)
  {
    MulMono(a, b, c);
  }

  lemma ProdOrder(a: real, b: real, c: real)
    requires a <= b && c >= 0.0
    ensures Prod(a, c) <= Prod(b, c)
  {
    MulMono(a, b, c);
  }

  lemma ProdPos(a: real, b: real)
    requires a > 0.0 && b > 0.0
    ensures Prod(a, b) > 0.0
  {
    MulPos(a, b);
  }

  /** |t| <= s when t^2 <= s^2. */
  lemma AbsFromSquare(t: real, s: real)
    requires Sq(t) <= Sq(s) && s >= 0.0
    ensures -s <= t <= s
  {
    if t > s { SquareOrder(s, t); }
    if t < -s {
      var u := -t;
      SquareOrder(s, u);
    }
  }

  lemma OneFactor(x: real, y: real)
    requires y == 1.0
    ensures x * y == x
  {
  }

  lemma UnitFactor(x: real, iW: real, W: real)
    requires iW * W == 1.0
    ensures x * iW * iW * W * W == x
  {
    calc {
      x * iW * iW * W * W;
      { Regroup(x, iW, W); }
      (x * iW * W) * (iW * W);
      { OneFactor(x * iW * W, iW * W); }
      x * iW * W;
      x * (iW * W);
      { OneFactor(x, iW * W); }
      x;
    }
  }

  lemma Regroup(x: real, iW: real, W: real)
    ensures x * iW * iW * W * W == (x * iW * W) * (iW * W)
  {
  }

  /** A positive factor can be cancelled. */
  lemma CancelPos(c: real, x: real)
    requires c > 0.0
    ensures c * x >= 0.0 <==> x >= 0.0
    ensures c * x > 0.0 <==> x > 0.0
  {
    if x > 0.0 {
      MulPos(c, x);
    } else if x < 0.0 {
      MulPos(c, -x);
    }
  }

  lemma DivMul(a: real, b: real)
    requires b != 0.0
    ensures a / b * b == a
  {
  }

  lemma DivProd(a: real, b: real)
    requires b != 0.0
    ensures Prod(a / b, b) == a
  {
  }

  /** q == a / b exactly when q * b == a. */
  lemma DivIs(a: real, b: real, q: real)
    requires b != 0.0
    ensures a / b == q <==> a == q * b
  {
  }

  lemma DivNonneg(a: real, b: real)
    requires a >= 0.0 && b > 0.0
    ensures a / b >= 0.0
  {
    var q := a / b;
    assert q * b == a;
    if q < 0.0 {
      MulPos(-q, b);
    }
  }

  lemma DivPos(a: real, b: real)
    requires a > 0.0 && b > 0.0
    ensures a / b > 0.0
  {
    DivNonneg(a, b);
    assert a / b * b == a;
  }

  /** a / b <= c exactly when a <= c * b, for a positive denominator. */
  lemma DivLe(a: real, b: real, c: real)
    requires b > 0.0
    ensures a / b <= c <==> a <= c * b
    ensures a / b < c <==> a < c * b
  {
    var q := a / b;
    assert q * b == a;
    assert (c - q) * b == c * b - a;
    if q < c {
      MulPos(c - q, b);
    } else if c < q {
      MulPos(q - c, b);
      assert (q - c) * b == a - c * b;
    }
  }
}
