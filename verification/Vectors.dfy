/** Spatial vectors and 3-metrics, as the SPACELOOP kernels use them. */
module Vectors {
  import opened Reals

  datatype Vec = Vec(c0: real, c1: real, c2: real) {
    function At(i: nat): real
      requires i < 3
    {
      if i == 0 then c0 else if i == 1 then c1 else c2
    }

    function Set(i: nat, x: real): Vec
      requires i < 3
    {
      if i == 0 then Vec(x, c1, c2) else if i == 1 then Vec(c0, x, c2) else Vec(c0, c1, x)
    }
  }

  datatype Mat = Mat(r0: Vec, r1: Vec, r2: Vec) {
    function Row(i: nat): Vec
      requires i < 3
    {
      if i == 0 then r0 else if i == 1 then r1 else r2
    }
  }

  const ZERO := Vec(0.0, 0.0, 0.0)

  function Add(a: Vec, b: Vec): Vec { Vec(a.c0 + b.c0, a.c1 + b.c1, a.c2 + b.c2) }

  function Scale(s: real, a: Vec): Vec { Vec(s * a.c0, s * a.c1, s * a.c2) }

  /** Index contraction a_i b^i. */
  function Dot(a: Vec, b: Vec): real { a.c0 * b.c0 + a.c1 * b.c1 + a.c2 * b.c2 }

  /** The first n terms of it, as a loop over the indices adds them. */
  function Partial(a: Vec, b: Vec, n: nat): real
    requires n <= 3
  {
    if n == 0 then 0.0 else Partial(a, b, n - 1) + a.At(n - 1) * b.At(n - 1)
  }

  lemma PartialAll(a: Vec, b: Vec)
    ensures Partial(a, b, 0) == 0.0 && Partial(a, b, 3) == Dot(a, b)
  {
    assert Partial(a, b, 1) == a.c0 * b.c0;
    assert Partial(a, b, 2) == a.c0 * b.c0 + a.c1 * b.c1;
  }

  lemma PartialNext(a: Vec, b: Vec, n: nat)
    requires n < 3
    ensures Partial(a, b, n + 1) == Partial(a, b, n) + a.At(n) * b.At(n)
  {
  }

  lemma ApplyAt(m: Mat, v: Vec, n: nat)
    requires n < 3
    ensures Apply(m, v).At(n) == Dot(m.Row(n), v)
  {
    hide Dot;
  }

  /** Lower or raise an index: (m v)_i = m_ij v^j. */
  function Apply(m: Mat, v: Vec): Vec { Vec(Dot(m.r0, v), Dot(m.r1, v), Dot(m.r2, v)) }

  /** m_ij a^i b^j. */
  function Inner(m: Mat, a: Vec, b: Vec): real { Dot(a, Apply(m, b)) }

  predicate Symmetric(m: Mat) {
    m.r0.c1 == m.r1.c0 && m.r0.c2 == m.r2.c0 && m.r1.c2 == m.r2.c1
  }

  /** A Riemannian 3-metric together with its inverse. */
  ghost predicate IsMetric(gcov: Mat, gcon: Mat) {
    && Symmetric(gcov)
    && (forall v :: Inner(gcov, v, v) >= 0.0)
    && (forall v :: Apply(gcon, Apply(gcov, v)) == v)
    && (forall v :: Apply(gcov, Apply(gcon, v)) == v)
  }

  /** s a + t b. */
  function Comb(s: real, a: real, t: real, b: real): real { s * a + t * b }

  lemma CombParts(s: real, a: Vec, t: real, b: Vec, w: Vec)
    ensures w == Add(Scale(s, a), Scale(t, b)) <==>
            w.c0 == Comb(s, a.c0, t, b.c0) && w.c1 == Comb(s, a.c1, t, b.c1) && w.c2 == Comb(s, a.c2, t, b.c2)
  {
  }

  lemma CombinationParts(s: real, a: Vec, t: real, b: Vec, w: Vec)
    ensures w == Add(Scale(s, a), Scale(t, b)) <==>
            w.c0 == s * a.c0 + t * b.c0 && w.c1 == s * a.c1 + t * b.c1 && w.c2 == s * a.c2 + t * b.c2
  {
  }

  lemma DotLinear(a: Vec, b: Vec, s: real, c: Vec, t: real)
    ensures Dot(a, Add(Scale(s, b), Scale(t, c))) == s * Dot(a, b) + t * Dot(a, c)
    ensures Dot(Add(Scale(s, b), Scale(t, c)), a) == s * Dot(b, a) + t * Dot(c, a)
  {
  }

  lemma ApplyLinear(m: Mat, b: Vec, s: real, c: Vec, t: real)
    ensures Apply(m, Add(Scale(s, b), Scale(t, c))) == Add(Scale(s, Apply(m, b)), Scale(t, Apply(m, c)))
  {
    DotLinear(m.r0, b, s, c, t);
    DotLinear(m.r1, b, s, c, t);
    DotLinear(m.r2, b, s, c, t);
  }

  lemma InnerSymmetric(m: Mat, a: Vec, b: Vec)
    requires Symmetric(m)
    ensures Inner(m, a, b) == Inner(m, b, a)
  {
  }

  lemma InnerLinear(m: Mat, a: Vec, b: Vec, s: real, c: Vec, t: real)
    requires Symmetric(m)
    ensures Inner(m, a, Add(Scale(s, b), Scale(t, c))) == s * Inner(m, a, b) + t * Inner(m, a, c)
    ensures Inner(m, Add(Scale(s, b), Scale(t, c)), a) == s * Inner(m, b, a) + t * Inner(m, c, a)
  {
    ApplyLinear(m, b, s, c, t);
    DotLinear(a, Apply(m, b), s, Apply(m, c), t);
    InnerSymmetric(m, a, Add(Scale(s, b), Scale(t, c)));
    InnerSymmetric(m, a, b);
    InnerSymmetric(m, a, c);
  }

  /** |s a + t b|^2 expanded. */
  lemma InnerSquare(m: Mat, a: Vec, s: real, b: Vec, t: real)
    requires Symmetric(m)
    ensures var w := Add(Scale(s, a), Scale(t, b));
            Inner(m, w, w) == s * s * Inner(m, a, a) + 2.0 * s * t * Inner(m, a, b) + t * t * Inner(m, b, b)
  {
    var w := Add(Scale(s, a), Scale(t, b));
    InnerLinear(m, w, a, s, b, t);
    InnerLinear(m, a, a, s, b, t);
    InnerLinear(m, b, a, s, b, t);
    InnerSymmetric(m, a, b);
  }

  lemma InnerScale(m: Mat, s: real, v: Vec)
    requires Symmetric(m)
    ensures Inner(m, Scale(s, v), Scale(s, v)) == Sq(s) * Inner(m, v, v)
  {
    hide Inner;
    InnerSquare(m, v, s, v, 0.0);
    AddZero(s, v);
    ZeroTerms(s, Inner(m, v, v));
  }

  lemma AddZero(s: real, b: Vec)
    ensures Add(Scale(s, b), Scale(0.0, b)) == Scale(s, b)
  {
  }

  lemma ZeroTerms(s: real, x: real)
    ensures s * s * x + 2.0 * s * 0.0 * x + 0.0 * 0.0 * x == Sq(s) * x
  {
  }

  /** Cauchy-Schwarz for a positive semidefinite form. */
  lemma CauchySchwarz(m: Mat, a: Vec, b: Vec)
    requires Symmetric(m) && forall v :: Inner(m, v, v) >= 0.0
    ensures Inner(m, a, b) * Inner(m, a, b) <= Inner(m, a, a) * Inner(m, b, b)
  {
    var A, B, C := Inner(m, a, a), Inner(m, a, b), Inner(m, b, b);
    if C > 0.0 {
      InnerSquare(m, a, C, b, -B);
      var w := Add(Scale(C, a), Scale(-B, b));
      assert Inner(m, w, w) == C * (A * C - B * B);
      CancelPos(C, A * C - B * B);
    } else {
      // C == 0: b is null, so a + t b forces a . b == 0
      if B != 0.0 {
        var t := -(A + 1.0) / (2.0 * B);
        assert t * B * 2.0 == -(A + 1.0);
        assert t * t * C == 0.0;
        InnerSquare(m, a, 1.0, b, t);
        assert false;
      }
    }
  }

  const IDENTITY := Mat(Vec(1.0, 0.0, 0.0), Vec(0.0, 1.0, 0.0), Vec(0.0, 0.0, 1.0))

  lemma IdentityApplies(v: Vec)
    ensures Apply(IDENTITY, v) == v
  {
  }

  lemma AxisNorm(y: real)
    ensures Dot(Vec(y, 0.0, 0.0), Vec(y, 0.0, 0.0)) == Sq(y)
  {
  }
}
