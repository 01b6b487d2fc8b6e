/** Orthonormal frames by Gram-Schmidt in a Lorentzian metric, and the changes of frame they give. */
module Tetrads {
  import opened Reals

  datatype Vec4 = Vec4(x0: real, x1: real, x2: real, x3: real) {
    function At(i: nat): real
      requires i < 4
    {
      if i == 0 then x0 else if i == 1 then x1 else if i == 2 then x2 else x3
    }
  }

  datatype Metric = Metric(r0: Vec4, r1: Vec4, r2: Vec4, r3: Vec4) {
    predicate Symmetric() {
      && r0.x1 == r1.x0 && r0.x2 == r2.x0 && r0.x3 == r3.x0
      && r1.x2 == r2.x1 && r1.x3 == r3.x1 && r2.x3 == r3.x2
    }
  }

  function Unit(mu: nat): Vec4 {
    Vec4(if mu == 0 then 1.0 else 0.0, if mu == 1 then 1.0 else 0.0,
         if mu == 2 then 1.0 else 0.0, if mu == 3 then 1.0 else 0.0)
  }

  function Dot(a: Vec4, b: Vec4): real { a.x0 * b.x0 + a.x1 * b.x1 + a.x2 * b.x2 + a.x3 * b.x3 }

  function Lower(g: Metric, v: Vec4): Vec4 { Vec4(Dot(g.r0, v), Dot(g.r1, v), Dot(g.r2, v), Dot(g.r3, v)) }

  /** g(a, b). */
  function Inner(g: Metric, a: Vec4, b: Vec4): real { Dot(a, Lower(g, b)) }

  /** s a + t b. */
  function Mix(s: real, a: Vec4, t: real, b: Vec4): Vec4 {
    Vec4(s * a.x0 + t * b.x0, s * a.x1 + t * b.x1, s * a.x2 + t * b.x2, s * a.x3 + t * b.x3)
  }

  function Scaled(s: real, a: Vec4): Vec4 { Vec4(s * a.x0, s * a.x1, s * a.x2, s * a.x3) }

  function Lin(s: real, x: real, t: real, y: real): real { s * x + t * y }

  lemma DotMix(c: Vec4, s: real, a: Vec4, t: real, b: Vec4)
    ensures Dot(c, Mix(s, a, t, b)) == Lin(s, Dot(c, a), t, Dot(c, b))
    ensures Dot(Mix(s, a, t, b), c) == Lin(s, Dot(a, c), t, Dot(b, c))
  {
  }

  lemma LowerMix(g: Metric, s: real, a: Vec4, t: real, b: Vec4)
    ensures Lower(g, Mix(s, a, t, b)) == Mix(s, Lower(g, a), t, Lower(g, b))
  {
    hide Dot;
    DotMix(g.r0, s, a, t, b);
    DotMix(g.r1, s, a, t, b);
    DotMix(g.r2, s, a, t, b);
    DotMix(g.r3, s, a, t, b);
  }

  lemma InnerMix(g: Metric, c: Vec4, s: real, a: Vec4, t: real, b: Vec4)
    ensures Inner(g, c, Mix(s, a, t, b)) == Lin(s, Inner(g, c, a), t, Inner(g, c, b))
    ensures Inner(g, Mix(s, a, t, b), c) == Lin(s, Inner(g, a, c), t, Inner(g, b, c))
  {
    hide Dot, Lower, Mix;
    LowerMix(g, s, a, t, b);
    DotMix(c, s, Lower(g, a), t, Lower(g, b));
    DotMix(Lower(g, c), s, a, t, b);
    DotCommutes(Lower(g, c), Mix(s, a, t, b));
    DotMix(Lower(g, c), s, a, t, b);
    DotCommutes(Lower(g, c), a);
    DotCommutes(Lower(g, c), b);
  }

  lemma DotCommutes(a: Vec4, b: Vec4)
    ensures Dot(a, b) == Dot(b, a)
  {
  }

  lemma InnerSymmetric(g: Metric, a: Vec4, b: Vec4)
    requires g.Symmetric()
    ensures Inner(g, a, b) == Inner(g, b, a)
  {
  }

  // ---------------------------------------------------------------------------------------------
  // Gram-Schmidt.

  /** ProjectOut_: a minus its part along b. */
  function ProjectOut(g: Metric, a: Vec4, b: Vec4): Vec4
    requires Inner(g, b, b) != 0.0
  {
    Mix(1.0, a, -(Inner(g, a, b) / Inner(g, b, b)), b)
  }

  /** Normalize_: divided by the root of the absolute norm. */
  function Normalized(sqrt: real -> real, g: Metric, v: Vec4): Vec4
    requires sqrt(Abs(Inner(g, v, v))) != 0.0
  {
    var n := sqrt(Abs(Inner(g, v, v)));
    Vec4(v.x0 / n, v.x1 / n, v.x2 / n, v.x3 / n)
  }

  lemma ProjectedOrthogonal(g: Metric, a: Vec4, b: Vec4)
    requires g.Symmetric() && Inner(g, b, b) != 0.0
    ensures Inner(g, ProjectOut(g, a, b), b) == 0.0
    ensures forall c :: Inner(g, c, b) == 0.0 ==> Inner(g, ProjectOut(g, a, b), c) == Inner(g, a, c)
  {
    hide Inner, Mix, Metric.Symmetric;
    var q := Inner(g, a, b) / Inner(g, b, b);
    DivMul(Inner(g, a, b), Inner(g, b, b));
    InnerMix(g, b, 1.0, a, -q, b);
    forall c | Inner(g, c, b) == 0.0 ensures Inner(g, ProjectOut(g, a, b), c) == Inner(g, a, c) {
      InnerMix(g, c, 1.0, a, -q, b);
      InnerSymmetric(g, c, b);
    }
  }

  lemma RootOfNonzero(sqrt: real -> real, x: real)
    requires IsSqrt(sqrt) && x != 0.0
    ensures sqrt(Abs(x)) > 0.0 && sqrt(Abs(x)) * sqrt(Abs(x)) == Abs(x)
  {
  }

  lemma NormalizedForm(sqrt: real -> real, g: Metric, v: Vec4)
    requires IsSqrt(sqrt) && Inner(g, v, v) != 0.0
    ensures sqrt(Abs(Inner(g, v, v))) > 0.0
    ensures var s := 1.0 / sqrt(Abs(Inner(g, v, v)));
            s > 0.0 && Normalized(sqrt, g, v) == Mix(s, v, 0.0, v)
  {
    hide Inner;
    RootOfNonzero(sqrt, Inner(g, v, v));
    var n := sqrt(Abs(Inner(g, v, v)));
    DivPos(1.0, n);
    OverRoot(v.x0, n);
    OverRoot(v.x1, n);
    OverRoot(v.x2, n);
    OverRoot(v.x3, n);
  }

  lemma OverRoot(x: real, n: real)
    requires n > 0.0
    ensures x / n == 1.0 / n * x + 0.0 * x
  {
    DivMul(1.0, n);
    DivIs(x, n, 1.0 / n * x);
    assert 1.0 / n * x * n == x * (1.0 / n * n);
  }

  /** Length one with the sign of the norm; orthogonality is kept, and the vector is recovered. */
  lemma NormalizedUnit(sqrt: real -> real, g: Metric, v: Vec4)
    requires IsSqrt(sqrt) && g.Symmetric() && Inner(g, v, v) != 0.0
    ensures sqrt(Abs(Inner(g, v, v))) > 0.0
    ensures var e := Normalized(sqrt, g, v);
            && Inner(g, e, e) == (if Inner(g, v, v) > 0.0 then 1.0 else -1.0)
            && (forall c :: Inner(g, v, c) == 0.0 ==> Inner(g, e, c) == 0.0)
  {
    hide Inner, Mix, Normalized, Metric.Symmetric;
    NormalizedForm(sqrt, g, v);
    var N, n := Inner(g, v, v), sqrt(Abs(Inner(g, v, v)));
    var s, e := 1.0 / n, Normalized(sqrt, g, v);
    InnerMix(g, v, s, v, 0.0, v);
    InnerMix(g, e, s, v, 0.0, v);
    UnitNorm(s, n, N, Inner(g, v, e), Inner(g, e, v), Inner(g, e, e));
    forall c | Inner(g, v, c) == 0.0 ensures Inner(g, e, c) == 0.0 {
      InnerMix(g, c, s, v, 0.0, v);
    }
  }

  lemma UnitNorm(s: real, n: real, N: real, ve: real, ev: real, ee: real)
    requires n > 0.0 && s == 1.0 / n && n * n == Abs(N) && N != 0.0
    requires ve == Lin(s, N, 0.0, N) && ev == Lin(s, N, 0.0, N) && ee == Lin(s, ev, 0.0, ev)
    ensures ee == if N > 0.0 then 1.0 else -1.0
  {
    DivMul(1.0, n);
    assert ee == s * s * N;
    assert s * s * (n * n) == 1.0 by { assert s * s * (n * n) == (s * n) * (s * n); }
  }

  // ---------------------------------------------------------------------------------------------
  // The frame.

  datatype Frame = Frame(e0: Vec4, e1: Vec4, e2: Vec4, e3: Vec4) {
    function Row(a: nat): Vec4
      requires a < 4
    {
      if a == 0 then e0 else if a == 1 then e1 else if a == 2 then e2 else e3
    }
  }

  ghost predicate Orthonormal(g: Metric, f: Frame) {
    && Inner(g, f.e0, f.e0) == -1.0 && Inner(g, f.e1, f.e1) == 1.0
    && Inner(g, f.e2, f.e2) == 1.0 && Inner(g, f.e3, f.e3) == 1.0
    && Inner(g, f.e0, f.e1) == 0.0 && Inner(g, f.e0, f.e2) == 0.0 && Inner(g, f.e0, f.e3) == 0.0
    && Inner(g, f.e1, f.e2) == 0.0 && Inner(g, f.e1, f.e3) == 0.0 && Inner(g, f.e2, f.e3) == 0.0
  }

  /** A vector with a norm that can be divided by. */
  predicate Sized(sqrt: real -> real, g: Metric, v: Vec4) { sqrt(Abs(Inner(g, v, v))) != 0.0 }

  /** The residual of each seed vector after the earlier frame vectors are projected out: its norm has
      the sign its row needs. */
  ghost predicate Regular(sqrt: real -> real, g: Metric, w: Frame) {
    && Inner(g, w.e0, w.e0) < 0.0 && Sized(sqrt, g, w.e0)
    && var e0 := Normalized(sqrt, g, w.e0);
    && Inner(g, e0, e0) != 0.0
    && var a1 := ProjectOut(g, w.e1, e0);
    && Inner(g, a1, a1) > 0.0 && Sized(sqrt, g, a1)
    && var e1 := Normalized(sqrt, g, a1);
    && Inner(g, e1, e1) != 0.0
    && var a2 := ProjectOut(g, ProjectOut(g, w.e2, e0), e1);
    && Inner(g, a2, a2) > 0.0 && Sized(sqrt, g, a2)
    && var e2 := Normalized(sqrt, g, a2);
    && Inner(g, e2, e2) != 0.0
    && var a3 := ProjectOut(g, ProjectOut(g, ProjectOut(g, w.e3, e0), e1), e2);
    && Inner(g, a3, a3) > 0.0 && Sized(sqrt, g, a3)
  }

  function GramSchmidt(sqrt: real -> real, g: Metric, w: Frame): Frame
    requires Regular(sqrt, g, w)
  {
    var e0 := Normalized(sqrt, g, w.e0);
    var e1 := Normalized(sqrt, g, ProjectOut(g, w.e1, e0));
    var e2 := Normalized(sqrt, g, ProjectOut(g, ProjectOut(g, w.e2, e0), e1));
    var e3 := Normalized(sqrt, g, ProjectOut(g, ProjectOut(g, ProjectOut(g, w.e3, e0), e1), e2));
    Frame(e0, e1, e2, e3)
  }

  lemma GramSchmidtOrthonormal(sqrt: real -> real, g: Metric, w: Frame)
    requires IsSqrt(sqrt) && g.Symmetric() && Regular(sqrt, g, w)
    ensures Orthonormal(g, GramSchmidt(sqrt, g, w))
  {
    hide Inner, ProjectOut, Normalized, Metric.Symmetric;
    var f := GramSchmidt(sqrt, g, w);
    NormalizedUnit(sqrt, g, w.e0);
    var a1 := ProjectOut(g, w.e1, f.e0);
    ProjectedOrthogonal(g, w.e1, f.e0);
    NormalizedUnit(sqrt, g, a1);
    InnerSymmetric(g, f.e0, f.e1);
    var b2 := ProjectOut(g, w.e2, f.e0);
    ProjectedOrthogonal(g, w.e2, f.e0);
    var a2 := ProjectOut(g, b2, f.e1);
    ProjectedOrthogonal(g, b2, f.e1);
    NormalizedUnit(sqrt, g, a2);
    InnerSymmetric(g, f.e0, f.e2);
    InnerSymmetric(g, f.e1, f.e2);
    var b3 := ProjectOut(g, w.e3, f.e0);
    ProjectedOrthogonal(g, w.e3, f.e0);
    var c3 := ProjectOut(g, b3, f.e1);
    ProjectedOrthogonal(g, b3, f.e1);
    var a3 := ProjectOut(g, c3, f.e2);
    ProjectedOrthogonal(g, c3, f.e2);
    NormalizedUnit(sqrt, g, a3);
    InnerSymmetric(g, f.e0, f.e3);
    InnerSymmetric(g, f.e1, f.e3);
    InnerSymmetric(g, f.e2, f.e3);
  }

  // ---------------------------------------------------------------------------------------------
  // Completeness: the frame vectors resolve every vector.

  function Term4(x0: real, c0: real, x1: real, c1: real, x2: real, c2: real, x3: real, c3: real): real {
    x0 * c0 + x1 * c1 + x2 * c2 + x3 * c3
  }

  function Sum4(x0: real, a0: Vec4, x1: real, a1: Vec4, x2: real, a2: Vec4, x3: real, a3: Vec4): Vec4 {
    Vec4(Term4(x0, a0.x0, x1, a1.x0, x2, a2.x0, x3, a3.x0), Term4(x0, a0.x1, x1, a1.x1, x2, a2.x1, x3, a3.x1),
         Term4(x0, a0.x2, x1, a1.x2, x2, a2.x2, x3, a3.x2), Term4(x0, a0.x3, x1, a1.x3, x2, a2.x3, x3, a3.x3))
  }

  lemma Sum4IsMix(x0: real, a0: Vec4, x1: real, a1: Vec4, x2: real, a2: Vec4, x3: real, a3: Vec4)
    ensures Sum4(x0, a0, x1, a1, x2, a2, x3, a3) == Mix(1.0, Mix(x0, a0, x1, a1), 1.0, Mix(x2, a2, x3, a3))
  {
    hide Term4, Lin, Mix;
    MixParts(1.0, Mix(x0, a0, x1, a1), 1.0, Mix(x2, a2, x3, a3));
    MixParts(x0, a0, x1, a1);
    MixParts(x2, a2, x3, a3);
    InPairs(x0, a0.x0, x1, a1.x0, x2, a2.x0, x3, a3.x0);
    InPairs(x0, a0.x1, x1, a1.x1, x2, a2.x1, x3, a3.x1);
    InPairs(x0, a0.x2, x1, a1.x2, x2, a2.x2, x3, a3.x2);
    InPairs(x0, a0.x3, x1, a1.x3, x2, a2.x3, x3, a3.x3);
  }

  lemma InPairs(x0: real, c0: real, x1: real, c1: real, x2: real, c2: real, x3: real, c3: real)
    ensures Term4(x0, c0, x1, c1, x2, c2, x3, c3) == Lin(1.0, Lin(x0, c0, x1, c1), 1.0, Lin(x2, c2, x3, c3))
  {
  }

  /** Sum over a of eta_aa (E_a . v) E_a. */
  function Expand(g: Metric, f: Frame, v: Vec4): Vec4 {
    Sum4(-Inner(g, f.e0, v), f.e0, Inner(g, f.e1, v), f.e1, Inner(g, f.e2, v), f.e2, Inner(g, f.e3, v), f.e3)
  }

  lemma Distribute4(s: real, t: real, a0: real, b0: real, a1: real, b1: real, a2: real, b2: real, a3: real, b3: real,
                    x0: real, x1: real, x2: real, x3: real)
    ensures Term4(Lin(s, a0, t, b0), x0, Lin(s, a1, t, b1), x1, Lin(s, a2, t, b2), x2, Lin(s, a3, t, b3), x3)
            == Lin(s, Term4(a0, x0, a1, x1, a2, x2, a3, x3), t, Term4(b0, x0, b1, x1, b2, x2, b3, x3))
  {
    One(s, t, a0, b0, x0);
    One(s, t, a1, b1, x1);
    One(s, t, a2, b2, x2);
    One(s, t, a3, b3, x3);
  }

  lemma One(s: real, t: real, a: real, b: real, x: real)
    ensures Lin(s, a, t, b) * x == s * (a * x) + t * (b * x)
  {
  }

  lemma MixParts(s: real, a: Vec4, t: real, b: Vec4)
    ensures Mix(s, a, t, b) == Vec4(Lin(s, a.x0, t, b.x0), Lin(s, a.x1, t, b.x1), Lin(s, a.x2, t, b.x2), Lin(s, a.x3, t, b.x3))
  {
  }

  lemma Sum4Mix(s: real, t: real, f: Frame, a0: real, b0: real, a1: real, b1: real, a2: real, b2: real, a3: real, b3: real)
    ensures Sum4(Lin(s, a0, t, b0), f.e0, Lin(s, a1, t, b1), f.e1, Lin(s, a2, t, b2), f.e2, Lin(s, a3, t, b3), f.e3)
            == Mix(s, Sum4(a0, f.e0, a1, f.e1, a2, f.e2, a3, f.e3), t, Sum4(b0, f.e0, b1, f.e1, b2, f.e2, b3, f.e3))
  {
    hide Lin, Term4, Mix;
    Distribute4(s, t, a0, b0, a1, b1, a2, b2, a3, b3, f.e0.x0, f.e1.x0, f.e2.x0, f.e3.x0);
    Distribute4(s, t, a0, b0, a1, b1, a2, b2, a3, b3, f.e0.x1, f.e1.x1, f.e2.x1, f.e3.x1);
    Distribute4(s, t, a0, b0, a1, b1, a2, b2, a3, b3, f.e0.x2, f.e1.x2, f.e2.x2, f.e3.x2);
    Distribute4(s, t, a0, b0, a1, b1, a2, b2, a3, b3, f.e0.x3, f.e1.x3, f.e2.x3, f.e3.x3);
    MixParts(s, Sum4(a0, f.e0, a1, f.e1, a2, f.e2, a3, f.e3), t, Sum4(b0, f.e0, b1, f.e1, b2, f.e2, b3, f.e3));
  }

  lemma NegateLin(s: real, a: real, t: real, b: real)
    ensures -Lin(s, a, t, b) == Lin(s, -a, t, -b)
  {
  }

  lemma ExpandMix(g: Metric, f: Frame, s: real, a: Vec4, t: real, b: Vec4)
    ensures Expand(g, f, Mix(s, a, t, b)) == Mix(s, Expand(g, f, a), t, Expand(g, f, b))
  {
    hide Inner, Mix, Lin, Sum4;
    InnerMix(g, f.e0, s, a, t, b);
    InnerMix(g, f.e1, s, a, t, b);
    InnerMix(g, f.e2, s, a, t, b);
    InnerMix(g, f.e3, s, a, t, b);
    NegateLin(s, Inner(g, f.e0, a), t, Inner(g, f.e0, b));
    Sum4Mix(s, t, f, -Inner(g, f.e0, a), -Inner(g, f.e0, b), Inner(g, f.e1, a), Inner(g, f.e1, b),
            Inner(g, f.e2, a), Inner(g, f.e2, b), Inner(g, f.e3, a), Inner(g, f.e3, b));
  }

  /** v is a combination of the frame vectors, with the coefficients the frame reads off. */
  ghost predicate Resolved(g: Metric, f: Frame, v: Vec4) { Expand(g, f, v) == v }

  lemma ResolvedMix(g: Metric, f: Frame, s: real, a: Vec4, t: real, b: Vec4)
    requires Resolved(g, f, a) && Resolved(g, f, b)
    ensures Resolved(g, f, Mix(s, a, t, b))
  {
    hide Expand, Mix;
    ExpandMix(g, f, s, a, t, b);
  }

  lemma FrameResolved(g: Metric, f: Frame)
    requires g.Symmetric() && Orthonormal(g, f)
    ensures Resolved(g, f, f.e0) && Resolved(g, f, f.e1) && Resolved(g, f, f.e2) && Resolved(g, f, f.e3)
  {
    hide Inner, Metric.Symmetric;
    InnerSymmetric(g, f.e0, f.e1);
    InnerSymmetric(g, f.e0, f.e2);
    InnerSymmetric(g, f.e0, f.e3);
    InnerSymmetric(g, f.e1, f.e2);
    InnerSymmetric(g, f.e1, f.e3);
    InnerSymmetric(g, f.e2, f.e3);
  }

  /** Undoing a projection and a normalization. */
  lemma Undo(sqrt: real -> real, g: Metric, a: Vec4, b: Vec4)
    requires Inner(g, b, b) != 0.0
    ensures a == Mix(1.0, ProjectOut(g, a, b), Inner(g, a, b) / Inner(g, b, b), b)
  {
    hide Inner;
  }

  lemma UndoNormalized(sqrt: real -> real, g: Metric, v: Vec4)
    requires IsSqrt(sqrt) && Inner(g, v, v) != 0.0
    ensures sqrt(Abs(Inner(g, v, v))) > 0.0
    ensures var e := Normalized(sqrt, g, v); v == Mix(sqrt(Abs(Inner(g, v, v))), e, 0.0, e)
  {
    hide Inner;
    RootOfNonzero(sqrt, Inner(g, v, v));
    var n := sqrt(Abs(Inner(g, v, v)));
    DivMul(v.x0, n);
    DivMul(v.x1, n);
    DivMul(v.x2, n);
    DivMul(v.x3, n);
  }

  /** The seeds are combinations of the frame, triangular with nonzero diagonal. */
  lemma SeedsResolved(sqrt: real -> real, g: Metric, w: Frame)
    requires IsSqrt(sqrt) && g.Symmetric() && Regular(sqrt, g, w)
    ensures var f := GramSchmidt(sqrt, g, w);
            Resolved(g, f, w.e0) && Resolved(g, f, w.e1) && Resolved(g, f, w.e2) && Resolved(g, f, w.e3)
  {
    hide Inner, ProjectOut, Normalized, Metric.Symmetric, Mix, Resolved, Orthonormal;
    var f := GramSchmidt(sqrt, g, w);
    GramSchmidtOrthonormal(sqrt, g, w);
    FrameResolved(g, f);
    ResolvedBack(sqrt, g, f, w.e0, f.e0);
    var a1 := ProjectOut(g, w.e1, f.e0);
    ResolvedBack(sqrt, g, f, a1, f.e1);
    ResolvedUnprojected(sqrt, g, f, w.e1, f.e0);
    var b2 := ProjectOut(g, w.e2, f.e0);
    ResolvedBack(sqrt, g, f, ProjectOut(g, b2, f.e1), f.e2);
    ResolvedUnprojected(sqrt, g, f, b2, f.e1);
    ResolvedUnprojected(sqrt, g, f, w.e2, f.e0);
    var b3 := ProjectOut(g, w.e3, f.e0);
    var c3 := ProjectOut(g, b3, f.e1);
    ResolvedBack(sqrt, g, f, ProjectOut(g, c3, f.e2), f.e3);
    ResolvedUnprojected(sqrt, g, f, c3, f.e2);
    ResolvedUnprojected(sqrt, g, f, b3, f.e1);
    ResolvedUnprojected(sqrt, g, f, w.e3, f.e0);
  }

  lemma ResolvedBack(sqrt: real -> real, g: Metric, f: Frame, v: Vec4, e: Vec4)
    requires IsSqrt(sqrt) && Inner(g, v, v) != 0.0 && Sized(sqrt, g, v) && e == Normalized(sqrt, g, v)
    requires Resolved(g, f, e)
    ensures Resolved(g, f, v)
  {
    hide Inner, Normalized, Mix, Resolved;
    UndoNormalized(sqrt, g, v);
    ResolvedMix(g, f, sqrt(Abs(Inner(g, v, v))), e, 0.0, e);
  }

  lemma ResolvedUnprojected(sqrt: real -> real, g: Metric, f: Frame, a: Vec4, b: Vec4)
    requires Inner(g, b, b) != 0.0 && Resolved(g, f, ProjectOut(g, a, b)) && Resolved(g, f, b)
    ensures Resolved(g, f, a)
  {
    hide Inner, ProjectOut, Mix, Resolved;
    Undo(sqrt, g, a, b);
    ResolvedMix(g, f, 1.0, ProjectOut(g, a, b), Inner(g, a, b) / Inner(g, b, b), b);
  }

  /** A row of the frame meets its own seed, and no earlier one. */
  ghost predicate Triangular(g: Metric, f: Frame, w: Frame) {
    && Inner(g, f.e0, w.e0) != 0.0
    && Inner(g, f.e1, w.e0) == 0.0 && Inner(g, f.e1, w.e1) != 0.0
    && Inner(g, f.e2, w.e0) == 0.0 && Inner(g, f.e2, w.e1) == 0.0 && Inner(g, f.e2, w.e2) != 0.0
    && Inner(g, f.e3, w.e0) == 0.0 && Inner(g, f.e3, w.e1) == 0.0 && Inner(g, f.e3, w.e2) == 0.0
    && Inner(g, f.e3, w.e3) != 0.0
  }

  /** e against v, for v an unnormalized frame vector: nonzero for its own row, zero otherwise. */
  lemma AgainstRaw(sqrt: real -> real, g: Metric, c: Vec4, v: Vec4, e: Vec4)
    requires IsSqrt(sqrt) && Inner(g, v, v) != 0.0 && Sized(sqrt, g, v) && e == Normalized(sqrt, g, v)
    ensures Inner(g, c, v) == 0.0 <==> Inner(g, c, e) == 0.0
  {
    UndoNormalized(sqrt, g, v);
    var n := sqrt(Abs(Inner(g, v, v)));
    InnerMix(g, c, n, e, 0.0, e);
    hide Inner, Normalized, Mix;
    Multiple(n, Inner(g, c, e), Inner(g, c, v));
  }

  lemma Multiple(n: real, x: real, y: real)
    requires n > 0.0 && y == Lin(n, x, 0.0, x)
    ensures y == 0.0 <==> x == 0.0
  {
    if x > 0.0 { MulPos(n, x); } else if x < 0.0 { MulPos(n, -x); }
  }

  lemma AgainstProjected(sqrt: real -> real, g: Metric, c: Vec4, a: Vec4, b: Vec4)
    requires Inner(g, b, b) != 0.0 && Inner(g, c, b) == 0.0
    ensures Inner(g, c, a) == Inner(g, c, ProjectOut(g, a, b))
  {
    hide Inner, Mix;
    InnerMix(g, c, 1.0, a, -(Inner(g, a, b) / Inner(g, b, b)), b);
  }

  lemma SeedsTriangular(sqrt: real -> real, g: Metric, w: Frame)
    requires IsSqrt(sqrt) && g.Symmetric() && Regular(sqrt, g, w)
    ensures Triangular(g, GramSchmidt(sqrt, g, w), w)
  {
    hide Inner, ProjectOut, Normalized, Metric.Symmetric, Mix;
    var f := GramSchmidt(sqrt, g, w);
    GramSchmidtOrthonormal(sqrt, g, w);
    InnerSymmetric(g, f.e0, f.e1);
    InnerSymmetric(g, f.e0, f.e2);
    InnerSymmetric(g, f.e0, f.e3);
    InnerSymmetric(g, f.e1, f.e2);
    InnerSymmetric(g, f.e1, f.e3);
    InnerSymmetric(g, f.e2, f.e3);
    AgainstRaw(sqrt, g, f.e0, w.e0, f.e0);
    AgainstRaw(sqrt, g, f.e1, w.e0, f.e0);
    AgainstRaw(sqrt, g, f.e2, w.e0, f.e0);
    AgainstRaw(sqrt, g, f.e3, w.e0, f.e0);
    var a1 := ProjectOut(g, w.e1, f.e0);
    AgainstRaw(sqrt, g, f.e1, a1, f.e1);
    AgainstRaw(sqrt, g, f.e2, a1, f.e1);
    AgainstRaw(sqrt, g, f.e3, a1, f.e1);
    AgainstProjected(sqrt, g, f.e1, w.e1, f.e0);
    AgainstProjected(sqrt, g, f.e2, w.e1, f.e0);
    AgainstProjected(sqrt, g, f.e3, w.e1, f.e0);
    var b2 := ProjectOut(g, w.e2, f.e0);
    var a2 := ProjectOut(g, b2, f.e1);
    AgainstRaw(sqrt, g, f.e2, a2, f.e2);
    AgainstRaw(sqrt, g, f.e3, a2, f.e2);
    AgainstProjected(sqrt, g, f.e2, b2, f.e1);
    AgainstProjected(sqrt, g, f.e3, b2, f.e1);
    AgainstProjected(sqrt, g, f.e2, w.e2, f.e0);
    AgainstProjected(sqrt, g, f.e3, w.e2, f.e0);
    var b3 := ProjectOut(g, w.e3, f.e0);
    var c3 := ProjectOut(g, b3, f.e1);
    AgainstRaw(sqrt, g, f.e3, ProjectOut(g, c3, f.e2), f.e3);
    AgainstProjected(sqrt, g, f.e3, c3, f.e2);
    AgainstProjected(sqrt, g, f.e3, b3, f.e1);
    AgainstProjected(sqrt, g, f.e3, w.e3, f.e0);
  }

  const NOWHERE := Vec4(0.0, 0.0, 0.0, 0.0)

  /** So the seeds are independent. */
  lemma SeedsIndependent(g: Metric, f: Frame, w: Frame, x0: real, x1: real, x2: real, x3: real)
    requires Triangular(g, f, w) && Sum4(x0, w.e0, x1, w.e1, x2, w.e2, x3, w.e3) == NOWHERE
    ensures x0 == 0.0 && x1 == 0.0 && x2 == 0.0 && x3 == 0.0
  {
    hide Inner, Mix, Sum4;
    InnerSum(g, f.e3, w, x0, x1, x2, x3);
    NoProduct(x3, Inner(g, f.e3, w.e3));
    InnerSum(g, f.e2, w, x0, x1, x2, x3);
    NoProduct(x2, Inner(g, f.e2, w.e2));
    InnerSum(g, f.e1, w, x0, x1, x2, x3);
    NoProduct(x1, Inner(g, f.e1, w.e1));
    InnerSum(g, f.e0, w, x0, x1, x2, x3);
    NoProduct(x0, Inner(g, f.e0, w.e0));
  }

  lemma InnerSum(g: Metric, c: Vec4, w: Frame, x0: real, x1: real, x2: real, x3: real)
    ensures Sum4(x0, w.e0, x1, w.e1, x2, w.e2, x3, w.e3) == NOWHERE ==>
              Term4(x0, Inner(g, c, w.e0), x1, Inner(g, c, w.e1), x2, Inner(g, c, w.e2), x3, Inner(g, c, w.e3)) == 0.0
  {
    Sum4IsMix(x0, w.e0, x1, w.e1, x2, w.e2, x3, w.e3);
    var a, b := Mix(x0, w.e0, x1, w.e1), Mix(x2, w.e2, x3, w.e3);
    InnerMix(g, c, 1.0, a, 1.0, b);
    InnerMix(g, c, x0, w.e0, x1, w.e1);
    InnerMix(g, c, x2, w.e2, x3, w.e3);
    InnerZero(g, c);
    hide Inner, Mix, Sum4;
  }

  lemma InnerZero(g: Metric, c: Vec4)
    ensures Inner(g, c, NOWHERE) == 0.0
  {
  }

  lemma NoProduct(x: real, y: real)
    requires y != 0.0 && x * y == 0.0
    ensures x == 0.0
  {
    DivIs(0.0, y, x);
    DivIs(0.0, y, 0.0);
  }

  /** The seeds of the source: U, then the coordinate directions, with the trial vector in place of
      direction k. (Leaving all directions is the same as a trial vector equal to one of them.) */
  function Seeds(U: Vec4, T: Vec4, k: nat): Frame {
    Frame(U, if k == 1 then T else Unit(1), if k == 2 then T else Unit(2), if k == 3 then T else Unit(3))
  }

  /** The coefficient of row a when the time and k components are matched by x U + y T. */
  function Coefficient(U: Vec4, T: Vec4, k: nat, x: real, y: real, V: Vec4, a: nat): real
    requires a < 4
  {
    if a == k then y else V.At(a) - Lin(x, U.At(a), y, T.At(a))
  }

  lemma SeedSum(U: Vec4, T: Vec4, k: nat, x: real, y: real, V: Vec4)
    requires 1 <= k <= 3 && Lin(x, U.x0, y, T.x0) == V.x0 && Lin(x, U.At(k), y, T.At(k)) == V.At(k)
    ensures var w := Seeds(U, T, k);
            Sum4(x, w.e0, Coefficient(U, T, k, x, y, V, 1), w.e1, Coefficient(U, T, k, x, y, V, 2), w.e2,
                 Coefficient(U, T, k, x, y, V, 3), w.e3) == V
  {
    hide Term4, Lin;
    var c1, c2, c3 := Coefficient(U, T, k, x, y, V, 1), Coefficient(U, T, k, x, y, V, 2), Coefficient(U, T, k, x, y, V, 3);
    var w := Seeds(U, T, k);
    SeedComponent(x, U.x0, y, T.x0, c1, w.e1.x0, c2, w.e2.x0, c3, w.e3.x0, k, 0, V.x0);
    SeedComponent(x, U.x1, y, T.x1, c1, w.e1.x1, c2, w.e2.x1, c3, w.e3.x1, k, 1, V.x1);
    SeedComponent(x, U.x2, y, T.x2, c1, w.e1.x2, c2, w.e2.x2, c3, w.e3.x2, k, 2, V.x2);
    SeedComponent(x, U.x3, y, T.x3, c1, w.e1.x3, c2, w.e2.x3, c3, w.e3.x3, k, 3, V.x3);
  }

  /** One component j of that sum: u and t are those of U and T, v what they must add up to; seed a has
      component d_a, which is t for a == k and one or zero otherwise. */
  lemma SeedComponent(x: real, u: real, y: real, t: real, c1: real, d1: real, c2: real, d2: real, c3: real, d3: real,
                      k: nat, j: nat, v: real)
    requires 1 <= k <= 3 && j < 4
    requires d1 == (if k == 1 then t else if j == 1 then 1.0 else 0.0)
    requires d2 == (if k == 2 then t else if j == 2 then 1.0 else 0.0)
    requires d3 == (if k == 3 then t else if j == 3 then 1.0 else 0.0)
    requires (k == 1 ==> c1 == y) && (k == 2 ==> c2 == y) && (k == 3 ==> c3 == y)
    requires j == 0 || j == k ==> Lin(x, u, y, t) == v
    requires j != k && j == 1 ==> c1 == v - Lin(x, u, y, t)
    requires j != k && j == 2 ==> c2 == v - Lin(x, u, y, t)
    requires j != k && j == 3 ==> c3 == v - Lin(x, u, y, t)
    ensures Term4(x, u, c1, d1, c2, d2, c3, d3) == v
  {
  }

  lemma SeedDeterminant(g: Metric, f: Frame, U: Vec4, T: Vec4, k: nat)
    requires 1 <= k <= 3 && Triangular(g, f, Seeds(U, T, k))
    ensures SeedDet(U, T, k) != 0.0
  {
    hide Triangular, Sum4, Seeds;
    if U.x0 * T.At(k) - U.At(k) * T.x0 == 0.0 {
      var x, y := 1.0, 0.0;
      if U.x0 != 0.0 || T.x0 != 0.0 {
        x, y := T.x0, -U.x0;
      } else if U.At(k) != 0.0 || T.At(k) != 0.0 {
        x, y := T.At(k), -U.At(k);
      }
      assert Lin(x, U.x0, y, T.x0) == 0.0 && Lin(x, U.At(k), y, T.At(k)) == 0.0;
      NoRelation(g, f, U, T, k, x, y);
    }
  }

  lemma NoRelation(g: Metric, f: Frame, U: Vec4, T: Vec4, k: nat, x: real, y: real)
    requires 1 <= k <= 3 && Triangular(g, f, Seeds(U, T, k))
    requires Lin(x, U.x0, y, T.x0) == 0.0 && Lin(x, U.At(k), y, T.At(k)) == 0.0
    ensures x == 0.0 && y == 0.0
  {
    hide Triangular, Sum4, Seeds, Lin;
    SeedSum(U, T, k, x, y, NOWHERE);
    SeedsIndependent(g, f, Seeds(U, T, k), x, Coefficient(U, T, k, x, y, NOWHERE, 1),
                     Coefficient(U, T, k, x, y, NOWHERE, 2), Coefficient(U, T, k, x, y, NOWHERE, 3));
  }

  /** Cramer's rule for the two components that the coordinate seeds do not supply. */
  lemma Cramer(a: real, b: real, c: real, d: real, p: real, q: real) returns (x: real, y: real)
    requires a * d - b * c != 0.0
    ensures Lin(x, a, y, c) == p && Lin(x, b, y, d) == q
  {
    var det := a * d - b * c;
    var u, v := p * d - q * c, a * q - b * p;
    x, y := u / det, v / det;
    DivMul(u, det);
    DivMul(v, det);
    SolveCheck(det, x, y, u, v, a, c, p);
    SolveCheck(det, x, y, u, v, b, d, q);
  }

  lemma SolveCheck(det: real, x: real, y: real, u: real, v: real, a: real, c: real, p: real)
    requires det != 0.0 && x * det == u && y * det == v && u * a + v * c == p * det
    ensures Lin(x, a, y, c) == p
  {
    var r := x * a + y * c;
    assert r * det == p * det by {
      assert r * det == (x * det) * a + (y * det) * c;
    }
    DivIs(p * det, det, r);
    DivIs(p * det, det, p);
  }

  /** Every vector is resolved by the frame: the seeds span the tangent space. */
  lemma FrameComplete(sqrt: real -> real, g: Metric, U: Vec4, T: Vec4, k: nat, V: Vec4)
    requires IsSqrt(sqrt) && g.Symmetric() && 1 <= k <= 3 && Regular(sqrt, g, Seeds(U, T, k))
    ensures Resolved(g, GramSchmidt(sqrt, g, Seeds(U, T, k)), V)
  {
    hide Regular, Triangular, Resolved, GramSchmidt, Sum4, Mix, Seeds, Lin;
    var w := Seeds(U, T, k);
    var f := GramSchmidt(sqrt, g, w);
    SeedsTriangular(sqrt, g, w);
    SeedsResolved(sqrt, g, w);
    SeedDeterminant(g, f, U, T, k);
    var x, y := Cramer(U.x0, U.At(k), T.x0, T.At(k), V.x0, V.At(k));
    SeedSum(U, T, k, x, y, V);
    var c1, c2, c3 := Coefficient(U, T, k, x, y, V, 1), Coefficient(U, T, k, x, y, V, 2), Coefficient(U, T, k, x, y, V, 3);
    Sum4IsMix(x, w.e0, c1, w.e1, c2, w.e2, c3, w.e3);
    ResolvedMix(g, f, x, w.e0, c1, w.e1);
    ResolvedMix(g, f, c2, w.e2, c3, w.e3);
    ResolvedMix(g, f, 1.0, Mix(x, w.e0, c1, w.e1), 1.0, Mix(c2, w.e2, c3, w.e3));
  }

  // ---------------------------------------------------------------------------------------------
  // When the seeds can be orthonormalized. In a 3+1 metric the vectors without a time component have
  // positive norm.

  ghost predicate SpatiallyDefinite(g: Metric) {
    g.Symmetric() && forall X: Vec4 :: X.x0 == 0.0 && X != NOWHERE ==> Inner(g, X, X) > 0.0
  }

  /** A timelike vector has a time component. */
  lemma TimelikeMoves(g: Metric, U: Vec4)
    requires SpatiallyDefinite(g) && Inner(g, U, U) < 0.0
    ensures U.x0 != 0.0
  {
    InnerZero(g, U);
    hide Inner;
  }

  /** What is orthogonal to a timelike vector is spacelike. */
  lemma AcrossTime(g: Metric, U: Vec4, X: Vec4)
    requires SpatiallyDefinite(g) && Inner(g, U, U) < 0.0 && Inner(g, X, U) == 0.0 && X != NOWHERE
    ensures Inner(g, X, X) > 0.0
  {
    hide *;
    TimelikeMoves(g, U);
    DefiniteSymmetric(g);
    var l := X.x0 / U.x0;
    var S := Mix(1.0, X, -l, U);
    InSlice(X, U, l, S);
    InnerMix(g, S, 1.0, X, -l, U);
    InnerMix(g, X, 1.0, X, -l, U);
    InnerMix(g, U, 1.0, X, -l, U);
    InnerSymmetric(g, X, U);
    InnerZero(g, S);
    SliceNorm(g, S);
    SplitNorm(l, Inner(g, S, S), Inner(g, X, X), Inner(g, U, U), Inner(g, S, X), Inner(g, S, U));
  }

  lemma InSlice(X: Vec4, U: Vec4, l: real, S: Vec4)
    requires U.x0 != 0.0 && l == X.x0 / U.x0 && S == Mix(1.0, X, -l, U) && X != NOWHERE
    ensures S.x0 == 0.0 && (S == NOWHERE ==> l != 0.0)
  {
    DivMul(X.x0, U.x0);
    if S == NOWHERE && l == 0.0 { NoShift(X, U); }
  }

  lemma SliceNorm(g: Metric, S: Vec4)
    requires SpatiallyDefinite(g) && S.x0 == 0.0
    ensures S != NOWHERE ==> Inner(g, S, S) > 0.0
  {
    hide Inner;
  }

  lemma NoShift(X: Vec4, U: Vec4)
    ensures Mix(1.0, X, -0.0, U) == X
  {
  }

  lemma SplitNorm(l: real, SS: real, XX: real, UU: real, SX: real, SU: real)
    requires SX == Lin(1.0, XX, -l, 0.0) && SU == Lin(1.0, 0.0, -l, UU) && SS == Lin(1.0, SX, -l, SU) && UU < 0.0
    requires SS > 0.0 || (SS == 0.0 && l != 0.0)
    ensures XX > 0.0
  {
    var m, u := l * l, -UU;
    assert SS == XX - m * u;
    SquareNonneg(l);
    MulNonneg(m, u);
    if l != 0.0 {
      SquareIsPos(l, m);
      MulPos(m, u);
    }
  }

  /** Covectors that tell the seeds apart: each meets its own seed and no earlier one. */
  datatype Dual = Dual(c1: Vec4, c2: Vec4, c3: Vec4)

  ghost predicate Separates(d: Dual, w: Frame) {
    && Dot(d.c1, w.e0) == 0.0 && Dot(d.c1, w.e1) != 0.0
    && Dot(d.c2, w.e0) == 0.0 && Dot(d.c2, w.e1) == 0.0 && Dot(d.c2, w.e2) != 0.0
    && Dot(d.c3, w.e0) == 0.0 && Dot(d.c3, w.e1) == 0.0 && Dot(d.c3, w.e2) == 0.0 && Dot(d.c3, w.e3) != 0.0
  }

  lemma NotNowhere(c: Vec4, v: Vec4)
    requires Dot(c, v) != 0.0
    ensures v != NOWHERE
  {
  }

  /** Projecting out and normalizing what a covector does not see changes nothing for it. */
  lemma SeesProjected(g: Metric, c: Vec4, a: Vec4, b: Vec4)
    requires Inner(g, b, b) != 0.0 && Dot(c, b) == 0.0
    ensures Dot(c, ProjectOut(g, a, b)) == Dot(c, a)
  {
    var q := -(Inner(g, a, b) / Inner(g, b, b));
    DotMix(c, 1.0, a, q, b);
    hide Dot, Inner, Mix;
  }

  lemma SeesNormalized(sqrt: real -> real, g: Metric, c: Vec4, v: Vec4)
    requires IsSqrt(sqrt) && Inner(g, v, v) != 0.0 && Sized(sqrt, g, v) && Dot(c, v) == 0.0
    ensures Dot(c, Normalized(sqrt, g, v)) == 0.0
  {
    hide Inner, Normalized, Dot, Mix;
    NormalizedForm(sqrt, g, v);
    DotMix(c, 1.0 / sqrt(Abs(Inner(g, v, v))), v, 0.0, v);
  }

  /** A residual across the time axis that some covector sees can be normalized, to a spacelike unit vector. */
  lemma GoodResidual(sqrt: real -> real, g: Metric, e0: Vec4, c: Vec4, a: Vec4)
    requires IsSqrt(sqrt) && SpatiallyDefinite(g) && Inner(g, e0, e0) < 0.0 && Inner(g, a, e0) == 0.0 && Dot(c, a) != 0.0
    ensures Inner(g, a, a) > 0.0 && Sized(sqrt, g, a)
    ensures Inner(g, Normalized(sqrt, g, a), Normalized(sqrt, g, a)) == 1.0
    ensures forall v :: Inner(g, a, v) == 0.0 ==> Inner(g, Normalized(sqrt, g, a), v) == 0.0
  {
    hide Inner, Dot, Normalized;
    NotNowhere(c, a);
    AcrossTime(g, e0, a);
    RootOfNonzero(sqrt, Inner(g, a, a));
    NormalizedUnit(sqrt, g, a);
  }

  /** Independent seeds over a timelike one can be orthonormalized, and every norm has the sign it needs. */
  lemma SeparatedRegular(sqrt: real -> real, g: Metric, w: Frame, d: Dual)
    requires IsSqrt(sqrt) && SpatiallyDefinite(g) && Inner(g, w.e0, w.e0) < 0.0 && Separates(d, w)
    ensures Regular(sqrt, g, w)
  {
    hide Inner, Dot, ProjectOut, Normalized, Metric.Symmetric;
    RootOfNonzero(sqrt, Inner(g, w.e0, w.e0));
    NormalizedUnit(sqrt, g, w.e0);
    var e0 := Normalized(sqrt, g, w.e0);
    SeesNormalized(sqrt, g, d.c1, w.e0);
    SeesNormalized(sqrt, g, d.c2, w.e0);
    SeesNormalized(sqrt, g, d.c3, w.e0);
    var a1 := FirstResidual(sqrt, g, w.e1, e0, d.c1);
    var e1 := Normalized(sqrt, g, a1);
    SeesProjected(g, d.c2, w.e1, e0);
    SeesProjected(g, d.c3, w.e1, e0);
    SeesNormalized(sqrt, g, d.c2, a1);
    SeesNormalized(sqrt, g, d.c3, a1);
    var a2 := SecondResidual(sqrt, g, w.e2, e0, e1, d.c2);
    var e2 := Normalized(sqrt, g, a2);
    SeesProjected(g, d.c3, w.e2, e0);
    SeesProjected(g, d.c3, ProjectOut(g, w.e2, e0), e1);
    SeesNormalized(sqrt, g, d.c3, a2);
    var a3 := ThirdResidual(sqrt, g, w.e3, e0, e1, e2, d.c3);
  }

  lemma FirstResidual(sqrt: real -> real, g: Metric, v: Vec4, e0: Vec4, c: Vec4) returns (a: Vec4)
    requires IsSqrt(sqrt) && SpatiallyDefinite(g) && Inner(g, e0, e0) == -1.0 && Dot(c, e0) == 0.0 && Dot(c, v) != 0.0
    ensures a == ProjectOut(g, v, e0) && Inner(g, a, a) > 0.0 && Sized(sqrt, g, a)
    ensures var e := Normalized(sqrt, g, a); Inner(g, e, e) == 1.0 && Inner(g, e, e0) == 0.0
  {
    hide Inner, Dot, ProjectOut, Normalized, Metric.Symmetric;
    a := ProjectOut(g, v, e0);
    ProjectedOrthogonal(g, v, e0);
    SeesProjected(g, c, v, e0);
    GoodResidual(sqrt, g, e0, c, a);
  }

  lemma SecondResidual(sqrt: real -> real, g: Metric, v: Vec4, e0: Vec4, e1: Vec4, c: Vec4) returns (a: Vec4)
    requires IsSqrt(sqrt) && SpatiallyDefinite(g) && Inner(g, e0, e0) == -1.0 && Inner(g, e1, e1) == 1.0
    requires Inner(g, e1, e0) == 0.0 && Dot(c, e0) == 0.0 && Dot(c, e1) == 0.0 && Dot(c, v) != 0.0
    ensures a == ProjectOut(g, ProjectOut(g, v, e0), e1) && Inner(g, a, a) > 0.0 && Sized(sqrt, g, a)
    ensures var e := Normalized(sqrt, g, a); Inner(g, e, e) == 1.0 && Inner(g, e, e0) == 0.0 && Inner(g, e, e1) == 0.0
  {
    hide Inner, Dot, ProjectOut, Normalized, Metric.Symmetric;
    var b := ProjectOut(g, v, e0);
    ProjectedOrthogonal(g, v, e0);
    SeesProjected(g, c, v, e0);
    a := ProjectOut(g, b, e1);
    ProjectedOrthogonal(g, b, e1);
    SeesProjected(g, c, b, e1);
    InnerSymmetric(g, e1, e0);
    GoodResidual(sqrt, g, e0, c, a);
  }

  lemma ThirdResidual(sqrt: real -> real, g: Metric, v: Vec4, e0: Vec4, e1: Vec4, e2: Vec4, c: Vec4) returns (a: Vec4)
    requires IsSqrt(sqrt) && SpatiallyDefinite(g)
    requires Inner(g, e0, e0) == -1.0 && Inner(g, e1, e1) == 1.0 && Inner(g, e2, e2) == 1.0
    requires Inner(g, e1, e0) == 0.0 && Inner(g, e2, e0) == 0.0
    requires Dot(c, e0) == 0.0 && Dot(c, e1) == 0.0 && Dot(c, e2) == 0.0 && Dot(c, v) != 0.0
    ensures a == ProjectOut(g, ProjectOut(g, ProjectOut(g, v, e0), e1), e2) && Inner(g, a, a) > 0.0 && Sized(sqrt, g, a)
  {
    hide Inner, Dot, ProjectOut, Normalized, Metric.Symmetric;
    var b1 := ProjectOut(g, v, e0);
    ProjectedOrthogonal(g, v, e0);
    SeesProjected(g, c, v, e0);
    var b2 := ProjectOut(g, b1, e1);
    ProjectedOrthogonal(g, b1, e1);
    SeesProjected(g, c, b1, e1);
    InnerSymmetric(g, e1, e0);
    a := ProjectOut(g, b2, e2);
    ProjectedOrthogonal(g, b2, e2);
    SeesProjected(g, c, b2, e2);
    InnerSymmetric(g, e2, e0);
    GoodResidual(sqrt, g, e0, c, a);
  }

  /** The determinant of U and T in the time and k components. */
  function SeedDet(U: Vec4, T: Vec4, k: nat): real
    requires k < 4
  {
    U.x0 * T.At(k) - U.At(k) * T.x0
  }

  /** The covector that reads off, up to that determinant, the coefficient of seed j. */
  function Reader(U: Vec4, T: Vec4, k: nat, j: nat): Vec4
    requires k < 4 && j < 4
  {
    if j == k then Mix(U.x0, Unit(k), -U.At(k), Unit(0))
    else Mix(1.0, Mix(SeedDet(U, T, k), Unit(j), -U.At(j), Mix(T.At(k), Unit(0), -T.x0, Unit(k))),
             -T.At(j), Mix(U.x0, Unit(k), -U.At(k), Unit(0)))
  }

  lemma DotUnit(m: nat, v: Vec4)
    requires m < 4
    ensures Dot(Unit(m), v) == v.At(m)
  {
  }

  lemma Reads1(U: Vec4, T: Vec4, k: nat, j: nat, v: Vec4)
    requires 1 <= k <= 3 && 1 <= j <= 3
    ensures Dot(Reader(U, T, k, j), v)
            == if j == k then U.x0 * v.At(k) - U.At(k) * v.x0
               else SeedDet(U, T, k) * v.At(j) - U.At(j) * (T.At(k) * v.x0 - T.x0 * v.At(k))
                    - T.At(j) * (U.x0 * v.At(k) - U.At(k) * v.x0)
  {
    hide *;
    DotUnit(0, v);
    DotUnit(k, v);
    DotUnit(j, v);
    var A, B := Mix(U.x0, Unit(k), -U.At(k), Unit(0)), Mix(T.At(k), Unit(0), -T.x0, Unit(k));
    var D := SeedDet(U, T, k);
    DotMix(v, U.x0, Unit(k), -U.At(k), Unit(0));
    DotMix(v, T.At(k), Unit(0), -T.x0, Unit(k));
    DotMix(v, D, Unit(j), -U.At(j), B);
    DotMix(v, 1.0, Mix(D, Unit(j), -U.At(j), B), -T.At(j), A);
    ReaderIs(U, T, k, j);
    AtZero(v);
    Combine(D, v.At(j), U.At(j), T.At(j), U.x0, U.At(k), T.x0, T.At(k), v.x0, v.At(k));
  }

  lemma AtZero(v: Vec4)
    ensures v.At(0) == v.x0
  {
  }

  lemma ReaderIs(U: Vec4, T: Vec4, k: nat, j: nat)
    requires k < 4 && j < 4
    ensures var A, B := Mix(U.x0, Unit(k), -U.At(k), Unit(0)), Mix(T.At(k), Unit(0), -T.x0, Unit(k));
            Reader(U, T, k, j) == if j == k then A else Mix(1.0, Mix(SeedDet(U, T, k), Unit(j), -U.At(j), B), -T.At(j), A)
  {
    hide Mix, Unit, SeedDet;
  }

  lemma Combine(D: real, vj: real, uj: real, tj: real, u0: real, uk: real, t0: real, tk: real, v0: real, vk: real)
    ensures Lin(u0, vk, -uk, v0) == u0 * vk - uk * v0
    ensures Lin(1.0, Lin(D, vj, -uj, Lin(tk, v0, -t0, vk)), -tj, Lin(u0, vk, -uk, v0))
            == D * vj - uj * (tk * v0 - t0 * vk) - tj * (u0 * vk - uk * v0)
  {
  }

  lemma ReaderSeparates(U: Vec4, T: Vec4, k: nat)
    requires 1 <= k <= 3 && SeedDet(U, T, k) != 0.0
    ensures Separates(Dual(Reader(U, T, k, 1), Reader(U, T, k, 2), Reader(U, T, k, 3)), Seeds(U, T, k))
  {
    hide Dot, Reader;
    ReaderRow(U, T, k, 1);
    ReaderRow(U, T, k, 2);
    ReaderRow(U, T, k, 3);
  }

  lemma ReaderRow(U: Vec4, T: Vec4, k: nat, j: nat)
    requires 1 <= k <= 3 && 1 <= j <= 3
    ensures var w, c := Seeds(U, T, k), Reader(U, T, k, j);
            && Dot(c, w.e0) == 0.0 && Dot(c, w.Row(j)) == SeedDet(U, T, k)
            && (j != 1 ==> Dot(c, w.e1) == 0.0) && (j != 2 ==> Dot(c, w.e2) == 0.0) && (j != 3 ==> Dot(c, w.e3) == 0.0)
  {
    hide Dot, Reader;
    Reads1(U, T, k, j, U);
    Reads1(U, T, k, j, T);
    Reads1(U, T, k, j, Unit(1));
    Reads1(U, T, k, j, Unit(2));
    Reads1(U, T, k, j, Unit(3));
  }

  /** For a timelike U in a 3+1 metric, the seeds can be orthonormalized exactly when U and T are independent
      in the time component and the component that T replaces. */
  lemma SeedsRegular(sqrt: real -> real, g: Metric, U: Vec4, T: Vec4, k: nat)
    requires IsSqrt(sqrt) && SpatiallyDefinite(g) && Inner(g, U, U) < 0.0 && 1 <= k <= 3
    ensures Regular(sqrt, g, Seeds(U, T, k)) <==> SeedDet(U, T, k) != 0.0
  {
    hide Regular, Inner, Separates, Reader, Triangular, GramSchmidt;
    if SeedDet(U, T, k) != 0.0 {
      ReaderSeparates(U, T, k);
      SeparatedRegular(sqrt, g, Seeds(U, T, k), Dual(Reader(U, T, k, 1), Reader(U, T, k, 2), Reader(U, T, k, 3)));
    }
    if Regular(sqrt, g, Seeds(U, T, k)) {
      SeedsTriangular(sqrt, g, Seeds(U, T, k));
      SeedDeterminant(g, GramSchmidt(sqrt, g, Seeds(U, T, k)), U, T, k);
    }
  }

  // ---------------------------------------------------------------------------------------------
  // Construction and use.

  /** How far along coordinate direction k the trial vector points. */
  function Alignment(sqrt: real -> real, g: Metric, T: Vec4, k: nat): real
    requires sqrt(Abs(g.r1.x1)) != 0.0 && sqrt(Abs(g.r2.x2)) != 0.0 && sqrt(Abs(g.r3.x3)) != 0.0
  {
    if k == 1 then Abs(Dot(g.r1, T) / sqrt(Abs(g.r1.x1)))
    else if k == 2 then Abs(Dot(g.r2, T) / sqrt(Abs(g.r2.x2)))
    else Abs(Dot(g.r3, T) / sqrt(Abs(g.r3.x3)))
  }

  /** The direction that the trial vector replaces. */
  function Closest(sqrt: real -> real, g: Metric, T: Vec4): (k: nat)
    requires sqrt(Abs(g.r1.x1)) != 0.0 && sqrt(Abs(g.r2.x2)) != 0.0 && sqrt(Abs(g.r3.x3)) != 0.0
    ensures 1 <= k <= 3
  {
    var X1, X2, X3 := Alignment(sqrt, g, T, 1), Alignment(sqrt, g, T, 2), Alignment(sqrt, g, T, 3);
    if X1 > X2 && X1 > X3 then 1 else if X2 >= X1 && X2 > X3 then 2 else 3
  }

  /** It is the direction with the largest component of the trial vector along it, (g T)_k / sqrt(g_kk). */
  lemma ClosestIs(sqrt: real -> real, g: Metric, T: Vec4, k: nat)
    requires sqrt(Abs(g.r1.x1)) != 0.0 && sqrt(Abs(g.r2.x2)) != 0.0 && sqrt(Abs(g.r3.x3)) != 0.0 && 1 <= k <= 3
    ensures Alignment(sqrt, g, T, k) <= Alignment(sqrt, g, T, Closest(sqrt, g, T))
    // among equals the third direction is preferred to the others, and the second to the first
    ensures Alignment(sqrt, g, T, k) == Alignment(sqrt, g, T, Closest(sqrt, g, T)) ==> k <= Closest(sqrt, g, T)
    ensures Alignment(sqrt, g, T, 1) == Abs(Lower(g, T).x1 / sqrt(Abs(g.r1.x1)))
    ensures Alignment(sqrt, g, T, 2) == Abs(Lower(g, T).x2 / sqrt(Abs(g.r2.x2)))
    ensures Alignment(sqrt, g, T, 3) == Abs(Lower(g, T).x3 / sqrt(Abs(g.r3.x3)))
  {
    hide Dot;
  }

  /** The seeds after the trial vector has been considered: a null or timelike one is not used. */
  function Chosen(sqrt: real -> real, g: Metric, U: Vec4, T: Vec4): Frame
    requires sqrt(Abs(g.r1.x1)) != 0.0 && sqrt(Abs(g.r2.x2)) != 0.0 && sqrt(Abs(g.r3.x3)) != 0.0
  {
    if Inner(g, T, T) > EPS then Seeds(U, T, Closest(sqrt, g, T)) else Seeds(U, Unit(1), 1)
  }

  function Covariant(g: Metric, f: Frame): Frame {
    Frame(Scaled(-1.0, Lower(g, f.e0)), Lower(g, f.e1), Lower(g, f.e2), Lower(g, f.e3))
  }

  /** Components of a vector against four rows, and the combination of four rows. */
  function Against(f: Frame, v: Vec4): Vec4 { Vec4(Dot(f.e0, v), Dot(f.e1, v), Dot(f.e2, v), Dot(f.e3, v)) }

  function Along(f: Frame, v: Vec4): Vec4 { Sum4(v.x0, f.e0, v.x1, f.e1, v.x2, f.e2, v.x3, f.e3) }

  // ---------------------------------------------------------------------------------------------
  // The default trial vector, the first coordinate direction.

  /** A spatial 2x2 block of the metric is positive definite. */
  lemma Block(g: Metric, a: real, b: real, c: real, k: nat)
    requires SpatiallyDefinite(g) && 2 <= k <= 3 && a == g.r1.x1 && b == g.r1.At(k) && c == (if k == 2 then g.r2.x2 else g.r3.x3)
    ensures a > 0.0 && c > 0.0 && b * b < a * c
  {
    BlockNorm(g, k, 1.0, 0.0);
    BlockNorm(g, k, 0.0, 1.0);
    BlockNorm(g, k, b, -a);
    assert InPlane(k, 1.0, 0.0) != NOWHERE && InPlane(k, 0.0, 1.0) != NOWHERE;
    assert a != 0.0 ==> InPlane(k, b, -a) != NOWHERE;
    hide Inner, InPlane;
    var d := a * c - b * b;
    assert a * d == a * (b * b) + 2.0 * (b * (b * -a)) + c * (a * a);
    CancelPos(a, d);
  }

  function InPlane(k: nat, x: real, y: real): Vec4 {
    Vec4(0.0, x, if k == 2 then y else 0.0, if k == 3 then y else 0.0)
  }

  lemma BlockNorm(g: Metric, k: nat, x: real, y: real)
    requires g.Symmetric() && 2 <= k <= 3
    ensures Inner(g, InPlane(k, x, y), InPlane(k, x, y))
            == g.r1.x1 * (x * x) + 2.0 * (g.r1.At(k) * (x * y)) + (if k == 2 then g.r2.x2 else g.r3.x3) * (y * y)
  {
  }

  /** |b| / sqrt(c) < a / sqrt(a) */
  lemma LessAligned(sqrt: real -> real, a: real, b: real, c: real)
    requires IsSqrt(sqrt) && a > 0.0 && c > 0.0 && b * b < a * c
    ensures sqrt(Abs(a)) > 0.0 && sqrt(Abs(c)) > 0.0
    ensures Abs(b / sqrt(Abs(c))) < Abs(a / sqrt(Abs(a)))
  {
    RootOfNonzero(sqrt, a);
    RootOfNonzero(sqrt, c);
    var n, m, y := sqrt(Abs(a)), sqrt(Abs(c)), Abs(b);
    hide IsSqrt;
    DivIs(a, n, n);
    var z := n * m;
    MulPos(n, m);
    assert z * z == a * c by { assert z * z == (n * n) * (m * m); }
    assert y * y == b * b;
    SquareOrder(y, z);
    DivLe(y, m, n);
    AbsQuotient(b, m);
  }

  lemma AbsQuotient(b: real, m: real)
    requires m > 0.0
    ensures Abs(b / m) == Abs(b) / m
  {
    var q := b / m;
    DivMul(b, m);
    if q < 0.0 {
      MulPos(-q, m);
      assert -q * m == -b;
      DivIs(-b, m, -q);
    } else {
      MulNonneg(q, m);
    }
  }

  lemma DotAxis(r: Vec4)
    ensures Dot(r, Unit(1)) == r.x1
  {
  }

  /** The source's choice keeps it where it is. */
  lemma DefaultSeeds(sqrt: real -> real, g: Metric, U: Vec4)
    requires IsSqrt(sqrt) && SpatiallyDefinite(g)
    ensures sqrt(Abs(g.r1.x1)) != 0.0 && sqrt(Abs(g.r2.x2)) != 0.0 && sqrt(Abs(g.r3.x3)) != 0.0
    ensures Chosen(sqrt, g, U, Unit(1)) == Seeds(U, Unit(1), 1)
  {
    hide Inner, Dot, IsSqrt, SpatiallyDefinite, Unit;
    Block(g, g.r1.x1, g.r1.x2, g.r2.x2, 2);
    Block(g, g.r1.x1, g.r1.x3, g.r3.x3, 3);
    LessAligned(sqrt, g.r1.x1, g.r1.x2, g.r2.x2);
    LessAligned(sqrt, g.r1.x1, g.r1.x3, g.r3.x3);
    DotAxis(g.r1);
    DotAxis(g.r2);
    DotAxis(g.r3);
    DefiniteSymmetric(g);
  }

  lemma DefiniteSymmetric(g: Metric)
    requires SpatiallyDefinite(g)
    ensures g.Symmetric() && g.r1.x2 == g.r2.x1 && g.r1.x3 == g.r3.x1
  {
    hide Inner;
  }

  /** So without a trial vector the construction works for every timelike U in every 3+1 metric. */
  lemma DefaultRegular(sqrt: real -> real, g: Metric, U: Vec4)
    requires IsSqrt(sqrt) && SpatiallyDefinite(g) && Inner(g, U, U) < 0.0
    ensures sqrt(Abs(g.r1.x1)) != 0.0 && sqrt(Abs(g.r2.x2)) != 0.0 && sqrt(Abs(g.r3.x3)) != 0.0
    ensures Regular(sqrt, g, Chosen(sqrt, g, U, Unit(1)))
  {
    hide Regular, Inner, Chosen, SpatiallyDefinite;
    DefaultSeeds(sqrt, g, U);
    TimelikeMoves(g, U);
    assert SeedDet(U, Unit(1), 1) == U.x0;
    SeedsRegular(sqrt, g, U, Unit(1), 1);
  }

  class Tetrads {
    var econ: Frame
    var ecov: Frame

    /** Tetrads(Ucon, Gcov): for every timelike four-velocity and every 3+1 metric the rows are orthonormal and
        all four conversions are mutually inverse. */
    constructor Default(sqrt: real -> real, g: Metric, Ucon: Vec4)
      requires IsSqrt(sqrt) && SpatiallyDefinite(g) && Inner(g, Ucon, Ucon) < 0.0
      ensures Orthonormal(g, econ) && ecov == Covariant(g, econ)
      ensures forall V :: CoordToTetradCon(TetradToCoordCon(V)) == V && TetradToCoordCon(CoordToTetradCon(V)) == V
      ensures forall V :: CoordToTetradCov(TetradToCoordCov(V)) == V && TetradToCoordCov(CoordToTetradCov(V)) == V
    {
      hide *;
      new;
      DefaultRegular(sqrt, g, Ucon);
      DefiniteSymmetric(g);
      Construct(sqrt, g, Ucon, Unit(1));
      RoundTrips(sqrt, g, Ucon, Unit(1), this, Ucon);
      forall V
        ensures CoordToTetradCon(TetradToCoordCon(V)) == V && TetradToCoordCon(CoordToTetradCon(V)) == V
        ensures CoordToTetradCov(TetradToCoordCov(V)) == V && TetradToCoordCov(CoordToTetradCov(V)) == V
      {
        RoundTrips(sqrt, g, Ucon, Unit(1), this, V);
      }
    }

    /** ConstructTetrads_: seeds, then Gram-Schmidt row by row in place, then the lowered rows. */
    method Construct(sqrt: real -> real, g: Metric, Ucon: Vec4, Trial: Vec4)
      requires sqrt(Abs(g.r1.x1)) != 0.0 && sqrt(Abs(g.r2.x2)) != 0.0 && sqrt(Abs(g.r3.x3)) != 0.0
      requires Regular(sqrt, g, Chosen(sqrt, g, Ucon, Trial))
      modifies this
      ensures econ == GramSchmidt(sqrt, g, Chosen(sqrt, g, Ucon, Trial)) && ecov == Covariant(g, econ)
    {
      hide Inner, ProjectOut, Normalized, Closest, Lower, Scaled;
      econ := Frame(Ucon, Unit(1), Unit(2), Unit(3));
      if Inner(g, Trial, Trial) > EPS {
        var k := Closest(sqrt, g, Trial);
        if k == 1 {
          econ := econ.(e1 := Trial);
        } else if k == 2 {
          econ := econ.(e2 := Trial);
        } else {
          econ := econ.(e3 := Trial);
        }
      }
      assert econ == Chosen(sqrt, g, Ucon, Trial);
      econ := econ.(e0 := Normalized(sqrt, g, econ.e0));
      econ := econ.(e1 := ProjectOut(g, econ.e1, econ.e0));
      econ := econ.(e1 := Normalized(sqrt, g, econ.e1));
      econ := econ.(e2 := ProjectOut(g, econ.e2, econ.e0));
      econ := econ.(e2 := ProjectOut(g, econ.e2, econ.e1));
      econ := econ.(e2 := Normalized(sqrt, g, econ.e2));
      econ := econ.(e3 := ProjectOut(g, econ.e3, econ.e0));
      econ := econ.(e3 := ProjectOut(g, econ.e3, econ.e1));
      econ := econ.(e3 := ProjectOut(g, econ.e3, econ.e2));
      econ := econ.(e3 := Normalized(sqrt, g, econ.e3));
      ecov := Frame(Lower(g, econ.e0), Lower(g, econ.e1), Lower(g, econ.e2), Lower(g, econ.e3));
      ecov := ecov.(e0 := Scaled(-1.0, ecov.e0));
    }

    function CoordToTetradCon(V: Vec4): Vec4
      reads this
    {
      Against(ecov, V)
    }

    function CoordToTetradCov(V: Vec4): Vec4
      reads this
    {
      Against(econ, V)
    }

    function TetradToCoordCon(v: Vec4): Vec4
      reads this
    {
      Along(econ, v)
    }

    function TetradToCoordCov(v: Vec4): Vec4
      reads this
    {
      Along(ecov, v)
    }
  }

  lemma ChosenSeeds(sqrt: real -> real, g: Metric, U: Vec4, T: Vec4) returns (S: Vec4, k: nat)
    requires sqrt(Abs(g.r1.x1)) != 0.0 && sqrt(Abs(g.r2.x2)) != 0.0 && sqrt(Abs(g.r3.x3)) != 0.0
    ensures 1 <= k <= 3 && Chosen(sqrt, g, U, T) == Seeds(U, S, k)
  {
    if Inner(g, T, T) > EPS {
      S, k := T, Closest(sqrt, g, T);
    } else {
      S, k := Unit(1), 1;
    }
  }

  /** Against the covariant rows: eta_aa g(E_a, v). */
  lemma AgainstCovariant(g: Metric, f: Frame, v: Vec4)
    requires g.Symmetric()
    ensures Against(Covariant(g, f), v)
            == Vec4(-Inner(g, f.e0, v), Inner(g, f.e1, v), Inner(g, f.e2, v), Inner(g, f.e3, v))
  {
    hide Inner, Lower, Dot, Scaled, Metric.Symmetric;
    LoweredDot(g, f.e0, v);
    LoweredDot(g, f.e1, v);
    LoweredDot(g, f.e2, v);
    LoweredDot(g, f.e3, v);
    MinusDot(Lower(g, f.e0), v);
  }

  lemma LoweredDot(g: Metric, e: Vec4, v: Vec4)
    requires g.Symmetric()
    ensures Dot(Lower(g, e), v) == Inner(g, e, v)
  {
    hide Lower, Dot, Metric.Symmetric;
    DotCommutes(Lower(g, e), v);
    InnerSymmetric(g, e, v);
  }

  lemma MinusDot(a: Vec4, v: Vec4)
    ensures Dot(Scaled(-1.0, a), v) == -Dot(a, v)
  {
  }

  lemma InnerAlong(g: Metric, c: Vec4, f: Frame, v: Vec4)
    ensures Inner(g, c, Along(f, v))
            == Term4(v.x0, Inner(g, c, f.e0), v.x1, Inner(g, c, f.e1), v.x2, Inner(g, c, f.e2), v.x3, Inner(g, c, f.e3))
  {
    hide Inner, Mix, Sum4;
    Sum4IsMix(v.x0, f.e0, v.x1, f.e1, v.x2, f.e2, v.x3, f.e3);
    InnerMix(g, c, 1.0, Mix(v.x0, f.e0, v.x1, f.e1), 1.0, Mix(v.x2, f.e2, v.x3, f.e3));
    InnerMix(g, c, v.x0, f.e0, v.x1, f.e1);
    InnerMix(g, c, v.x2, f.e2, v.x3, f.e3);
  }

  lemma DotAlong(c: Vec4, f: Frame, v: Vec4)
    ensures Dot(c, Along(f, v))
            == Term4(v.x0, Dot(c, f.e0), v.x1, Dot(c, f.e1), v.x2, Dot(c, f.e2), v.x3, Dot(c, f.e3))
    ensures Dot(Along(f, v), c)
            == Term4(v.x0, Dot(f.e0, c), v.x1, Dot(f.e1, c), v.x2, Dot(f.e2, c), v.x3, Dot(f.e3, c))
  {
    hide Dot, Mix, Sum4;
    Sum4IsMix(v.x0, f.e0, v.x1, f.e1, v.x2, f.e2, v.x3, f.e3);
    DotMix(c, 1.0, Mix(v.x0, f.e0, v.x1, f.e1), 1.0, Mix(v.x2, f.e2, v.x3, f.e3));
    DotMix(c, v.x0, f.e0, v.x1, f.e1);
    DotMix(c, v.x2, f.e2, v.x3, f.e3);
  }

  /** What the constructor promises of the four conversions: with the seeds' norms as Regular asks, each
      is the inverse of its partner, on every vector and in both directions. */
  lemma RoundTrips(sqrt: real -> real, g: Metric, U: Vec4, T: Vec4, t: Tetrads, V: Vec4)
    requires IsSqrt(sqrt) && g.Symmetric()
    requires sqrt(Abs(g.r1.x1)) != 0.0 && sqrt(Abs(g.r2.x2)) != 0.0 && sqrt(Abs(g.r3.x3)) != 0.0
    requires Regular(sqrt, g, Chosen(sqrt, g, U, T))
    requires t.econ == GramSchmidt(sqrt, g, Chosen(sqrt, g, U, T)) && t.ecov == Covariant(g, t.econ)
    ensures Orthonormal(g, t.econ)
    ensures t.CoordToTetradCon(t.TetradToCoordCon(V)) == V && t.TetradToCoordCon(t.CoordToTetradCon(V)) == V
    ensures t.CoordToTetradCov(t.TetradToCoordCov(V)) == V && t.TetradToCoordCov(t.CoordToTetradCov(V)) == V
  {
    hide Regular, GramSchmidt, Chosen, Orthonormal, Along, Against, Covariant, Metric.Symmetric, Resolved, Dot;
    var f := t.econ;
    GramSchmidtOrthonormal(sqrt, g, Chosen(sqrt, g, U, T));
    forall W ensures Resolved(g, f, W) {
      var S, k := ChosenSeeds(sqrt, g, U, T);
      FrameComplete(sqrt, g, U, S, k, W);
    }
    ConRoundTrip(g, f, V);
    CovRoundTrip(g, f, V);
  }

  lemma ConRoundTrip(g: Metric, f: Frame, V: Vec4)
    requires g.Symmetric() && Orthonormal(g, f) && Resolved(g, f, V)
    ensures Against(Covariant(g, f), Along(f, V)) == V && Along(f, Against(Covariant(g, f), V)) == V
  {
    hide Inner, Covariant, Against, Metric.Symmetric, Sum4;
    AgainstCovariant(g, f, Along(f, V));
    InnerAlong(g, f.e0, f, V);
    InnerAlong(g, f.e1, f, V);
    InnerAlong(g, f.e2, f, V);
    InnerAlong(g, f.e3, f, V);
    InnerSymmetric(g, f.e0, f.e1);
    InnerSymmetric(g, f.e0, f.e2);
    InnerSymmetric(g, f.e0, f.e3);
    InnerSymmetric(g, f.e1, f.e2);
    InnerSymmetric(g, f.e1, f.e3);
    InnerSymmetric(g, f.e2, f.e3);
    AgainstCovariant(g, f, V);
  }

  lemma CovRoundTrip(g: Metric, f: Frame, V: Vec4)
    requires g.Symmetric() && Orthonormal(g, f) && forall W :: Resolved(g, f, W)
    ensures Against(f, Along(Covariant(g, f), V)) == V && Along(Covariant(g, f), Against(f, V)) == V
  {
    hide *;
    CovThere(g, f, V);
    CovBack(g, f, V);
  }

  lemma CovThere(g: Metric, f: Frame, V: Vec4)
    requires g.Symmetric() && Orthonormal(g, f)
    ensures Against(f, Along(Covariant(g, f), V)) == V
  {
    hide Inner, Along, Metric.Symmetric, Dot, Lower, Scaled, Orthonormal;
    CovRow(g, f, f.e0, V);
    CovRow(g, f, f.e1, V);
    CovRow(g, f, f.e2, V);
    CovRow(g, f, f.e3, V);
    Reads(g, f, V);
  }

  lemma CovRow(g: Metric, f: Frame, e: Vec4, V: Vec4)
    ensures Dot(e, Along(Covariant(g, f), V))
            == Term4(V.x0, -Inner(g, e, f.e0), V.x1, Inner(g, e, f.e1), V.x2, Inner(g, e, f.e2), V.x3, Inner(g, e, f.e3))
  {
    hide Along, Dot, Lower, Scaled;
    DotAlong(e, Covariant(g, f), V);
    MinusDot(Lower(g, f.e0), e);
    DotCommutes(e, Scaled(-1.0, Lower(g, f.e0)));
    DotCommutes(e, Lower(g, f.e0));
  }

  lemma Reads(g: Metric, f: Frame, V: Vec4)
    requires g.Symmetric() && Orthonormal(g, f)
    ensures Term4(V.x0, -Inner(g, f.e0, f.e0), V.x1, Inner(g, f.e0, f.e1), V.x2, Inner(g, f.e0, f.e2), V.x3, Inner(g, f.e0, f.e3)) == V.x0
    ensures Term4(V.x0, -Inner(g, f.e1, f.e0), V.x1, Inner(g, f.e1, f.e1), V.x2, Inner(g, f.e1, f.e2), V.x3, Inner(g, f.e1, f.e3)) == V.x1
    ensures Term4(V.x0, -Inner(g, f.e2, f.e0), V.x1, Inner(g, f.e2, f.e1), V.x2, Inner(g, f.e2, f.e2), V.x3, Inner(g, f.e2, f.e3)) == V.x2
    ensures Term4(V.x0, -Inner(g, f.e3, f.e0), V.x1, Inner(g, f.e3, f.e1), V.x2, Inner(g, f.e3, f.e2), V.x3, Inner(g, f.e3, f.e3)) == V.x3
  {
    hide Inner, Metric.Symmetric;
    InnerSymmetric(g, f.e0, f.e1);
    InnerSymmetric(g, f.e0, f.e2);
    InnerSymmetric(g, f.e0, f.e3);
    InnerSymmetric(g, f.e1, f.e2);
    InnerSymmetric(g, f.e1, f.e3);
    InnerSymmetric(g, f.e2, f.e3);
  }

  lemma CovBack(g: Metric, f: Frame, V: Vec4)
    requires g.Symmetric() && Orthonormal(g, f) && forall W :: Resolved(g, f, W)
    ensures Along(Covariant(g, f), Against(f, V)) == V
  {
    var W := Along(Covariant(g, f), Against(f, V));
    CovComponent(g, f, V, 0);
    CovComponent(g, f, V, 1);
    CovComponent(g, f, V, 2);
    CovComponent(g, f, V, 3);
    hide Along, Covariant, Against, Orthonormal, Resolved, Metric.Symmetric;
  }

  /** Component mu of the covector, through the contravariant round trip of the mu-th basis vector. */
  lemma CovComponent(g: Metric, f: Frame, V: Vec4, mu: nat)
    requires g.Symmetric() && Orthonormal(g, f) && (forall W :: Resolved(g, f, W)) && mu < 4
    ensures Along(Covariant(g, f), Against(f, V)).At(mu) == V.At(mu)
  {
    hide Orthonormal, Metric.Symmetric, Covariant, Lower, Resolved, Inner;
    var c := Covariant(g, f);
    ConRoundTrip(g, f, Unit(mu));
    DotAlong(V, f, Against(c, Unit(mu)));
    PickComponent(V, mu);
    PickComponent(c.e0, mu);
    PickComponent(c.e1, mu);
    PickComponent(c.e2, mu);
    PickComponent(c.e3, mu);
    hide Dot, Unit;
    DotCommutes(f.e0, V);
    DotCommutes(f.e1, V);
    DotCommutes(f.e2, V);
    DotCommutes(f.e3, V);
    Swap4(c.e0.At(mu), Dot(f.e0, V), c.e1.At(mu), Dot(f.e1, V), c.e2.At(mu), Dot(f.e2, V), c.e3.At(mu), Dot(f.e3, V));
    AlongAt(c, Against(f, V), mu);
  }

  lemma PickComponent(a: Vec4, mu: nat)
    requires mu < 4
    ensures Dot(a, Unit(mu)) == a.At(mu)
  {
  }

  lemma Swap4(x0: real, c0: real, x1: real, c1: real, x2: real, c2: real, x3: real, c3: real)
    ensures Term4(x0, c0, x1, c1, x2, c2, x3, c3) == Term4(c0, x0, c1, x1, c2, x2, c3, x3)
  {
  }

  lemma AlongAt(f: Frame, v: Vec4, mu: nat)
    requires mu < 4
    ensures Along(f, v).At(mu) == Term4(v.x0, f.e0.At(mu), v.x1, f.e1.At(mu), v.x2, f.e2.At(mu), v.x3, f.e3.At(mu))
  {
  }
}
