/** ModifyNetField: a vector potential inside the horizon is turned into magnetic field. */
module NetField {
  import opened Reals
  import opened Vectors
  import opened DivB

  type Potential = (int, int) -> real

  /** The switches of the fixup package that decide whether the field is touched, and by how much. */
  datatype Control = Control(enabled: bool, nextUpdate: real, phiFactor: real, dphidt: real) {
    predicate Acts(t: real, stage: int, fiducial: bool) {
      (fiducial ==> stage == 1 && t >= nextUpdate) && enabled
    }
  }

  /** Difference of the corner potential across a cell along the second axis, and minus the first. */
  function AcrossJ(a: Potential, j: int, i: int): real { -(a(j, i) - a(j + 1, i) + a(j, i + 1) - a(j + 1, i + 1)) }

  function AcrossI(a: Potential, j: int, i: int): real { a(j, i) + a(j + 1, i) - a(j, i + 1) - a(j + 1, i + 1) }

  function Increment(s: real, x: real, dx: real, g: real): real
    requires dx > 0.0 && g > 0.0
  {
    s * (x / (2.0 * dx * g))
  }

  /** The primitive field of one cell after s times the curl of the potential has been added. */
  function Bump(m: Mesh, a: Potential, s: real, g: real, v: Vec, j: int, i: int): Vec
    requires m.Valid() && g > 0.0
  {
    Vec(v.c0 + Increment(s, AcrossJ(a, j, i), m.dx2, g), v.c1 + Increment(s, AcrossI(a, j, i), m.dx1, g), v.c2)
  }

  /** A potential with slopes p along the second axis and q along the first adds s p / (dx2 g) to the first
      component and takes s q / (dx1 g) from the second. */
  lemma BumpOfLinear(m: Mesh, a: Potential, s: real, g: real, v: Vec, j: int, i: int, p: real, q: real, k1: real, k2: real)
    requires m.Valid() && g > 0.0 && k1 == m.dx1 * g && k2 == m.dx2 * g
    requires a(j + 1, i) - a(j, i) == p == a(j + 1, i + 1) - a(j, i + 1) && a(j, i + 1) - a(j, i) == q
    ensures k1 > 0.0 && k2 > 0.0
    ensures Bump(m, a, s, g, v, j, i) == Vec(v.c0 + Prod(s, p / k2), v.c1 - Prod(s, q / k1), v.c2)
  {
    hide Increment, Prod, AcrossJ, AcrossI;
    var q' := -q;
    HalfIncrement(s, p, m.dx2, g, k2);
    HalfIncrement(s, q', m.dx1, g, k1);
    NegatedShare(s, q, q', k1);
    AcrossLinear(a, j, i, p, q);
  }

  lemma AcrossLinear(a: Potential, j: int, i: int, p: real, q: real)
    requires a(j + 1, i) - a(j, i) == p == a(j + 1, i + 1) - a(j, i + 1) && a(j, i + 1) - a(j, i) == q
    ensures AcrossJ(a, j, i) == 2.0 * p && AcrossI(a, j, i) == 2.0 * -q
  {
  }

  lemma HalfIncrement(s: real, p: real, dx: real, g: real, k: real)
    requires dx > 0.0 && g > 0.0 && k == dx * g
    ensures k > 0.0 && Increment(s, 2.0 * p, dx, g) == Prod(s, p / k)
  {
    MulPos(dx, g);
    DivMul(p, k);
    assert 2.0 * dx * g == 2.0 * k;
    DivIs(2.0 * p, 2.0 * dx * g, p / k);
  }

  lemma NegatedShare(s: real, q: real, q': real, k: real)
    requires k > 0.0 && q' == -q
    ensures Prod(s, q' / k) == -Prod(s, q / k)
  {
    DivMul(q, k);
    DivIs(q', k, -(q / k));
    var x := q / k;
    assert s * -x == -(s * x);
  }

  function Conserved(g: Scalar, p: Field): Field { (k, j, i) => Scale(g(k, j, i), p(k, j, i)) }

  /** The emf whose curl the injection adds: only the component along the third axis. */
  function Lifted(a: Potential, s: real): Field { (k, j, i) => Vec(0.0, 0.0, Prod(s, a(j, i))) }

  function Bumped(m: Mesh, a: Potential, s: real, g: Scalar, p: Field): Field
    requires m.Valid() && forall k, j, i :: g(k, j, i) > 0.0
  {
    (k, j, i) => Bump(m, a, s, g(k, j, i), p(k, j, i), j, i)
  }

  /** In conserved form the addition is a curl. */
  lemma BumpIsCurl(m: Mesh, a: Potential, s: real, g: Scalar, p: Field, d: Field)
    requires m.Valid() && forall k, j, i :: g(k, j, i) > 0.0
    requires forall k, j, i :: d(k, j, i) == Add(Conserved(g, Bumped(m, a, s, g, p))(k, j, i),
                                                 Scale(-1.0, Conserved(g, p)(k, j, i)))
    ensures IsCurl(m, Lifted(a, s), d) && IsCurl2(m, C2(Lifted(a, s)), d)
  {
    hide Across, Comb, Bump;
    var e := Lifted(a, s);
    forall k, j, i
      ensures && d(k, j, i).c0 == Comb(1.0 / m.dx2, Across(C2(e), J1, I1)(k, j, i), -1.0 / m.dx3, Across(C1(e), K1, I1)(k, j, i))
              && d(k, j, i).c1 == Comb(1.0 / m.dx3, Across(C0(e), K1, J1)(k, j, i), -1.0 / m.dx1, Across(C2(e), I1, J1)(k, j, i))
              && d(k, j, i).c2 == Comb(1.0 / m.dx1, Across(C1(e), I1, K1)(k, j, i), -1.0 / m.dx2, Across(C0(e), J1, K1)(k, j, i))
      ensures && d(k, j, i).c0 == Comb(1.0 / m.dx2, Across(C2(e), J1, I1)(k, j, i), 0.0, C2(e)(k, j, i))
              && d(k, j, i).c1 == Comb(-1.0 / m.dx1, Across(C2(e), I1, J1)(k, j, i), 0.0, C2(e)(k, j, i))
    {
      BumpCell(m, a, s, g(k, j, i), p(k, j, i), d(k, j, i), k, j, i);
    }
  }

  lemma BumpCell(m: Mesh, a: Potential, s: real, g: real, v: Vec, d: Vec, k: int, j: int, i: int)
    requires m.Valid() && g > 0.0 && d == Add(Scale(g, Bump(m, a, s, g, v, j, i)), Scale(-1.0, Scale(g, v)))
    ensures var e := Lifted(a, s);
            && d.c0 == Comb(1.0 / m.dx2, Across(C2(e), J1, I1)(k, j, i), -1.0 / m.dx3, Across(C1(e), K1, I1)(k, j, i))
            && d.c1 == Comb(1.0 / m.dx3, Across(C0(e), K1, J1)(k, j, i), -1.0 / m.dx1, Across(C2(e), I1, J1)(k, j, i))
            && d.c2 == Comb(1.0 / m.dx1, Across(C1(e), I1, K1)(k, j, i), -1.0 / m.dx2, Across(C0(e), J1, K1)(k, j, i))
            && d.c0 == Comb(1.0 / m.dx2, Across(C2(e), J1, I1)(k, j, i), 0.0, C2(e)(k, j, i))
            && d.c1 == Comb(-1.0 / m.dx1, Across(C2(e), I1, J1)(k, j, i), 0.0, C2(e)(k, j, i))
  {
    hide *;
    var e := Lifted(a, s);
    var p, q := Across(C2(e), J1, I1)(k, j, i), Across(C2(e), I1, J1)(k, j, i);
    MeshPositive(m);
    BumpDelta(m, a, s, g, v, d, k, j, i);
    FlatPotential(a, s, k, j, i);
    var c := C2(e)(k, j, i);
    CurlForm(m.dx2, p, Across(C1(e), K1, I1)(k, j, i), m.dx3, c);
    CurlForm(m.dx1, q, Across(C0(e), K1, J1)(k, j, i), m.dx3, c);
    ZeroComb(1.0 / m.dx1, Across(C1(e), I1, K1)(k, j, i), -1.0 / m.dx2, Across(C0(e), J1, K1)(k, j, i));
  }

  lemma MeshPositive(m: Mesh)
    requires m.Valid()
    ensures m.dx1 > 0.0 && m.dx2 > 0.0 && m.dx3 > 0.0
  {
  }

  lemma BumpDelta(m: Mesh, a: Potential, s: real, g: real, v: Vec, d: Vec, k: int, j: int, i: int)
    requires m.Valid() && g > 0.0 && d == Add(Scale(g, Bump(m, a, s, g, v, j, i)), Scale(-1.0, Scale(g, v)))
    ensures d.c0 == Prod(1.0 / m.dx2, Across(C2(Lifted(a, s)), J1, I1)(k, j, i))
    ensures d.c1 == Prod(1.0 / m.dx1, -Across(C2(Lifted(a, s)), I1, J1)(k, j, i))
    ensures d.c2 == 0.0
  {
    var e := Lifted(a, s);
    AcrossAt(C2(e), k, j, i);
    hide Across, Prod, Increment;
    var a00, a10, a01, a11 := a(j, i), a(j + 1, i), a(j, i + 1), a(j + 1, i + 1);
    var x0, x1 := AcrossJ(a, j, i), AcrossI(a, j, i);
    ScaledDifference(s, a00, a10, a01, a11, x0, Across(C2(e), J1, I1)(k, j, i));
    ScaledDifference(s, a00, a01, a10, a11, -x1, Across(C2(e), I1, J1)(k, j, i));
    Opposite(s, x1, Across(C2(e), I1, J1)(k, j, i));
    BumpScalar(v.c0, s, x0, m.dx2, g);
    BumpScalar(v.c1, s, x1, m.dx1, g);
  }

  lemma FlatPotential(a: Potential, s: real, k: int, j: int, i: int)
    ensures var e := Lifted(a, s);
            && Across(C1(e), K1, I1)(k, j, i) == 0.0 && Across(C0(e), K1, J1)(k, j, i) == 0.0
            && Across(C1(e), I1, K1)(k, j, i) == 0.0 && Across(C0(e), J1, K1)(k, j, i) == 0.0
  {
    hide Across;
    AcrossAt(C0(Lifted(a, s)), k, j, i);
    AcrossAt(C1(Lifted(a, s)), k, j, i);
  }

  lemma Opposite(s: real, x: real, p: real)
    requires Prod(s, -x / 2.0) == p
    ensures Prod(s, x / 2.0) == -p
  {
    var h := x / 2.0;
    assert -x / 2.0 == -h;
  }

  lemma ScaledDifference(s: real, a00: real, a10: real, a01: real, a11: real, x: real, p: real)
    requires x == (a10 + a11) - (a00 + a01)
    requires p == 0.5 * ((Prod(s, a10) + Prod(s, a11)) - (Prod(s, a00) + Prod(s, a01)))
    ensures Prod(s, x / 2.0) == p
  {
  }

  lemma BumpScalar(v: real, s: real, x: real, dx: real, g: real)
    requires dx > 0.0 && g > 0.0
    ensures g * (v + Increment(s, x, dx, g)) + -1.0 * (g * v) == Prod(1.0 / dx, Prod(s, x / 2.0))
  {
    var den := 2.0 * dx * g;
    assert den > 0.0 by { MulPos(dx, g); }
    var q, y := x / den, 1.0 / dx;
    DivMul(x, den);
    DivMul(1.0, dx);
    assert g * q == y * (x / 2.0) by {
      assert y * (q * den) == 2.0 * (g * q) * (y * dx);
    }
    assert g * (v + s * q) == g * v + s * (g * q);
  }

  lemma ZeroComb(s: real, a: real, t: real, b: real)
    requires a == 0.0 && b == 0.0
    ensures Comb(s, a, t, b) == 0.0
  {
  }

  lemma CurlForm(d: real, p: real, z: real, d': real, c: real)
    requires d > 0.0 && d' > 0.0 && z == 0.0
    ensures Comb(1.0 / d, p, -1.0 / d', z) == Prod(1.0 / d, p) == Comb(1.0 / d, p, 0.0, c)
    ensures Comb(1.0 / d', z, -1.0 / d, p) == Prod(1.0 / d, -p) == Comb(-1.0 / d, p, 0.0, c)
  {
    ByInverse(p, d);
  }

  /** Whatever the potential and the amplitude, the conserved field keeps its divergence at every node
      whose cells are all interior. */
  lemma InjectionKeepsDivB(dim: Dim, m: Mesh, box: Box, a: Potential, s: real, g: Scalar, p: Field,
                           before: Field, after: Field, k: int, j: int, i: int)
    requires m.Valid() && (forall k, j, i :: g(k, j, i) > 0.0) && box.HasNode(dim, k, j, i)
    requires forall k, j, i :: box.Has(k, j, i) ==> before(k, j, i) == Conserved(g, p)(k, j, i)
    requires forall k, j, i :: box.Has(k, j, i) ==> after(k, j, i) == Conserved(g, Bumped(m, a, s, g, p))(k, j, i)
    ensures Divergence(dim, m, after, k, j, i) == Divergence(dim, m, before, k, j, i)
  {
    hide Divergence, Conserved, Bumped, IsCurl, IsCurl2, Comb, Lifted;
    var u, v := Conserved(g, p), Conserved(g, Bumped(m, a, s, g, p));
    DivergenceLocal(dim, m, before, u, k, j, i);
    DivergenceLocal(dim, m, after, v, k, j, i);
    var d := Mix(1.0, v, -1.0, u);
    forall k, j, i ensures d(k, j, i) == Add(v(k, j, i), Scale(-1.0, u(k, j, i))) {
      Difference(v(k, j, i), u(k, j, i));
    }
    BumpIsCurl(m, a, s, g, p, d);
    NoDivergence(dim, m, Lifted(a, s), d, k, j, i);
    DivergenceLinear(dim, m, 1.0, v, -1.0, u, k, j, i);
    CombDifference(Divergence(dim, m, v, k, j, i), Divergence(dim, m, u, k, j, i));
  }

  lemma Difference(v: Vec, u: Vec)
    ensures Vec(Comb(1.0, v.c0, -1.0, u.c0), Comb(1.0, v.c1, -1.0, u.c1), Comb(1.0, v.c2, -1.0, u.c2))
            == Add(v, Scale(-1.0, u))
  {
  }

  lemma CombDifference(x: real, y: real)
    ensures Comb(1.0, x, -1.0, y) == 0.0 ==> x == y
  {
  }

  lemma NoDivergence(dim: Dim, m: Mesh, e: Field, d: Field, k: int, j: int, i: int)
    requires m.Valid() && IsCurl(m, e, d) && IsCurl2(m, C2(e), d)
    ensures Divergence(dim, m, d, k, j, i) == 0.0
  {
    hide IsCurl, IsCurl2, NodeDiv, NodeDiv2, C2;
    CurlFree(m, e, d, k, j, i);
    CurlFree2(m, C2(e), d, k, j, i);
  }

  lemma BumpUndone(m: Mesh, a: Potential, s: real, g: real, v: Vec, j: int, i: int)
    requires m.Valid() && g > 0.0
    ensures Bump(m, a, -s, g, Bump(m, a, s, g, v, j, i), j, i) == v
  {
    hide AcrossJ, AcrossI, Increment;
    IncrementOdd(s, AcrossJ(a, j, i), m.dx2, g);
    IncrementOdd(s, AcrossI(a, j, i), m.dx1, g);
  }

  lemma IncrementOdd(s: real, x: real, dx: real, g: real)
    requires dx > 0.0 && g > 0.0
    ensures Increment(-s, x, dx, g) == -Increment(s, x, dx, g)
  {
    var q := x / (2.0 * dx * g);
    assert -s * q == -(s * q);
  }

  // ---------------------------------------------------------------------------------------------
  // The kernel.

  predicate InArray(b: Box, a: array3<Vec>) {
    && 0 <= b.kLo <= b.kHi < a.Length0 && 0 <= b.jLo <= b.jHi < a.Length1 && 0 <= b.iLo <= b.iHi < a.Length2
  }

  /** The two loops over the interior: bump the primitive field, then recompute the conserved one. */
  method ApplyBump(m: Mesh, b: Box, a: Potential, s: real, g: Scalar, prim: array3<Vec>, cons: array3<Vec>)
    requires m.Valid() && (forall k, j, i :: g(k, j, i) > 0.0)
    requires prim != cons && SameShape(prim, cons) && InArray(b, prim)
    modifies prim, cons
    ensures forall k, j, i :: 0 <= k < prim.Length0 && 0 <= j < prim.Length1 && 0 <= i < prim.Length2 ==>
              prim[k, j, i] == if b.Has(k, j, i) then Bump(m, a, s, g(k, j, i), old(prim[k, j, i]), j, i)
                               else old(prim[k, j, i])
    ensures forall k, j, i :: 0 <= k < prim.Length0 && 0 <= j < prim.Length1 && 0 <= i < prim.Length2 ==>
              cons[k, j, i] == if b.Has(k, j, i) then Scale(g(k, j, i), prim[k, j, i]) else old(cons[k, j, i])
  {
    hide Bump, Scale;
    forall k, j, i | b.kLo <= k <= b.kHi && b.jLo <= j <= b.jHi && b.iLo <= i <= b.iHi {
      prim[k, j, i] := Bump(m, a, s, g(k, j, i), prim[k, j, i], j, i);
    }
    forall k, j, i | b.kLo <= k <= b.kHi && b.jLo <= j <= b.jHi && b.iLo <= i <= b.iHi {
      cons[k, j, i] := Scale(g(k, j, i), prim[k, j, i]);
    }
  }

  /** Does nothing unless the switches let it; otherwise every interior cell gets the curl, and its
      conserved field is recomputed from the primitive one. Other cells are not touched. */
  method ModifyNetField(c: Control, m: Mesh, b: Box, a: Potential, g: Scalar, prim: array3<Vec>, cons: array3<Vec>,
                        t: real, dt: real, stage: int, fiducial: bool, fiducialFactor: real)
    requires m.Valid() && (forall k, j, i :: g(k, j, i) > 0.0)
    requires prim != cons && SameShape(prim, cons) && InArray(b, prim)
    modifies prim, cons
    ensures forall k, j, i :: 0 <= k < prim.Length0 && 0 <= j < prim.Length1 && 0 <= i < prim.Length2 ==>
              prim[k, j, i] == if c.Acts(t, stage, fiducial) && b.Has(k, j, i)
                               then Bump(m, a, if fiducial then fiducialFactor else c.phiFactor * c.dphidt * dt,
                                         g(k, j, i), old(prim[k, j, i]), j, i)
                               else old(prim[k, j, i])
    ensures forall k, j, i :: 0 <= k < prim.Length0 && 0 <= j < prim.Length1 && 0 <= i < prim.Length2 ==>
              cons[k, j, i] == if c.Acts(t, stage, fiducial) && b.Has(k, j, i)
                               then Scale(g(k, j, i), prim[k, j, i]) else old(cons[k, j, i])
  {
    hide Bump, Scale;
    assert c.Acts(t, stage, fiducial) <==> c.enabled && (!fiducial || (stage == 1 && t >= c.nextUpdate));
    if stage != 1 && fiducial { return; }
    if c.enabled {
      if fiducial && !(t >= c.nextUpdate) { return; }
      var phiFactor := c.phiFactor * c.dphidt * dt;
      if fiducial { phiFactor := fiducialFactor; }
      ApplyBump(m, b, a, phiFactor, g, prim, cons);
    }
  }

  /** The driver's probe: inject with factor 1, measure, inject with factor -1. The primitive field
      comes back exactly, and the conserved one agrees with it wherever the probe acted. */
  method ProbeNetField(c: Control, m: Mesh, b: Box, a: Potential, g: Scalar, prim: array3<Vec>, cons: array3<Vec>,
                       t: real, dt: real, stage: int)
    requires m.Valid() && (forall k, j, i :: g(k, j, i) > 0.0)
    requires prim != cons && SameShape(prim, cons) && InArray(b, prim)
    modifies prim, cons
    ensures forall k, j, i :: 0 <= k < prim.Length0 && 0 <= j < prim.Length1 && 0 <= i < prim.Length2 ==>
              && prim[k, j, i] == old(prim[k, j, i])
              && cons[k, j, i] == if c.Acts(t, stage, true) && b.Has(k, j, i)
                                  then Scale(g(k, j, i), old(prim[k, j, i])) else old(cons[k, j, i])
  {
    hide Bump, Scale;
    ModifyNetField(c, m, b, a, g, prim, cons, t, dt, stage, true, 1.0);
    ModifyNetField(c, m, b, a, g, prim, cons, t, dt, stage, true, -1.0);
    forall k, j, i | 0 <= k < prim.Length0 && 0 <= j < prim.Length1 && 0 <= i < prim.Length2
      ensures prim[k, j, i] == old(prim[k, j, i])
    {
      BumpUndone(m, a, 1.0, g(k, j, i), old(prim[k, j, i]), j, i);
    }
  }
}
