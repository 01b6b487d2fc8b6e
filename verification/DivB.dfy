/** The constrained transport of the magnetic field: every Runge-Kutta stage, and every injection of a
    vector potential, leaves the node-centred divergence of B as it was. */
module DivB {
  import opened Reals
  import opened Vectors

  type Scalar = (int, int, int) -> real
  type Field = (int, int, int) -> Vec

  /** A uniform mesh. */
  datatype Mesh = Mesh(dx1: real, dx2: real, dx3: real) {
    predicate Valid() { dx1 > 0.0 && dx2 > 0.0 && dx3 > 0.0 }
  }

  /** The fluxes of B through the faces in the three directions, three components each. */
  datatype Fluxes = Fluxes(x1: Field, x2: Field, x3: Field)

  // ---------------------------------------------------------------------------------------------
  // The formulas of FluxCT and CalculateDivB, at one index.

  function Emf(f: Fluxes, k: int, j: int, i: int): Vec {
    Vec(0.25 * (f.x2(k, j, i).c2 + f.x2(k - 1, j, i).c2 - f.x3(k, j, i).c1 - f.x3(k, j - 1, i).c1),
        -0.25 * (f.x1(k, j, i).c2 + f.x1(k - 1, j, i).c2 - f.x3(k, j, i).c0 - f.x3(k, j, i - 1).c0),
        0.25 * (f.x1(k, j, i).c1 + f.x1(k, j - 1, i).c1 - f.x2(k, j, i).c0 - f.x2(k, j, i - 1).c0))
  }

  function Ct1(e: Field, k: int, j: int, i: int): Vec {
    Vec(0.0, 0.5 * (e(k, j, i).c2 + e(k, j + 1, i).c2), -0.5 * (e(k, j, i).c1 + e(k + 1, j, i).c1))
  }

  function Ct2(e: Field, k: int, j: int, i: int): Vec {
    Vec(-0.5 * (e(k, j, i).c2 + e(k, j, i + 1).c2), 0.0, 0.5 * (e(k, j, i).c0 + e(k + 1, j, i).c0))
  }

  function Ct3(e: Field, k: int, j: int, i: int): Vec {
    Vec(0.5 * (e(k, j, i).c1 + e(k, j, i + 1).c1), -0.5 * (e(k, j, i).c0 + e(k, j + 1, i).c0), 0.0)
  }

  function Constrained(e: Field): Fluxes {
    Fluxes((k, j, i) => Ct1(e, k, j, i), (k, j, i) => Ct2(e, k, j, i), (k, j, i) => Ct3(e, k, j, i))
  }

  /** Minus the flux divergence of a cell. */
  function Dudt(m: Mesh, f: Fluxes, k: int, j: int, i: int): Vec
    requires m.Valid()
  {
    Vec(-((f.x1(k, j, i + 1).c0 - f.x1(k, j, i).c0) / m.dx1 + (f.x2(k, j + 1, i).c0 - f.x2(k, j, i).c0) / m.dx2
          + (f.x3(k + 1, j, i).c0 - f.x3(k, j, i).c0) / m.dx3),
        -((f.x1(k, j, i + 1).c1 - f.x1(k, j, i).c1) / m.dx1 + (f.x2(k, j + 1, i).c1 - f.x2(k, j, i).c1) / m.dx2
          + (f.x3(k + 1, j, i).c1 - f.x3(k, j, i).c1) / m.dx3),
        -((f.x1(k, j, i + 1).c2 - f.x1(k, j, i).c2) / m.dx1 + (f.x2(k, j + 1, i).c2 - f.x2(k, j, i).c2) / m.dx2
          + (f.x3(k + 1, j, i).c2 - f.x3(k, j, i).c2) / m.dx3))
  }

  function D1(b: Scalar, k: int, j: int, i: int): real {
    0.25 * (b(k, j, i) + b(k, j - 1, i) + b(k - 1, j, i) + b(k - 1, j - 1, i)
            - b(k, j, i - 1) - b(k, j - 1, i - 1) - b(k - 1, j, i - 1) - b(k - 1, j - 1, i - 1))
  }

  function D2(b: Scalar, k: int, j: int, i: int): real {
    0.25 * (b(k, j, i) + b(k, j, i - 1) + b(k - 1, j, i) + b(k - 1, j, i - 1)
            - b(k, j - 1, i) - b(k, j - 1, i - 1) - b(k - 1, j - 1, i) - b(k - 1, j - 1, i - 1))
  }

  function D3(b: Scalar, k: int, j: int, i: int): real {
    0.25 * (b(k, j, i) + b(k, j, i - 1) + b(k, j - 1, i) + b(k, j - 1, i - 1)
            - b(k - 1, j, i) - b(k - 1, j, i - 1) - b(k - 1, j - 1, i) - b(k - 1, j - 1, i - 1))
  }

  function C0(b: Field): Scalar { (k, j, i) => b(k, j, i).c0 }
  function C1(b: Field): Scalar { (k, j, i) => b(k, j, i).c1 }
  function C2(b: Field): Scalar { (k, j, i) => b(k, j, i).c2 }

  /** The divergence at the low corner of cell (k, j, i). */
  function NodeDiv(m: Mesh, b: Field, k: int, j: int, i: int): real
    requires m.Valid()
  {
    D1(C0(b), k, j, i) / m.dx1 + D2(C1(b), k, j, i) / m.dx2 + D3(C2(b), k, j, i) / m.dx3
  }

  // ---------------------------------------------------------------------------------------------
  // The curl of a corner potential has no node divergence.

  /** Difference along axis a, averaged along axis b, of a corner quantity over one cell. */
  function Cross(e: Scalar, a: (int, int, int), b: (int, int, int), k: int, j: int, i: int): real {
    0.5 * ((e(k + a.0, j + a.1, i + a.2) + e(k + a.0 + b.0, j + a.1 + b.1, i + a.2 + b.2))
           - (e(k, j, i) + e(k + b.0, j + b.1, i + b.2)))
  }

  function Across(e: Scalar, a: (int, int, int), b: (int, int, int)): Scalar {
    (k, j, i) => Cross(e, a, b, k, j, i)
  }

  const K1 := (1, 0, 0)
  const J1 := (0, 1, 0)
  const I1 := (0, 0, 1)

  /** The two mixed differences of a corner quantity agree, whichever axis comes first. */
  lemma MixedDifferences(e: Scalar, k: int, j: int, i: int)
    ensures D1(Across(e, J1, I1), k, j, i) == D2(Across(e, I1, J1), k, j, i)
    ensures D1(Across(e, K1, I1), k, j, i) == D3(Across(e, I1, K1), k, j, i)
    ensures D2(Across(e, K1, J1), k, j, i) == D3(Across(e, J1, K1), k, j, i)
  {
    hide D1, D2, D3, Across;
    MixedIJ(e, k, j, i);
    MixedIK(e, k, j, i);
    MixedJK(e, k, j, i);
  }

  lemma MixedIJ(e: Scalar, k: int, j: int, i: int)
    ensures D1(Across(e, J1, I1), k, j, i) == D2(Across(e, I1, J1), k, j, i)
  {
  }

  lemma MixedIK(e: Scalar, k: int, j: int, i: int)
    ensures D1(Across(e, K1, I1), k, j, i) == D3(Across(e, I1, K1), k, j, i)
  {
  }

  lemma MixedJK(e: Scalar, k: int, j: int, i: int)
    ensures D2(Across(e, K1, J1), k, j, i) == D3(Across(e, J1, K1), k, j, i)
  {
  }

  ghost predicate IsComb(h: Scalar, a: real, f: Scalar, b: real, g: Scalar) {
    forall k, j, i :: h(k, j, i) == Comb(a, f(k, j, i), b, g(k, j, i))
  }

  lemma DifferencesLinear(h: Scalar, a: real, f: Scalar, b: real, g: Scalar, k: int, j: int, i: int)
    requires IsComb(h, a, f, b, g)
    ensures D1(h, k, j, i) == Comb(a, D1(f, k, j, i), b, D1(g, k, j, i))
    ensures D2(h, k, j, i) == Comb(a, D2(f, k, j, i), b, D2(g, k, j, i))
    ensures D3(h, k, j, i) == Comb(a, D3(f, k, j, i), b, D3(g, k, j, i))
  {
  }

  /** b is the curl of the corner potential e, cell by cell. */
  ghost predicate IsCurl(m: Mesh, e: Field, b: Field)
    requires m.Valid()
  {
    forall k, j, i ::
      && b(k, j, i).c0 == Comb(1.0 / m.dx2, Across(C2(e), J1, I1)(k, j, i), -1.0 / m.dx3, Across(C1(e), K1, I1)(k, j, i))
      && b(k, j, i).c1 == Comb(1.0 / m.dx3, Across(C0(e), K1, J1)(k, j, i), -1.0 / m.dx1, Across(C2(e), I1, J1)(k, j, i))
      && b(k, j, i).c2 == Comb(1.0 / m.dx1, Across(C1(e), I1, K1)(k, j, i), -1.0 / m.dx2, Across(C0(e), J1, K1)(k, j, i))
  }

  /** What constrained fluxes do to one cell: the curl of the emf. */
  lemma CellCurl(m: Mesh, e: Field, k: int, j: int, i: int)
    requires m.Valid()
    ensures var d := Dudt(m, Constrained(e), k, j, i);
            && d.c0 == Comb(1.0 / m.dx2, Across(C2(e), J1, I1)(k, j, i), -1.0 / m.dx3, Across(C1(e), K1, I1)(k, j, i))
            && d.c1 == Comb(1.0 / m.dx3, Across(C0(e), K1, J1)(k, j, i), -1.0 / m.dx1, Across(C2(e), I1, J1)(k, j, i))
            && d.c2 == Comb(1.0 / m.dx1, Across(C1(e), I1, K1)(k, j, i), -1.0 / m.dx2, Across(C0(e), J1, K1)(k, j, i))
  {
    hide Across, Comb;
    var f := Constrained(e);
    AcrossAt(C0(e), k, j, i);
    AcrossAt(C1(e), k, j, i);
    AcrossAt(C2(e), k, j, i);
    Row(f.x1(k, j, i + 1).c0 - f.x1(k, j, i).c0, m.dx1, f.x2(k, j + 1, i).c0 - f.x2(k, j, i).c0, m.dx2,
        f.x3(k + 1, j, i).c0 - f.x3(k, j, i).c0, m.dx3,
        Across(C2(e), J1, I1)(k, j, i), Across(C1(e), K1, I1)(k, j, i));
    Row(f.x2(k, j + 1, i).c1 - f.x2(k, j, i).c1, m.dx2, f.x3(k + 1, j, i).c1 - f.x3(k, j, i).c1, m.dx3,
        f.x1(k, j, i + 1).c1 - f.x1(k, j, i).c1, m.dx1,
        Across(C0(e), K1, J1)(k, j, i), Across(C2(e), I1, J1)(k, j, i));
    Row(f.x3(k + 1, j, i).c2 - f.x3(k, j, i).c2, m.dx3, f.x1(k, j, i + 1).c2 - f.x1(k, j, i).c2, m.dx1,
        f.x2(k, j + 1, i).c2 - f.x2(k, j, i).c2, m.dx2,
        Across(C1(e), I1, K1)(k, j, i), Across(C0(e), J1, K1)(k, j, i));
  }

  lemma AcrossAt(e: Scalar, k: int, j: int, i: int)
    ensures Across(e, J1, I1)(k, j, i) == 0.5 * ((e(k, j + 1, i) + e(k, j + 1, i + 1)) - (e(k, j, i) + e(k, j, i + 1)))
    ensures Across(e, I1, J1)(k, j, i) == 0.5 * ((e(k, j, i + 1) + e(k, j + 1, i + 1)) - (e(k, j, i) + e(k, j + 1, i)))
    ensures Across(e, K1, I1)(k, j, i) == 0.5 * ((e(k + 1, j, i) + e(k + 1, j, i + 1)) - (e(k, j, i) + e(k, j, i + 1)))
    ensures Across(e, I1, K1)(k, j, i) == 0.5 * ((e(k, j, i + 1) + e(k + 1, j, i + 1)) - (e(k, j, i) + e(k + 1, j, i)))
    ensures Across(e, K1, J1)(k, j, i) == 0.5 * ((e(k + 1, j, i) + e(k + 1, j + 1, i)) - (e(k, j, i) + e(k, j + 1, i)))
    ensures Across(e, J1, K1)(k, j, i) == 0.5 * ((e(k, j + 1, i) + e(k + 1, j + 1, i)) - (e(k, j, i) + e(k + 1, j, i)))
  {
    hide Across;
    AcrossIs(e, J1, I1, k, j, i);
    AcrossIs(e, I1, J1, k, j, i);
    AcrossIs(e, K1, I1, k, j, i);
    AcrossIs(e, I1, K1, k, j, i);
    AcrossIs(e, K1, J1, k, j, i);
    AcrossIs(e, J1, K1, k, j, i);
  }

  lemma AcrossIs(e: Scalar, a: (int, int, int), b: (int, int, int), k: int, j: int, i: int)
    ensures Across(e, a, b)(k, j, i) == Cross(e, a, b, k, j, i)
  {
    hide Cross;
  }

  /** One component of the flux divergence: nothing through the first pair of faces. */
  lemma Row(z: real, d1: real, a: real, d2: real, b: real, d3: real, p: real, q: real)
    requires d1 > 0.0 && d2 > 0.0 && d3 > 0.0 && z == 0.0 && a == -p && b == q
    ensures -(z / d1 + a / d2 + b / d3) == Comb(1.0 / d2, p, -1.0 / d3, q)
  {
    ByInverse(a, d2);
    ByInverse(b, d3);
  }

  lemma ByInverse(x: real, d: real)
    requires d > 0.0
    ensures x / d == 1.0 / d * x
    ensures -1.0 / d == -(1.0 / d)
  {
    DivMul(1.0, d);
    DivMul(x, d);
    DivIs(x, d, 1.0 / d * x);
    DivIs(-1.0, d, -(1.0 / d));
    assert 1.0 / d * x * d == x * (1.0 / d * d);
  }

  lemma CurlFree(m: Mesh, e: Field, b: Field, k: int, j: int, i: int)
    requires m.Valid() && IsCurl(m, e, b)
    ensures NodeDiv(m, b, k, j, i) == 0.0
  {
    hide D1, D2, D3, Across, Comb, C0, C1, C2;
    Components(b);
    DifferencesLinear(C0(b), 1.0 / m.dx2, Across(C2(e), J1, I1), -1.0 / m.dx3, Across(C1(e), K1, I1), k, j, i);
    DifferencesLinear(C1(b), 1.0 / m.dx3, Across(C0(e), K1, J1), -1.0 / m.dx1, Across(C2(e), I1, J1), k, j, i);
    DifferencesLinear(C2(b), 1.0 / m.dx1, Across(C1(e), I1, K1), -1.0 / m.dx2, Across(C0(e), J1, K1), k, j, i);
    MixedDifferences(C0(e), k, j, i);
    MixedDifferences(C1(e), k, j, i);
    MixedDifferences(C2(e), k, j, i);
    CurlAlgebra(m, D1(Across(C2(e), J1, I1), k, j, i), D1(Across(C1(e), K1, I1), k, j, i),
                D2(Across(C0(e), K1, J1), k, j, i));
  }

  lemma Components(b: Field)
    ensures forall k, j, i :: C0(b)(k, j, i) == b(k, j, i).c0 && C1(b)(k, j, i) == b(k, j, i).c1
                              && C2(b)(k, j, i) == b(k, j, i).c2
  {
  }

  lemma CurlAlgebra(m: Mesh, p: real, q: real, r: real)
    requires m.Valid()
    ensures Comb(1.0 / m.dx2, p, -1.0 / m.dx3, q) / m.dx1 + Comb(1.0 / m.dx3, r, -1.0 / m.dx1, p) / m.dx2
            + Comb(1.0 / m.dx1, q, -1.0 / m.dx2, r) / m.dx3 == 0.0
  {
    var x, y, z := 1.0 / m.dx1, 1.0 / m.dx2, 1.0 / m.dx3;
    ByInverse(Comb(y, p, -1.0 / m.dx3, q), m.dx1);
    ByInverse(Comb(z, r, -1.0 / m.dx1, p), m.dx2);
    ByInverse(Comb(x, q, -1.0 / m.dx2, r), m.dx3);
    CurlProducts(x, y, z, p, q, r);
  }

  lemma CurlProducts(x: real, y: real, z: real, p: real, q: real, r: real)
    ensures x * Comb(y, p, -z, q) + y * Comb(z, r, -x, p) + z * Comb(x, q, -y, r) == 0.0
  {
  }

  // ---------------------------------------------------------------------------------------------
  // Two dimensions: one emf, no third direction, the third component left alone.

  function CtFlat1(e: Field, f: Field, k: int, j: int, i: int): Vec {
    Vec(0.0, 0.5 * (e(k, j, i).c2 + e(k, j + 1, i).c2), f(k, j, i).c2)
  }

  function CtFlat2(e: Field, f: Field, k: int, j: int, i: int): Vec {
    Vec(-0.5 * (e(k, j, i).c2 + e(k, j, i + 1).c2), 0.0, f(k, j, i).c2)
  }

  function Constrained2(e: Field, f: Fluxes): Fluxes {
    Fluxes((k, j, i) => CtFlat1(e, f.x1, k, j, i), (k, j, i) => CtFlat2(e, f.x2, k, j, i), f.x3)
  }

  function Dudt2(m: Mesh, f: Fluxes, k: int, j: int, i: int): Vec
    requires m.Valid()
  {
    Vec(-((f.x1(k, j, i + 1).c0 - f.x1(k, j, i).c0) / m.dx1 + (f.x2(k, j + 1, i).c0 - f.x2(k, j, i).c0) / m.dx2),
        -((f.x1(k, j, i + 1).c1 - f.x1(k, j, i).c1) / m.dx1 + (f.x2(k, j + 1, i).c1 - f.x2(k, j, i).c1) / m.dx2),
        -((f.x1(k, j, i + 1).c2 - f.x1(k, j, i).c2) / m.dx1 + (f.x2(k, j + 1, i).c2 - f.x2(k, j, i).c2) / m.dx2))
  }

  function F1(b: Scalar, k: int, j: int, i: int): real {
    0.5 * (b(k, j, i) + b(k, j - 1, i) - b(k, j, i - 1) - b(k, j - 1, i - 1))
  }

  function F2(b: Scalar, k: int, j: int, i: int): real {
    0.5 * (b(k, j, i) + b(k, j, i - 1) - b(k, j - 1, i) - b(k, j - 1, i - 1))
  }

  function NodeDiv2(m: Mesh, b: Field, k: int, j: int, i: int): real
    requires m.Valid()
  {
    F1(C0(b), k, j, i) / m.dx1 + F2(C1(b), k, j, i) / m.dx2
  }

  lemma MixedDifferences2(e: Scalar, k: int, j: int, i: int)
    ensures F1(Across(e, J1, I1), k, j, i) == F2(Across(e, I1, J1), k, j, i)
  {
  }

  lemma DifferencesLinear2(h: Scalar, a: real, f: Scalar, b: real, g: Scalar, k: int, j: int, i: int)
    requires IsComb(h, a, f, b, g)
    ensures F1(h, k, j, i) == Comb(a, F1(f, k, j, i), b, F1(g, k, j, i))
    ensures F2(h, k, j, i) == Comb(a, F2(f, k, j, i), b, F2(g, k, j, i))
  {
  }

  ghost predicate IsCurl2(m: Mesh, e: Scalar, b: Field)
    requires m.Valid()
  {
    forall k, j, i ::
      && b(k, j, i).c0 == Comb(1.0 / m.dx2, Across(e, J1, I1)(k, j, i), 0.0, e(k, j, i))
      && b(k, j, i).c1 == Comb(-1.0 / m.dx1, Across(e, I1, J1)(k, j, i), 0.0, e(k, j, i))
  }

  lemma CellCurl2(m: Mesh, e: Field, f: Fluxes, k: int, j: int, i: int)
    requires m.Valid()
    ensures var d := Dudt2(m, Constrained2(e, f), k, j, i);
            && d.c0 == Comb(1.0 / m.dx2, Across(C2(e), J1, I1)(k, j, i), 0.0, C2(e)(k, j, i))
            && d.c1 == Comb(-1.0 / m.dx1, Across(C2(e), I1, J1)(k, j, i), 0.0, C2(e)(k, j, i))
  {
    hide Across, Comb;
    var g := Constrained2(e, f);
    AcrossAt(C2(e), k, j, i);
    Row2(g.x1(k, j, i + 1).c0 - g.x1(k, j, i).c0, m.dx1, g.x2(k, j + 1, i).c0 - g.x2(k, j, i).c0, m.dx2,
         -Across(C2(e), J1, I1)(k, j, i), C2(e)(k, j, i));
    Row2(g.x2(k, j + 1, i).c1 - g.x2(k, j, i).c1, m.dx2, g.x1(k, j, i + 1).c1 - g.x1(k, j, i).c1, m.dx1,
         Across(C2(e), I1, J1)(k, j, i), C2(e)(k, j, i));
  }

  lemma Row2(z: real, d1: real, a: real, d2: real, p: real, q: real)
    requires d1 > 0.0 && d2 > 0.0 && z == 0.0 && a == p
    ensures -(z / d1 + a / d2) == Comb(-1.0 / d2, p, 0.0, q) == Comb(1.0 / d2, -p, 0.0, q)
  {
    ByInverse(a, d2);
  }

  lemma CurlFree2(m: Mesh, e: Scalar, b: Field, k: int, j: int, i: int)
    requires m.Valid() && IsCurl2(m, e, b)
    ensures NodeDiv2(m, b, k, j, i) == 0.0
  {
    hide F1, F2, Across, Comb, C0, C1;
    Components(b);
    DifferencesLinear2(C0(b), 1.0 / m.dx2, Across(e, J1, I1), 0.0, e, k, j, i);
    DifferencesLinear2(C1(b), -1.0 / m.dx1, Across(e, I1, J1), 0.0, e, k, j, i);
    MixedDifferences2(e, k, j, i);
    CurlAlgebra2(m, F1(Across(e, J1, I1), k, j, i), F1(e, k, j, i), F2(e, k, j, i));
  }

  lemma CurlAlgebra2(m: Mesh, p: real, q: real, r: real)
    requires m.Valid()
    ensures Comb(1.0 / m.dx2, p, 0.0, q) / m.dx1 + Comb(-1.0 / m.dx1, p, 0.0, r) / m.dx2 == 0.0
  {
    var x, y := 1.0 / m.dx1, 1.0 / m.dx2;
    ByInverse(Comb(y, p, 0.0, q), m.dx1);
    ByInverse(Comb(-1.0 / m.dx1, p, 0.0, r), m.dx2);
    assert x * (y * p) == y * (x * p);
  }

  // ---------------------------------------------------------------------------------------------
  // What the emf and the divergence are, on the simplest fields.

  /** The magnetic fluxes of one uniform electric field e, through all faces. */
  ghost predicate FromElectric(f: Fluxes, e: Vec) {
    && (forall k, j, i :: f.x1(k, j, i) == Vec(0.0, e.c2, -e.c1))
    && (forall k, j, i :: f.x2(k, j, i) == Vec(-e.c2, 0.0, e.c0))
    && (forall k, j, i :: f.x3(k, j, i) == Vec(e.c1, -e.c0, 0.0))
  }

  /** From the fluxes of a uniform electric field, the corner average recovers that field with its sign,
      and the replaced fluxes are the incoming ones, in two and in three dimensions. */
  lemma UniformFieldKept(f: Fluxes, e: Vec, k: int, j: int, i: int)
    requires FromElectric(f, e)
    ensures Emf(f, k, j, i) == e
    ensures var c := Constrained(EmfOf(f));
            c.x1(k, j, i) == f.x1(k, j, i) && c.x2(k, j, i) == f.x2(k, j, i) && c.x3(k, j, i) == f.x3(k, j, i)
    ensures var c := Constrained2(EmfOf(f), f);
            c.x1(k, j, i) == f.x1(k, j, i) && c.x2(k, j, i) == f.x2(k, j, i) && c.x3(k, j, i) == f.x3(k, j, i)
  {
    hide Emf;
    UniformEmf(f, e);
  }

  lemma UniformEmf(f: Fluxes, e: Vec)
    requires FromElectric(f, e)
    ensures forall k, j, i :: Emf(f, k, j, i) == e
  {
  }

  /** An electric field that is affine in the position, with cell (k, j, i) centred at (k, j, i). */
  datatype Affine = Affine(e: Vec, ez: Vec, ey: Vec, ex: Vec) {
    function At(z: real, y: real, x: real): Vec {
      Vec(Plane(e.c0, ez.c0, ey.c0, ex.c0, z, y, x), Plane(e.c1, ez.c1, ey.c1, ex.c1, z, y, x),
          Plane(e.c2, ez.c2, ey.c2, ex.c2, z, y, x))
    }
  }

  function Plane(e: real, ez: real, ey: real, ex: real, z: real, y: real, x: real): real {
    e + Prod(ez, z) + Prod(ey, y) + Prod(ex, x)
  }

  /** Its fluxes, each taken at the centre of its face: half a cell below the cell in the direction of the
      face. */
  ghost predicate FromAffine(f: Fluxes, a: Affine) {
    && (forall k: int, j: int, i: int ::
          var e := a.At(k as real, j as real, i as real - 0.5); f.x1(k, j, i) == Vec(0.0, e.c2, -e.c1))
    && (forall k: int, j: int, i: int ::
          var e := a.At(k as real, j as real - 0.5, i as real); f.x2(k, j, i) == Vec(-e.c2, 0.0, e.c0))
    && (forall k: int, j: int, i: int ::
          var e := a.At(k as real - 0.5, j as real, i as real); f.x3(k, j, i) == Vec(e.c1, -e.c0, 0.0))
  }

  /** The emf is second-order: on an affine field it is the field itself at the edge, half a cell below in
      both directions across it. */
  lemma EmfAffine(f: Fluxes, a: Affine, k: int, j: int, i: int)
    requires FromAffine(f, a)
    ensures var z, y, x := k as real, j as real, i as real;
            Emf(f, k, j, i) == Vec(a.At(z - 0.5, y - 0.5, x).c0, a.At(z - 0.5, y, x - 0.5).c1, a.At(z, y - 0.5, x - 0.5).c2)
  {
    hide Plane, Prod;
    var z, y, x := k as real, j as real, i as real;
    assert (k - 1) as real == z - 1.0 && (j - 1) as real == y - 1.0 && (i - 1) as real == x - 1.0;
    EdgeMean(a.e.c0, a.ez.c0, a.ey.c0, a.ex.c0, z, y, x);
    EdgeMean(a.e.c1, a.ez.c1, a.ey.c1, a.ex.c1, z, y, x);
    EdgeMean(a.e.c2, a.ez.c2, a.ey.c2, a.ex.c2, z, y, x);
  }

  /** The mean of the four faces around an edge, for each direction of the edge. */
  lemma EdgeMean(e: real, ez: real, ey: real, ex: real, z: real, y: real, x: real)
    ensures Plane(e, ez, ey, ex, z - 0.5, y - 0.5, x)
            == 0.25 * (Plane(e, ez, ey, ex, z, y - 0.5, x) + Plane(e, ez, ey, ex, z - 1.0, y - 0.5, x)
                       + Plane(e, ez, ey, ex, z - 0.5, y, x) + Plane(e, ez, ey, ex, z - 0.5, y - 1.0, x))
    ensures Plane(e, ez, ey, ex, z - 0.5, y, x - 0.5)
            == 0.25 * (Plane(e, ez, ey, ex, z, y, x - 0.5) + Plane(e, ez, ey, ex, z - 1.0, y, x - 0.5)
                       + Plane(e, ez, ey, ex, z - 0.5, y, x) + Plane(e, ez, ey, ex, z - 0.5, y, x - 1.0))
    ensures Plane(e, ez, ey, ex, z, y - 0.5, x - 0.5)
            == 0.25 * (Plane(e, ez, ey, ex, z, y, x - 0.5) + Plane(e, ez, ey, ex, z, y - 1.0, x - 0.5)
                       + Plane(e, ez, ey, ex, z, y - 0.5, x) + Plane(e, ez, ey, ex, z, y - 0.5, x - 1.0))
  {
  }

  /** g is f with d added at one cell. */
  ghost predicate ChangedAt(f: Field, g: Field, c: (int, int, int), d: Vec) {
    forall k, j, i :: g(k, j, i) == if (k, j, i) == c then Add(f(k, j, i), d) else f(k, j, i)
  }

  function Quarter(touches: bool, d: real): real { if touches then 0.25 * d else 0.0 }

  /** Every one of the four faces around an edge counts a quarter, with its sign, and no other face counts. */
  lemma EmfFaces(f: Fluxes, g: Fluxes, c: (int, int, int), d: Vec, k: int, j: int, i: int)
    ensures ChangedAt(f.x1, g.x1, c, d) && ChangedAt(f.x2, g.x2, c, ZERO) && ChangedAt(f.x3, g.x3, c, ZERO) ==>
              Emf(g, k, j, i) == Add(Emf(f, k, j, i), Vec(0.0, -Quarter(c == (k, j, i) || c == (k - 1, j, i), d.c2),
                                                          Quarter(c == (k, j, i) || c == (k, j - 1, i), d.c1)))
    ensures ChangedAt(f.x1, g.x1, c, ZERO) && ChangedAt(f.x2, g.x2, c, d) && ChangedAt(f.x3, g.x3, c, ZERO) ==>
              Emf(g, k, j, i) == Add(Emf(f, k, j, i), Vec(Quarter(c == (k, j, i) || c == (k - 1, j, i), d.c2), 0.0,
                                                          -Quarter(c == (k, j, i) || c == (k, j, i - 1), d.c0)))
    ensures ChangedAt(f.x1, g.x1, c, ZERO) && ChangedAt(f.x2, g.x2, c, ZERO) && ChangedAt(f.x3, g.x3, c, d) ==>
              Emf(g, k, j, i) == Add(Emf(f, k, j, i), Vec(-Quarter(c == (k, j, i) || c == (k, j - 1, i), d.c1),
                                                          Quarter(c == (k, j, i) || c == (k, j, i - 1), d.c0), 0.0))
  {
  }

  /** b depends linearly on the indices, with slopes p, q, r along i, j, k. */
  ghost predicate LinearIn(b: Scalar, p: real, q: real, r: real) {
    forall k: int, j: int, i: int ::
      b(k, j, i) == Prod(p, i as real) + Prod(q, j as real) + Prod(r, k as real)
  }

  /** On a linear field the node divergence is the divergence: only the diagonal slopes enter. */
  lemma DivergenceOfLinear(m: Mesh, b: Field, p: Vec, q: Vec, r: Vec, k: int, j: int, i: int)
    requires m.Valid() && LinearIn(C0(b), p.c0, p.c1, p.c2) && LinearIn(C1(b), q.c0, q.c1, q.c2)
    requires LinearIn(C2(b), r.c0, r.c1, r.c2)
    ensures NodeDiv(m, b, k, j, i) == p.c0 / m.dx1 + q.c1 / m.dx2 + r.c2 / m.dx3
    ensures NodeDiv2(m, b, k, j, i) == p.c0 / m.dx1 + q.c1 / m.dx2
  {
    hide D1, D2, D3, F1, F2, C0, C1, C2, LinearIn;
    LinearDifferences(C0(b), p.c0, p.c1, p.c2, k, j, i);
    LinearDifferences(C1(b), q.c0, q.c1, q.c2, k, j, i);
    LinearDifferences(C2(b), r.c0, r.c1, r.c2, k, j, i);
  }

  lemma LinearDifferences(b: Scalar, p: real, q: real, r: real, k: int, j: int, i: int)
    requires LinearIn(b, p, q, r)
    ensures D1(b, k, j, i) == F1(b, k, j, i) == p && D2(b, k, j, i) == F2(b, k, j, i) == q && D3(b, k, j, i) == r
  {
    hide Prod;
    Previous(p, i);
    Previous(q, j);
    Previous(r, k);
  }

  lemma Previous(p: real, i: int)
    ensures Prod(p, (i - 1) as real) == Prod(p, i as real) - p
  {
  }

  /** The update of a cell is minus the slopes of the fluxes through its three pairs of faces, or two of them. */
  lemma RateOfSlopes(m: Mesh, f: Fluxes, a: Vec, b: Vec, c: Vec, k: int, j: int, i: int)
    requires m.Valid()
    requires f.x1(k, j, i + 1) == Add(f.x1(k, j, i), a) && f.x2(k, j + 1, i) == Add(f.x2(k, j, i), b)
    requires f.x3(k + 1, j, i) == Add(f.x3(k, j, i), c)
    ensures Dudt(m, f, k, j, i) == Vec(-(a.c0 / m.dx1 + b.c0 / m.dx2 + c.c0 / m.dx3),
                                       -(a.c1 / m.dx1 + b.c1 / m.dx2 + c.c1 / m.dx3),
                                       -(a.c2 / m.dx1 + b.c2 / m.dx2 + c.c2 / m.dx3))
    ensures Dudt2(m, f, k, j, i) == Vec(-(a.c0 / m.dx1 + b.c0 / m.dx2), -(a.c1 / m.dx1 + b.c1 / m.dx2),
                                        -(a.c2 / m.dx1 + b.c2 / m.dx2))
  {
    assert f.x1(k, j, i + 1).c0 - f.x1(k, j, i).c0 == a.c0 && f.x1(k, j, i + 1).c1 - f.x1(k, j, i).c1 == a.c1;
    assert f.x1(k, j, i + 1).c2 - f.x1(k, j, i).c2 == a.c2;
    assert f.x2(k, j + 1, i).c0 - f.x2(k, j, i).c0 == b.c0 && f.x2(k, j + 1, i).c1 - f.x2(k, j, i).c1 == b.c1;
    assert f.x2(k, j + 1, i).c2 - f.x2(k, j, i).c2 == b.c2;
    assert f.x3(k + 1, j, i).c0 - f.x3(k, j, i).c0 == c.c0 && f.x3(k + 1, j, i).c1 - f.x3(k, j, i).c1 == c.c1;
    assert f.x3(k + 1, j, i).c2 - f.x3(k, j, i).c2 == c.c2;
  }

  // ---------------------------------------------------------------------------------------------
  // Whole runs.

  datatype Dim = Two | Three

  function Divergence(dim: Dim, m: Mesh, b: Field, k: int, j: int, i: int): real
    requires m.Valid()
  {
    if dim.Two? then NodeDiv2(m, b, k, j, i) else NodeDiv(m, b, k, j, i)
  }

  function EmfOf(f: Fluxes): Field { (k, j, i) => Emf(f, k, j, i) }

  /** dU/dt of one cell after FluxCT has replaced the incoming fluxes f. */
  function Rate(dim: Dim, m: Mesh, f: Fluxes, k: int, j: int, i: int): Vec
    requires m.Valid()
  {
    if dim.Two? then Dudt2(m, Constrained2(EmfOf(f), f), k, j, i) else Dudt(m, Constrained(EmfOf(f)), k, j, i)
  }

  function RateField(dim: Dim, m: Mesh, f: Fluxes): Field
    requires m.Valid()
  {
    (k, j, i) => Rate(dim, m, f, k, j, i)
  }

  /** Index bounds of the interior cells. */
  datatype Box = Box(kLo: int, kHi: int, jLo: int, jHi: int, iLo: int, iHi: int) {
    predicate Has(k: int, j: int, i: int) { kLo <= k <= kHi && jLo <= j <= jHi && iLo <= i <= iHi }

    /** All cells around the low corner of (k, j, i) are interior. */
    predicate HasNode(dim: Dim, k: int, j: int, i: int) {
      Has(k, j, i) && jLo < j && iLo < i && (dim.Three? ==> kLo < k)
    }
  }

  lemma DivergenceLocal(dim: Dim, m: Mesh, a: Field, b: Field, k: int, j: int, i: int)
    requires m.Valid()
    requires forall k', j', i' :: (dim.Two? ==> k' == k) && k - 1 <= k' <= k && j - 1 <= j' <= j && i - 1 <= i' <= i
                                  ==> a(k', j', i') == b(k', j', i')
    ensures Divergence(dim, m, a, k, j, i) == Divergence(dim, m, b, k, j, i)
  {
    Components(a);
    Components(b);
  }

  function Mix(s: real, a: Field, t: real, b: Field): Field {
    (k, j, i) => Vec(Comb(s, a(k, j, i).c0, t, b(k, j, i).c0), Comb(s, a(k, j, i).c1, t, b(k, j, i).c1),
                     Comb(s, a(k, j, i).c2, t, b(k, j, i).c2))
  }

  lemma DivergenceLinear(dim: Dim, m: Mesh, s: real, a: Field, t: real, b: Field, k: int, j: int, i: int)
    requires m.Valid()
    ensures Divergence(dim, m, Mix(s, a, t, b), k, j, i)
            == Comb(s, Divergence(dim, m, a, k, j, i), t, Divergence(dim, m, b, k, j, i))
  {
    hide D1, D2, D3, F1, F2, Comb, C0, C1, C2;
    var h := Mix(s, a, t, b);
    Components(h);
    Components(a);
    Components(b);
    DifferencesLinear(C0(h), s, C0(a), t, C0(b), k, j, i);
    DifferencesLinear(C1(h), s, C1(a), t, C1(b), k, j, i);
    DifferencesLinear(C2(h), s, C2(a), t, C2(b), k, j, i);
    DifferencesLinear2(C0(h), s, C0(a), t, C0(b), k, j, i);
    DifferencesLinear2(C1(h), s, C1(a), t, C1(b), k, j, i);
    if dim.Two? {
      SumLinear(m, s, t, F1(C0(a), k, j, i), F2(C1(a), k, j, i), 0.0, F1(C0(b), k, j, i), F2(C1(b), k, j, i), 0.0);
    } else {
      SumLinear(m, s, t, D1(C0(a), k, j, i), D2(C1(a), k, j, i), D3(C2(a), k, j, i),
                D1(C0(b), k, j, i), D2(C1(b), k, j, i), D3(C2(b), k, j, i));
    }
  }

  lemma SumLinear(m: Mesh, s: real, t: real, a1: real, a2: real, a3: real, b1: real, b2: real, b3: real)
    requires m.Valid()
    ensures Comb(s, a1, t, b1) / m.dx1 + Comb(s, a2, t, b2) / m.dx2 + Comb(s, a3, t, b3) / m.dx3
            == Comb(s, a1 / m.dx1 + a2 / m.dx2 + a3 / m.dx3, t, b1 / m.dx1 + b2 / m.dx2 + b3 / m.dx3)
    ensures Comb(s, a1, t, b1) / m.dx1 + Comb(s, a2, t, b2) / m.dx2
            == Comb(s, a1 / m.dx1 + a2 / m.dx2, t, b1 / m.dx1 + b2 / m.dx2)
  {
    CombOver(s, a1, t, b1, m.dx1);
    CombOver(s, a2, t, b2, m.dx2);
    CombOver(s, a3, t, b3, m.dx3);
    CombAdds(s, t, a1 / m.dx1, a2 / m.dx2, a3 / m.dx3, b1 / m.dx1, b2 / m.dx2, b3 / m.dx3);
  }

  lemma CombOver(s: real, a: real, t: real, b: real, d: real)
    requires d > 0.0
    ensures Comb(s, a, t, b) / d == Comb(s, a / d, t, b / d)
  {
    DivMul(a, d);
    DivMul(b, d);
    var q := Comb(s, a / d, t, b / d);
    assert q * d == s * (a / d * d) + t * (b / d * d);
    DivIs(Comb(s, a, t, b), d, q);
  }

  lemma CombAdds(s: real, t: real, a1: real, a2: real, a3: real, b1: real, b2: real, b3: real)
    ensures Comb(s, a1, t, b1) + Comb(s, a2, t, b2) + Comb(s, a3, t, b3) == Comb(s, a1 + a2 + a3, t, b1 + b2 + b3)
    ensures Comb(s, a1, t, b1) + Comb(s, a2, t, b2) == Comb(s, a1 + a2, t, b1 + b2)
  {
  }

  lemma RateIsCurlFree(dim: Dim, m: Mesh, f: Fluxes, b: Field, k: int, j: int, i: int)
    requires m.Valid() && forall k, j, i :: b(k, j, i) == Rate(dim, m, f, k, j, i)
    ensures Divergence(dim, m, b, k, j, i) == 0.0
  {
    hide Dudt, Dudt2, Constrained, Constrained2, EmfOf, Emf, Across, Comb, C0, C1, C2, NodeDiv, NodeDiv2;
    if dim.Two? {
      var e := C2(EmfOf(f));
      forall k, j, i
        ensures b(k, j, i).c0 == Comb(1.0 / m.dx2, Across(e, J1, I1)(k, j, i), 0.0, e(k, j, i))
                && b(k, j, i).c1 == Comb(-1.0 / m.dx1, Across(e, I1, J1)(k, j, i), 0.0, e(k, j, i))
      {
        CellCurl2(m, EmfOf(f), f, k, j, i);
      }
      CurlFree2(m, e, b, k, j, i);
    } else {
      var e := EmfOf(f);
      forall k, j, i
        ensures var d := b(k, j, i);
                && d.c0 == Comb(1.0 / m.dx2, Across(C2(e), J1, I1)(k, j, i), -1.0 / m.dx3, Across(C1(e), K1, I1)(k, j, i))
                && d.c1 == Comb(1.0 / m.dx3, Across(C0(e), K1, J1)(k, j, i), -1.0 / m.dx1, Across(C2(e), I1, J1)(k, j, i))
                && d.c2 == Comb(1.0 / m.dx1, Across(C1(e), I1, K1)(k, j, i), -1.0 / m.dx2, Across(C0(e), J1, K1)(k, j, i))
      {
        CellCurl(m, e, k, j, i);
      }
      CurlFree(m, e, b, k, j, i);
    }
  }

  /** One Runge-Kutta stage: its weight and step, the fluxes the Riemann solver happened to give, and
      the field afterwards. Cells outside the interior are refilled by the boundary conditions. */
  datatype Stage = Stage(beta: real, dt: real, fluxes: Fluxes, after: Field)

  function StageField(dim: Dim, m: Mesh, base: Field, u: Field, s: Stage): Field
    requires m.Valid()
  {
    Mix(1.0, Mix(s.beta, u, 1.0 - s.beta, base), Prod(s.beta, s.dt), RateField(dim, m, s.fluxes))
  }

  /** beta * u + (1 - beta) * base + beta * dt * dU/dt on every interior cell. */
  ghost predicate Advances(dim: Dim, m: Mesh, box: Box, base: Field, u: Field, s: Stage)
    requires m.Valid()
  {
    forall k, j, i :: box.Has(k, j, i) ==>
      s.after(k, j, i) == StageField(dim, m, base, u, s)(k, j, i)
  }

  /** The new field at an interior cell, component by component: the weighted average of the field and the
      base, plus beta * dt times minus the divergence of the fluxes that FluxCT leaves. */
  lemma StageIs(dim: Dim, m: Mesh, box: Box, base: Field, u: Field, s: Stage, k: int, j: int, i: int)
    requires m.Valid() && Advances(dim, m, box, base, u, s) && box.Has(k, j, i)
    ensures var e := EmfOf(s.fluxes);
            var d := if dim.Two? then Dudt2(m, Constrained2(e, s.fluxes), k, j, i) else Dudt(m, Constrained(e), k, j, i);
            var a, x, y := s.after(k, j, i), u(k, j, i), base(k, j, i);
            && a.c0 == y.c0 + s.beta * (x.c0 - y.c0) + s.beta * s.dt * d.c0
            && a.c1 == y.c1 + s.beta * (x.c1 - y.c1) + s.beta * s.dt * d.c1
            && a.c2 == y.c2 + s.beta * (x.c2 - y.c2) + s.beta * s.dt * d.c2
  {
    hide Dudt, Dudt2, Constrained, Constrained2, Emf, EmfOf, Comb, Prod;
    var x, y, d := u(k, j, i), base(k, j, i), Rate(dim, m, s.fluxes, k, j, i);
    Averaged(s.beta, s.dt, x.c0, y.c0, d.c0);
    Averaged(s.beta, s.dt, x.c1, y.c1, d.c1);
    Averaged(s.beta, s.dt, x.c2, y.c2, d.c2);
  }

  lemma Averaged(beta: real, dt: real, x: real, y: real, d: real)
    ensures Comb(1.0, Comb(beta, x, 1.0 - beta, y), Prod(beta, dt), d) == y + beta * (x - y) + beta * dt * d
  {
  }

  lemma StageKeepsDivB(dim: Dim, m: Mesh, box: Box, base: Field, u: Field, s: Stage, k: int, j: int, i: int)
    requires m.Valid() && Advances(dim, m, box, base, u, s) && box.HasNode(dim, k, j, i)
    ensures Divergence(dim, m, s.after, k, j, i)
            == Comb(s.beta, Divergence(dim, m, u, k, j, i), 1.0 - s.beta, Divergence(dim, m, base, k, j, i))
  {
    hide Divergence, Mix, Rate, Comb, Prod;
    var d := RateField(dim, m, s.fluxes);
    var avg := Mix(s.beta, u, 1.0 - s.beta, base);
    DivergenceLocal(dim, m, s.after, StageField(dim, m, base, u, s), k, j, i);
    DivergenceLinear(dim, m, 1.0, avg, Prod(s.beta, s.dt), d, k, j, i);
    DivergenceLinear(dim, m, s.beta, u, 1.0 - s.beta, base, k, j, i);
    RateIsCurlFree(dim, m, s.fluxes, d, k, j, i);
    CombUnit(Divergence(dim, m, avg, k, j, i), Prod(s.beta, s.dt));
  }

  lemma CombUnit(a: real, t: real)
    ensures Comb(1.0, a, t, 0.0) == a
  {
  }

  /** The stages of one step, all averaged against the field the step began with, lead from u to v. */
  ghost predicate IsStep(dim: Dim, m: Mesh, box: Box, base: Field, u: Field, stages: seq<Stage>, v: Field)
    requires m.Valid()
    decreases |stages|
  {
    if stages == [] then v == u
    else Advances(dim, m, box, base, u, stages[0]) && IsStep(dim, m, box, base, stages[0].after, stages[1..], v)
  }

  /** One step of a run: its stages, and the field it ends with. */
  datatype Turn = Turn(stages: seq<Stage>, end: Field)

  /** The steps lead from u to v. */
  ghost predicate IsRun(dim: Dim, m: Mesh, box: Box, u: Field, turns: seq<Turn>, v: Field)
    requires m.Valid()
    decreases |turns|
  {
    if turns == [] then v == u
    else IsStep(dim, m, box, u, u, turns[0].stages, turns[0].end) && IsRun(dim, m, box, turns[0].end, turns[1..], v)
  }

  lemma {:induction false} StepKeepsDivB(dim: Dim, m: Mesh, box: Box, base: Field, u: Field, stages: seq<Stage>, v: Field,
                                         k: int, j: int, i: int)
    requires m.Valid() && IsStep(dim, m, box, base, u, stages, v) && box.HasNode(dim, k, j, i)
    requires Divergence(dim, m, u, k, j, i) == Divergence(dim, m, base, k, j, i)
    ensures Divergence(dim, m, v, k, j, i) == Divergence(dim, m, base, k, j, i)
    decreases |stages|
  {
    hide Divergence, Advances;
    if stages != [] {
      var s := stages[0];
      StageKeepsDivB(dim, m, box, base, u, s, k, j, i);
      Average(s.beta, Divergence(dim, m, base, k, j, i));
      StepKeepsDivB(dim, m, box, base, s.after, stages[1..], v, k, j, i);
    }
  }

  lemma Average(beta: real, x: real)
    ensures Comb(beta, x, 1.0 - beta, x) == x
  {
  }

  /** Any number of steps, of any number of stages, with any weights, time steps and incoming fluxes,
      and any refilling of the ghost cells: the divergence at every interior node never changes. */
  lemma {:induction false} RunKeepsDivB(dim: Dim, m: Mesh, box: Box, u: Field, turns: seq<Turn>, v: Field,
                                        k: int, j: int, i: int)
    requires m.Valid() && IsRun(dim, m, box, u, turns, v) && box.HasNode(dim, k, j, i)
    ensures Divergence(dim, m, v, k, j, i) == Divergence(dim, m, u, k, j, i)
    decreases |turns|
  {
    hide Divergence, IsStep;
    if turns != [] {
      StepKeepsDivB(dim, m, box, u, u, turns[0].stages, turns[0].end, k, j, i);
      RunKeepsDivB(dim, m, box, turns[0].end, turns[1..], v, k, j, i);
    }
  }

  // ---------------------------------------------------------------------------------------------
  // The loops themselves, over arrays with ghost zones.

  /** a holds the field f on the whole array. */
  ghost predicate Holds(a: array3<Vec>, f: Field)
    reads a
  {
    forall k, j, i :: 0 <= k < a.Length0 && 0 <= j < a.Length1 && 0 <= i < a.Length2 ==> a[k, j, i] == f(k, j, i)
  }

  /** The interior leaves at least one ghost cell below and two above in every used direction. */
  predicate Fits(dim: Dim, b: Box, n0: int, n1: int, n2: int) {
    && 1 <= b.jLo <= b.jHi < n1 - 2 && 1 <= b.iLo <= b.iHi < n2 - 2
    && (if dim.Two? then 0 <= b.kLo <= b.kHi < n0 else 1 <= b.kLo <= b.kHi < n0 - 2)
  }

  predicate SameShape(a: array3<Vec>, b: array3<Vec>) {
    a.Length0 == b.Length0 && a.Length1 == b.Length1 && a.Length2 == b.Length2
  }

  /** The emf at one corner, from the flux arrays. */
  function EmfCell(x1: array3<Vec>, x2: array3<Vec>, x3: array3<Vec>, k: int, j: int, i: int): Vec
    requires SameShape(x1, x2) && SameShape(x1, x3)
    requires 1 <= k < x1.Length0 && 1 <= j < x1.Length1 && 1 <= i < x1.Length2
    reads x1, x2, x3
  {
    Vec(0.25 * (x2[k, j, i].c2 + x2[k - 1, j, i].c2 - x3[k, j, i].c1 - x3[k, j - 1, i].c1),
        -0.25 * (x1[k, j, i].c2 + x1[k - 1, j, i].c2 - x3[k, j, i].c0 - x3[k, j, i - 1].c0),
        0.25 * (x1[k, j, i].c1 + x1[k, j - 1, i].c1 - x2[k, j, i].c0 - x2[k, j, i - 1].c0))
  }

  lemma EmfCellIs(x1: array3<Vec>, x2: array3<Vec>, x3: array3<Vec>, f: Fluxes, k: int, j: int, i: int)
    requires SameShape(x1, x2) && SameShape(x1, x3)
    requires 1 <= k < x1.Length0 && 1 <= j < x1.Length1 && 1 <= i < x1.Length2
    requires Holds(x1, f.x1) && Holds(x2, f.x2) && Holds(x3, f.x3)
    ensures EmfCell(x1, x2, x3, k, j, i) == EmfOf(f)(k, j, i)
  {
  }

  /** The constrained fluxes through the three low faces of one cell. */
  function CtCell1(emf: array3<Vec>, k: int, j: int, i: int): Vec
    requires 0 <= k < emf.Length0 - 1 && 0 <= j < emf.Length1 - 1 && 0 <= i < emf.Length2
    reads emf
  {
    Vec(0.0, 0.5 * (emf[k, j, i].c2 + emf[k, j + 1, i].c2), -0.5 * (emf[k, j, i].c1 + emf[k + 1, j, i].c1))
  }

  function CtCell2(emf: array3<Vec>, k: int, j: int, i: int): Vec
    requires 0 <= k < emf.Length0 - 1 && 0 <= j < emf.Length1 && 0 <= i < emf.Length2 - 1
    reads emf
  {
    Vec(-0.5 * (emf[k, j, i].c2 + emf[k, j, i + 1].c2), 0.0, 0.5 * (emf[k, j, i].c0 + emf[k + 1, j, i].c0))
  }

  function CtCell3(emf: array3<Vec>, k: int, j: int, i: int): Vec
    requires 0 <= k < emf.Length0 && 0 <= j < emf.Length1 - 1 && 0 <= i < emf.Length2 - 1
    reads emf
  {
    Vec(0.5 * (emf[k, j, i].c1 + emf[k, j, i + 1].c1), -0.5 * (emf[k, j, i].c0 + emf[k, j + 1, i].c0), 0.0)
  }

  /** The first pass wrote e at every corner of the interior cells. */
  ghost predicate Corners(dim: Dim, b: Box, emf: array3<Vec>, e: Field)
    requires Fits(dim, b, emf.Length0, emf.Length1, emf.Length2)
    reads emf
  {
    var kTop := if dim.Three? then b.kHi + 1 else b.kHi;
    forall k, j, i :: b.kLo <= k <= kTop && b.jLo <= j <= b.jHi + 1 && b.iLo <= i <= b.iHi + 1 ==>
      emf[k, j, i] == e(k, j, i)
  }

  lemma CtCellsAre(b: Box, emf: array3<Vec>, e: Field, k: int, j: int, i: int)
    requires Fits(Three, b, emf.Length0, emf.Length1, emf.Length2) && Corners(Three, b, emf, e)
    requires b.kLo <= k <= b.kHi + 1 && b.jLo <= j <= b.jHi + 1 && b.iLo <= i <= b.iHi + 1
    ensures k <= b.kHi && j <= b.jHi ==> CtCell1(emf, k, j, i) == Constrained(e).x1(k, j, i)
    ensures k <= b.kHi && i <= b.iHi ==> CtCell2(emf, k, j, i) == Constrained(e).x2(k, j, i)
    ensures j <= b.jHi && i <= b.iHi ==> CtCell3(emf, k, j, i) == Constrained(e).x3(k, j, i)
  {
  }

  /** FluxCT in three dimensions. The two passes run over the same index range, so the second one also
      reads emf entries the first never wrote; no face of an interior cell depends on them. */
  method FluxCT3D(b: Box, x1: array3<Vec>, x2: array3<Vec>, x3: array3<Vec>, emf: array3<Vec>, ghost f: Fluxes)
    requires x1 != x2 && x1 != x3 && x2 != x3 && emf != x1 && emf != x2 && emf != x3
    requires SameShape(x1, x2) && SameShape(x1, x3) && SameShape(x1, emf)
    requires Fits(Three, b, x1.Length0, x1.Length1, x1.Length2)
    requires Holds(x1, f.x1) && Holds(x2, f.x2) && Holds(x3, f.x3)
    modifies x1, x2, x3, emf
    ensures forall k, j, i :: b.kLo <= k <= b.kHi && b.jLo <= j <= b.jHi && b.iLo <= i <= b.iHi + 1 ==>
              x1[k, j, i] == Constrained(EmfOf(f)).x1(k, j, i)
    ensures forall k, j, i :: b.kLo <= k <= b.kHi && b.jLo <= j <= b.jHi + 1 && b.iLo <= i <= b.iHi ==>
              x2[k, j, i] == Constrained(EmfOf(f)).x2(k, j, i)
    ensures forall k, j, i :: b.kLo <= k <= b.kHi + 1 && b.jLo <= j <= b.jHi && b.iLo <= i <= b.iHi ==>
              x3[k, j, i] == Constrained(EmfOf(f)).x3(k, j, i)
  {
    hide EmfCell, CtCell1, CtCell2, CtCell3, EmfOf, Constrained;
    forall k, j, i | b.kLo <= k <= b.kHi + 1 && b.jLo <= j <= b.jHi + 1 && b.iLo <= i <= b.iHi + 1
      ensures EmfCell(x1, x2, x3, k, j, i) == EmfOf(f)(k, j, i)
    {
      EmfCellIs(x1, x2, x3, f, k, j, i);
    }
    forall k, j, i | b.kLo <= k <= b.kHi + 1 && b.jLo <= j <= b.jHi + 1 && b.iLo <= i <= b.iHi + 1 {
      emf[k, j, i] := EmfCell(x1, x2, x3, k, j, i);
    }
    assert Corners(Three, b, emf, EmfOf(f));
    forall k, j, i | b.kLo <= k <= b.kHi + 1 && b.jLo <= j <= b.jHi + 1 && b.iLo <= i <= b.iHi + 1 {
      x1[k, j, i] := CtCell1(emf, k, j, i);
    }
    forall k, j, i | b.kLo <= k <= b.kHi + 1 && b.jLo <= j <= b.jHi + 1 && b.iLo <= i <= b.iHi + 1 {
      x2[k, j, i] := CtCell2(emf, k, j, i);
    }
    forall k, j, i | b.kLo <= k <= b.kHi + 1 && b.jLo <= j <= b.jHi + 1 && b.iLo <= i <= b.iHi + 1 {
      x3[k, j, i] := CtCell3(emf, k, j, i);
    }
    forall k, j, i | b.kLo <= k <= b.kHi + 1 && b.jLo <= j <= b.jHi + 1 && b.iLo <= i <= b.iHi + 1
      ensures k <= b.kHi && j <= b.jHi ==> CtCell1(emf, k, j, i) == Constrained(EmfOf(f)).x1(k, j, i)
      ensures k <= b.kHi && i <= b.iHi ==> CtCell2(emf, k, j, i) == Constrained(EmfOf(f)).x2(k, j, i)
      ensures j <= b.jHi && i <= b.iHi ==> CtCell3(emf, k, j, i) == Constrained(EmfOf(f)).x3(k, j, i)
    {
      CtCellsAre(b, emf, EmfOf(f), k, j, i);
    }
  }

  function EmfCell2(x1: array3<Vec>, x2: array3<Vec>, k: int, j: int, i: int): real
    requires SameShape(x1, x2) && 0 <= k < x1.Length0 && 1 <= j < x1.Length1 && 1 <= i < x1.Length2
    reads x1, x2
  {
    0.25 * (x1[k, j, i].c1 + x1[k, j - 1, i].c1 - x2[k, j, i].c0 - x2[k, j, i - 1].c0)
  }

  lemma EmfCell2Is(x1: array3<Vec>, x2: array3<Vec>, f: Fluxes, k: int, j: int, i: int)
    requires SameShape(x1, x2) && 0 <= k < x1.Length0 && 1 <= j < x1.Length1 && 1 <= i < x1.Length2
    requires Holds(x1, f.x1) && Holds(x2, f.x2)
    ensures EmfCell2(x1, x2, k, j, i) == EmfOf(f)(k, j, i).c2
  {
  }

  /** The field with its normal and transverse flux replaced; component 2 stays. */
  function CtPlane1(old1: Vec, emf: array3<real>, k: int, j: int, i: int): Vec
    requires 0 <= k < emf.Length0 && 0 <= j < emf.Length1 - 1 && 0 <= i < emf.Length2
    reads emf
  {
    Vec(0.0, 0.5 * (emf[k, j, i] + emf[k, j + 1, i]), old1.c2)
  }

  function CtPlane2(old2: Vec, emf: array3<real>, k: int, j: int, i: int): Vec
    requires 0 <= k < emf.Length0 && 0 <= j < emf.Length1 && 0 <= i < emf.Length2 - 1
    reads emf
  {
    Vec(-0.5 * (emf[k, j, i] + emf[k, j, i + 1]), 0.0, old2.c2)
  }

  ghost predicate Corners2(b: Box, emf: array3<real>, e: Field)
    requires Fits(Two, b, emf.Length0, emf.Length1, emf.Length2)
    reads emf
  {
    forall k, j, i :: b.kLo <= k <= b.kHi && b.jLo <= j <= b.jHi + 1 && b.iLo <= i <= b.iHi + 1 ==>
      emf[k, j, i] == e(k, j, i).c2
  }

  lemma CtPlanesAre(b: Box, emf: array3<real>, f: Fluxes, e: Field, k: int, j: int, i: int)
    requires Fits(Two, b, emf.Length0, emf.Length1, emf.Length2) && Corners2(b, emf, e)
    requires b.kLo <= k <= b.kHi && b.jLo <= j <= b.jHi + 1 && b.iLo <= i <= b.iHi + 1
    ensures j <= b.jHi ==> CtPlane1(f.x1(k, j, i), emf, k, j, i) == Constrained2(e, f).x1(k, j, i)
    ensures i <= b.iHi ==> CtPlane2(f.x2(k, j, i), emf, k, j, i) == Constrained2(e, f).x2(k, j, i)
  {
    hide CtFlat1, CtFlat2, CtPlane1, CtPlane2;
    if j <= b.jHi { CtPlane1Is(b, emf, f.x1, e, k, j, i); }
    if i <= b.iHi { CtPlane2Is(b, emf, f.x2, e, k, j, i); }
  }

  lemma CtPlane1Is(b: Box, emf: array3<real>, f: Field, e: Field, k: int, j: int, i: int)
    requires Fits(Two, b, emf.Length0, emf.Length1, emf.Length2) && Corners2(b, emf, e)
    requires b.kLo <= k <= b.kHi && b.jLo <= j <= b.jHi && b.iLo <= i <= b.iHi + 1
    ensures CtPlane1(f(k, j, i), emf, k, j, i) == CtFlat1(e, f, k, j, i)
  {
  }

  lemma CtPlane2Is(b: Box, emf: array3<real>, f: Field, e: Field, k: int, j: int, i: int)
    requires Fits(Two, b, emf.Length0, emf.Length1, emf.Length2) && Corners2(b, emf, e)
    requires b.kLo <= k <= b.kHi && b.jLo <= j <= b.jHi + 1 && b.iLo <= i <= b.iHi
    ensures CtPlane2(f(k, j, i), emf, k, j, i) == CtFlat2(e, f, k, j, i)
  {
  }

  /** FluxCT in two dimensions: one emf, and component 2 of the fluxes is not touched. */
  method FluxCT2D(b: Box, x1: array3<Vec>, x2: array3<Vec>, emf: array3<real>, ghost f: Fluxes)
    requires x1 != x2 && SameShape(x1, x2)
    requires emf.Length0 == x1.Length0 && emf.Length1 == x1.Length1 && emf.Length2 == x1.Length2
    requires Fits(Two, b, x1.Length0, x1.Length1, x1.Length2)
    requires Holds(x1, f.x1) && Holds(x2, f.x2)
    modifies x1, x2, emf
    ensures forall k, j, i :: b.kLo <= k <= b.kHi && b.jLo <= j <= b.jHi && b.iLo <= i <= b.iHi + 1 ==>
              x1[k, j, i] == Constrained2(EmfOf(f), f).x1(k, j, i)
    ensures forall k, j, i :: b.kLo <= k <= b.kHi && b.jLo <= j <= b.jHi + 1 && b.iLo <= i <= b.iHi ==>
              x2[k, j, i] == Constrained2(EmfOf(f), f).x2(k, j, i)
  {
    hide EmfCell2, CtPlane1, CtPlane2, EmfOf, Constrained2;
    forall k, j, i | b.kLo <= k <= b.kHi && b.jLo <= j <= b.jHi + 1 && b.iLo <= i <= b.iHi + 1
      ensures EmfCell2(x1, x2, k, j, i) == EmfOf(f)(k, j, i).c2
    {
      EmfCell2Is(x1, x2, f, k, j, i);
    }
    forall k, j, i | b.kLo <= k <= b.kHi && b.jLo <= j <= b.jHi + 1 && b.iLo <= i <= b.iHi + 1 {
      emf[k, j, i] := EmfCell2(x1, x2, k, j, i);
    }
    assert Corners2(b, emf, EmfOf(f));
    forall k, j, i | b.kLo <= k <= b.kHi && b.jLo <= j <= b.jHi + 1 && b.iLo <= i <= b.iHi + 1 {
      x1[k, j, i] := CtPlane1(x1[k, j, i], emf, k, j, i);
    }
    forall k, j, i | b.kLo <= k <= b.kHi && b.jLo <= j <= b.jHi + 1 && b.iLo <= i <= b.iHi + 1 {
      x2[k, j, i] := CtPlane2(x2[k, j, i], emf, k, j, i);
    }
    forall k, j, i | b.kLo <= k <= b.kHi && b.jLo <= j <= b.jHi + 1 && b.iLo <= i <= b.iHi + 1
      ensures j <= b.jHi ==> CtPlane1(f.x1(k, j, i), emf, k, j, i) == Constrained2(EmfOf(f), f).x1(k, j, i)
      ensures i <= b.iHi ==> CtPlane2(f.x2(k, j, i), emf, k, j, i) == Constrained2(EmfOf(f), f).x2(k, j, i)
    {
      CtPlanesAre(b, emf, f, EmfOf(f), k, j, i);
    }
  }

  /** The divergence of one node as CalculateDivB evaluates it on the array. */
  function DivBCell(dim: Dim, m: Mesh, b: array3<Vec>, k: int, j: int, i: int): real
    requires m.Valid() && (if dim.Two? then 0 else 1) <= k < b.Length0 && 1 <= j < b.Length1 && 1 <= i < b.Length2
    reads b
  {
    if dim.Two? then
      0.5 * (b[k, j, i].c0 + b[k, j - 1, i].c0 - b[k, j, i - 1].c0 - b[k, j - 1, i - 1].c0) / m.dx1
      + 0.5 * (b[k, j, i].c1 + b[k, j, i - 1].c1 - b[k, j - 1, i].c1 - b[k, j - 1, i - 1].c1) / m.dx2
    else
      0.25 * (b[k, j, i].c0 + b[k, j - 1, i].c0 + b[k - 1, j, i].c0 + b[k - 1, j - 1, i].c0
              - b[k, j, i - 1].c0 - b[k, j - 1, i - 1].c0 - b[k - 1, j, i - 1].c0 - b[k - 1, j - 1, i - 1].c0) / m.dx1
      + 0.25 * (b[k, j, i].c1 + b[k, j, i - 1].c1 + b[k - 1, j, i].c1 + b[k - 1, j, i - 1].c1
                - b[k, j - 1, i].c1 - b[k, j - 1, i - 1].c1 - b[k - 1, j - 1, i].c1 - b[k - 1, j - 1, i - 1].c1) / m.dx2
      + 0.25 * (b[k, j, i].c2 + b[k, j, i - 1].c2 + b[k, j - 1, i].c2 + b[k, j - 1, i - 1].c2
                - b[k - 1, j, i].c2 - b[k - 1, j, i - 1].c2 - b[k - 1, j - 1, i].c2 - b[k - 1, j - 1, i - 1].c2) / m.dx3
  }

  lemma At(b: array3<Vec>, f: Field, k: int, j: int, i: int)
    requires Holds(b, f) && 0 <= k < b.Length0 && 0 <= j < b.Length1 && 0 <= i < b.Length2
    ensures b[k, j, i] == f(k, j, i)
    ensures b[k, j, i].c0 == C0(f)(k, j, i) && b[k, j, i].c1 == C1(f)(k, j, i) && b[k, j, i].c2 == C2(f)(k, j, i)
  {
  }

  lemma DivBCellIs(dim: Dim, m: Mesh, b: array3<Vec>, f: Field, k: int, j: int, i: int)
    requires m.Valid() && (if dim.Two? then 0 else 1) <= k < b.Length0 && 1 <= j < b.Length1 && 1 <= i < b.Length2
    requires Holds(b, f)
    ensures DivBCell(dim, m, b, k, j, i) == Divergence(dim, m, f, k, j, i)
  {
    hide C0, C1, C2, Holds;
    At(b, f, k, j, i);
    At(b, f, k, j, i - 1);
    At(b, f, k, j - 1, i);
    At(b, f, k, j - 1, i - 1);
    if dim.Three? {
      At(b, f, k - 1, j, i);
      At(b, f, k - 1, j, i - 1);
      At(b, f, k - 1, j - 1, i);
      At(b, f, k - 1, j - 1, i - 1);
    }
  }

  /** CalculateDivB: the diagnostic is the node divergence, for the low corner of every interior cell. */
  method CalculateDivB(dim: Dim, m: Mesh, b: Box, field: array3<Vec>, divb: array3<real>, ghost f: Field)
    requires m.Valid() && Fits(dim, b, field.Length0, field.Length1, field.Length2)
    requires divb.Length0 == field.Length0 && divb.Length1 == field.Length1 && divb.Length2 == field.Length2
    requires Holds(field, f)
    modifies divb
    ensures forall k, j, i :: b.Has(k, j, i) ==> divb[k, j, i] == Divergence(dim, m, f, k, j, i)
  {
    hide DivBCell, Divergence;
    forall k, j, i | b.Has(k, j, i) ensures DivBCell(dim, m, field, k, j, i) == Divergence(dim, m, f, k, j, i) {
      DivBCellIs(dim, m, field, f, k, j, i);
    }
    forall k, j, i | b.kLo <= k <= b.kHi && b.jLo <= j <= b.jHi && b.iLo <= i <= b.iHi {
      divb[k, j, i] := DivBCell(dim, m, field, k, j, i);
    }
  }
}
