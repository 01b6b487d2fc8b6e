/** The monopole spacetime solver: shooting for the hypersurface, then one linear solve for the lapse.
    The radial grid starts at r = 0, so point i sits at r = i * dr. */
module Monopole {
  import opened Reals
  import opened Tridiagonal

  const FOUR: real := 4.0

  /** a (4 + a^2 (-4 + r^2 X)). */
  function Growth(a: real, r: real, X: real): real { a * (FOUR + a * a * (-FOUR + r * r * X)) }

  function GetARHS(pi: real, a: real, K: real, r: real, rho: real): real {
    if r > 0.0 then Ratio(Growth(a, r, 3.0 * K * K + 32.0 * pi * rho), 8.0 * r) else 0.0
  }

  function GetKRHS(pi: real, a: real, K: real, r: real, j: real): real {
    if r > 0.0 then 8.0 * pi * a * a * j - Ratio(3.0 * K, r) else 0.0
  }

  // ---------------------------------------------------------------------------------------------
  // The hypersurface.

  /** Matter on the face-centred grid. */
  datatype Matter = Matter(rho: seq<real>, j: seq<real>, trcS: seq<real>) {
    predicate Shaped(n: nat) { |rho| == |j| == |trcS| == n }

    predicate Vacuum() {
      (forall x <- rho :: x == 0.0) && (forall x <- j :: x == 0.0) && (forall x <- trcS :: x == 0.0)
    }
  }

  datatype Slice = Slice(a: real, K: real)

  function HypersurfaceRHS(pi: real, r: real, s: Slice, rho: real, j: real): Slice {
    Slice(GetARHS(pi, s.a, s.K, r, rho), GetKRHS(pi, s.a, s.K, r, j))
  }

  function Advance(s: Slice, h: real, rhs: Slice): Slice {
    Slice(s.a + Prod(h, rhs.a), s.K + Prod(h, rhs.K))
  }

  /** One midpoint step from point i, both stages evaluated at the radius of point i. */
  function Step(pi: real, dr: real, m: Matter, s: Slice, i: nat): Slice
    requires |m.rho| == |m.j| && i + 1 < |m.rho|
  {
    var r := i as real * dr;
    var k1 := Advance(s, 0.5 * dr, HypersurfaceRHS(pi, r, s, m.rho[i], m.j[i]));
    Advance(s, dr, HypersurfaceRHS(pi, r, k1, 0.5 * (m.rho[i] + m.rho[i + 1]), 0.5 * (m.j[i] + m.j[i + 1])))
  }

  function Hypersurface(pi: real, dr: real, m: Matter, i: nat): Slice
    requires |m.rho| == |m.j| && i < |m.rho|
  {
    if i == 0 then Slice(1.0, 0.0) else Step(pi, dr, m, Hypersurface(pi, dr, m, i - 1), i - 1)
  }

  method IntegrateHypersurface(pi: real, dr: real, m: Matter, a: array<real>, K: array<real>)
    requires a != K && a.Length == K.Length >= 1 && m.Shaped(a.Length)
    modifies a, K
    ensures forall i :: 0 <= i < a.Length ==> Slice(a[i], K[i]) == Hypersurface(pi, dr, m, i)
  {
    hide HypersurfaceRHS, Advance;
    var n := a.Length;
    a[0] := 1.0;
    K[0] := 0.0;
    for i := 0 to n - 1
      invariant forall k :: 0 <= k <= i ==> Slice(a[k], K[k]) == Hypersurface(pi, dr, m, k)
    {
      var r := i as real * dr;
      var state := Slice(a[i], K[i]);
      var rhs := HypersurfaceRHS(pi, r, state, m.rho[i], m.j[i]);
      var k1 := Advance(state, 0.5 * dr, rhs);
      var rho, j := 0.5 * (m.rho[i] + m.rho[i + 1]), 0.5 * (m.j[i] + m.j[i + 1]);
      var next := Advance(state, dr, HypersurfaceRHS(pi, r, k1, rho, j));
      a[i + 1] := next.a;
      K[i + 1] := next.K;
    }
  }

  /** The momentum constraint: r K' + 3 K = 8 pi a^2 j r away from the centre, and K' = 0 at it. */
  lemma MomentumConstraint(pi: real, a: real, K: real, r: real, j: real)
    ensures r > 0.0 ==> Prod(r, GetKRHS(pi, a, K, r, j)) + 3.0 * K == 8.0 * pi * a * a * j * r
    ensures r == 0.0 ==> GetKRHS(pi, a, K, r, j) == 0.0
  {
    if r > 0.0 {
      KRHSIs(pi, a, K, r, j);
      hide GetKRHS;
      DivMul(3.0 * K, r);
      Damped(r, 8.0 * pi * a * a * j, 3.0 * K / r, 3.0 * K);
    }
  }

  lemma KRHSIs(pi: real, a: real, K: real, r: real, j: real)
    requires r > 0.0
    ensures GetKRHS(pi, a, K, r, j) == 8.0 * pi * a * a * j - 3.0 * K / r
  {
  }

  lemma Damped(r: real, x: real, q: real, K: real)
    requires q * r == K
    ensures Prod(r, x - q) + K == x * r
  {
  }

  /** The Hamiltonian constraint: 8 r a' = 4 (a - a^3) + a^3 r^2 (3 K^2 + 32 pi rho), and a' = 0 at the
      centre. */
  lemma HamiltonianConstraint(pi: real, a: real, K: real, r: real, rho: real)
    ensures r > 0.0 ==> 8.0 * Prod(r, GetARHS(pi, a, K, r, rho))
                        == 4.0 * (a - a * a * a) + a * a * a * (r * r) * (3.0 * (K * K) + 32.0 * (pi * rho))
    ensures r == 0.0 ==> GetARHS(pi, a, K, r, rho) == 0.0
  {
    hide GetARHS, Growth;
    if r > 0.0 {
      var X := 3.0 * K * K + 32.0 * pi * rho;
      assert X == 3.0 * (K * K) + 32.0 * (pi * rho);
      ARHSIs(pi, a, K, r, rho, X);
      HamiltonianAlgebra(a, r, X, GetARHS(pi, a, K, r, rho));
    } else if r == 0.0 {
      NoSlope(pi, a, K, r, rho);
    }
  }

  lemma NoSlope(pi: real, a: real, K: real, r: real, rho: real)
    requires r == 0.0
    ensures GetARHS(pi, a, K, r, rho) == 0.0
  {
  }

  lemma HamiltonianAlgebra(a: real, r: real, X: real, y: real)
    requires r > 0.0 && y == Growth(a, r, X) / (8.0 * r)
    ensures 8.0 * Prod(r, y) == 4.0 * (a - a * a * a) + a * a * a * (r * r) * X
  {
    var d := 8.0 * r;
    DivMul(Growth(a, r, X), d);
    OuterExpand(a, r, X);
    hide Growth;
    assert y * d == 8.0 * (r * y);
    assert a * a * a * r * X * r == a * a * a * (r * r) * X;
  }

  /** A and B are the slopes of a and K that the two constraints ask for at radius r. */
  ghost predicate Constrains(pi: real, a: real, K: real, r: real, rho: real, j: real, A: real, B: real) {
    && 8.0 * Prod(r, A) == 4.0 * (a - a * a * a) + a * a * a * (r * r) * (3.0 * (K * K) + 32.0 * (pi * rho))
    && Prod(r, B) + 3.0 * K == 8.0 * pi * a * a * j * r
  }

  lemma OnlySlopes(pi: real, a: real, K: real, r: real, rho: real, j: real, A: real, B: real)
    requires r > 0.0
    ensures Constrains(pi, a, K, r, rho, j, A, B) <==> A == GetARHS(pi, a, K, r, rho) && B == GetKRHS(pi, a, K, r, j)
  {
    hide GetARHS, GetKRHS, Prod;
    HamiltonianConstraint(pi, a, K, r, rho);
    MomentumConstraint(pi, a, K, r, j);
    SameFactor(r, A, GetARHS(pi, a, K, r, rho));
    SameFactor(r, B, GetKRHS(pi, a, K, r, j));
  }

  /** One midpoint step in those terms: slopes (A, B) at point i, a half step to (h, k), slopes (A', B')
      there, with the mean of the matter at both points but at the same radius, and a full step with those. */
  lemma MidpointStep(pi: real, dr: real, m: Matter, s: Slice, i: nat, A: real, B: real, h: real, k: real, A': real, B': real)
    requires |m.rho| == |m.j| && i + 1 < |m.rho| && i > 0 && dr > 0.0
    requires Constrains(pi, s.a, s.K, i as real * dr, m.rho[i], m.j[i], A, B)
    requires h == s.a + 0.5 * dr * A && k == s.K + 0.5 * dr * B
    requires Constrains(pi, h, k, i as real * dr, 0.5 * (m.rho[i] + m.rho[i + 1]), 0.5 * (m.j[i] + m.j[i + 1]), A', B')
    ensures Step(pi, dr, m, s, i) == Slice(s.a + dr * A', s.K + dr * B')
  {
    hide *;
    var r := i as real * dr;
    MulPos(i as real, dr);
    OnlySlopes(pi, s.a, s.K, r, m.rho[i], m.j[i], A, B);
    OnlySlopes(pi, h, k, r, 0.5 * (m.rho[i] + m.rho[i + 1]), 0.5 * (m.j[i] + m.j[i + 1]), A', B');
    AdvanceIs(s, 0.5 * dr, A, B);
    AdvanceIs(s, dr, A', B');
    StepIs(pi, dr, m, s, i, r, A, B, Slice(h, k), A', B');
  }

  lemma AdvanceIs(s: Slice, h: real, A: real, B: real)
    ensures Advance(s, h, Slice(A, B)) == Slice(s.a + h * A, s.K + h * B)
  {
    assert Advance(s, h, Slice(A, B)) == Slice(s.a + Prod(h, A), s.K + Prod(h, B)) by { hide Prod; }
  }

  lemma StepIs(pi: real, dr: real, m: Matter, s: Slice, i: nat, r: real, A: real, B: real, k1: Slice, A': real, B': real)
    requires |m.rho| == |m.j| && i + 1 < |m.rho| && r == i as real * dr
    requires A == GetARHS(pi, s.a, s.K, r, m.rho[i]) && B == GetKRHS(pi, s.a, s.K, r, m.j[i])
    requires k1 == Advance(s, 0.5 * dr, Slice(A, B))
    requires A' == GetARHS(pi, k1.a, k1.K, r, 0.5 * (m.rho[i] + m.rho[i + 1]))
    requires B' == GetKRHS(pi, k1.a, k1.K, r, 0.5 * (m.j[i] + m.j[i + 1]))
    ensures Step(pi, dr, m, s, i) == Advance(s, dr, Slice(A', B'))
  {
    hide GetARHS, GetKRHS, Advance;
  }

  lemma SameFactor(r: real, x: real, y: real)
    requires r > 0.0
    ensures Prod(r, x) == Prod(r, y) ==> x == y
  {
    if Prod(r, x) == Prod(r, y) { CancelFactor(r, x, y); }
  }

  /** At the centre the step changes nothing. */
  lemma CentralStep(pi: real, dr: real, m: Matter, s: Slice)
    requires |m.rho| == |m.j| >= 2
    ensures Step(pi, dr, m, s, 0) == s
  {
    assert 0 as real * dr == 0.0;
  }

  /** In flat space with a momentum density the curvature grows and is damped: from a = 1 and K over vacuum
      density, with j on both sides, one step at r = i dr gives this. */
  lemma FlatStep(pi: real, dr: real, m: Matter, K: real, i: nat)
    requires |m.rho| == |m.j| && i + 1 < |m.rho| && i > 0 && dr > 0.0 && m.rho[i] == 0.0
    ensures var n, j0, j1 := i as real, m.j[i], m.j[i + 1];
            var h := 1.0 + Prod(Sq(dr), Sq(K)) * (3.0 * n / 16.0);
            n * Step(pi, dr, m, Slice(1.0, K), i).K
            == n * K + 4.0 * pi * dr * n * (h * h) * (j0 + j1) - 3.0 * (K + 4.0 * pi * dr * j0 - 1.5 * (K / n))
  {
    hide *;
    var n, r, j0, j := i as real, i as real * dr, m.j[i], 0.5 * (m.j[i] + m.j[i + 1]);
    MulPos(n, dr);
    var A, B := GetARHS(pi, 1.0, K, r, 0.0), GetKRHS(pi, 1.0, K, r, j0);
    var h, k := 1.0 + 0.5 * dr * A, K + 0.5 * dr * B;
    HamiltonianConstraint(pi, 1.0, K, r, 0.0);
    MomentumConstraint(pi, 1.0, K, r, j0);
    MomentumConstraint(pi, h, k, r, j);
    FlatHalf(pi, n, dr, K, r, j0, A, B, h, k);
    StepCurvature(pi, dr, m, K, i, h, k, j, r, A, B, j0);
    FlatFull(pi, n, dr, K, r, j, h, k, GetKRHS(pi, h, k, r, j));
  }

  lemma StepCurvature(pi: real, dr: real, m: Matter, K: real, i: nat, h: real, k: real, j: real, r: real, A: real, B: real,
                      j0: real)
    requires |m.rho| == |m.j| && i + 1 < |m.rho| && m.rho[i] == 0.0 && r == i as real * dr && j0 == m.j[i]
    requires A == GetARHS(pi, 1.0, K, r, 0.0) && B == GetKRHS(pi, 1.0, K, r, j0)
    requires h == 1.0 + 0.5 * dr * A && k == K + 0.5 * dr * B && j == 0.5 * (m.j[i] + m.j[i + 1])
    ensures Step(pi, dr, m, Slice(1.0, K), i).K == K + dr * GetKRHS(pi, h, k, r, j)
  {
    hide *;
    var A', B' := GetARHS(pi, h, k, r, 0.5 * (m.rho[i] + m.rho[i + 1])), GetKRHS(pi, h, k, r, j);
    AdvanceIs(Slice(1.0, K), 0.5 * dr, A, B);
    AdvanceIs(Slice(1.0, K), dr, A', B');
    StepIs(pi, dr, m, Slice(1.0, K), i, r, A, B, Slice(h, k), A', B');
  }

  lemma FlatHalf(pi: real, n: real, dr: real, K: real, r: real, j0: real, A: real, B: real, h: real, k: real)
    requires n > 0.0 && dr > 0.0 && r == n * dr && h == 1.0 + 0.5 * dr * A && k == K + 0.5 * dr * B
    requires 8.0 * Prod(r, A) == 4.0 * (1.0 - 1.0 * 1.0 * 1.0) + 1.0 * 1.0 * 1.0 * (r * r) * (3.0 * (K * K) + 32.0 * (pi * 0.0))
    requires Prod(r, B) + 3.0 * K == 8.0 * pi * 1.0 * 1.0 * j0 * r
    ensures h == 1.0 + Prod(Sq(dr), Sq(K)) * (3.0 * n / 16.0)
    ensures k == K + 4.0 * pi * dr * j0 - 1.5 * (K / n)
  {
    MulPos(n, dr);
    HalfA(n, dr, K, r, A);
    HalfB(pi, n, dr, K, r, j0, B);
  }

  lemma HalfA(n: real, dr: real, K: real, r: real, A: real)
    requires n > 0.0 && dr > 0.0 && r == n * dr && r > 0.0 && 8.0 * Prod(r, A) == r * r * (3.0 * (K * K))
    ensures 0.5 * dr * A == Prod(Sq(dr), Sq(K)) * (3.0 * n / 16.0)
  {
    var x := 3.0 * (K * K);
    var a, b := 8.0 * A, r * x;
    assert r * a == r * b;
    CancelFactor(r, a, b);
    HalfProduct(n, dr, K, A, r, x);
  }

  lemma HalfProduct(n: real, dr: real, K: real, A: real, r: real, x: real)
    requires 8.0 * A == r * x && r == n * dr && x == 3.0 * (K * K)
    ensures 0.5 * dr * A == Prod(Sq(dr), Sq(K)) * (3.0 * n / 16.0)
  {
    var t, u := dr * dr, K * K;
    assert 8.0 * (dr * A) == dr * (r * x);
    assert dr * (n * dr * x) == t * (n * x);
    assert t * (n * (3.0 * u)) == 3.0 * (n * (t * u));
    assert t * u * (3.0 * n / 16.0) == 3.0 / 16.0 * (n * (t * u));
  }

  lemma HalfB(pi: real, n: real, dr: real, K: real, r: real, j0: real, B: real)
    requires n > 0.0 && dr > 0.0 && r == n * dr && Prod(r, B) + 3.0 * K == 8.0 * pi * 1.0 * 1.0 * j0 * r
    ensures 0.5 * dr * B == 4.0 * pi * dr * j0 - 1.5 * (K / n)
  {
    var q, y := K / n, 8.0 * pi * j0;
    DivMul(K, n);
    var a, b := dr * B, dr * y - 3.0 * q;
    assert n * a == r * B;
    assert n * b == y * r - 3.0 * (q * n);
    CancelFactor(n, a, b);
    assert dr * y == 8.0 * (pi * dr * j0);
  }

  lemma CancelFactor(n: real, x: real, y: real)
    requires n > 0.0 && n * x == n * y
    ensures x == y
  {
    var d := x - y;
    assert n * d == 0.0;
  }

  lemma FlatFull(pi: real, n: real, dr: real, K: real, r: real, j: real, h: real, k: real, B: real)
    requires n > 0.0 && dr > 0.0 && r == n * dr && Prod(r, B) + 3.0 * k == 8.0 * pi * h * h * j * r
    ensures n * (K + dr * B) == n * K + 4.0 * pi * dr * n * (h * h) * (2.0 * j) - 3.0 * k
  {
    assert n * (dr * B) == r * B;
    assert 8.0 * pi * h * h * j * r == 4.0 * pi * dr * n * (h * h) * (2.0 * j);
  }

  /** Without momentum the slice stays time symmetric, whatever the density. */
  lemma {:induction false} NoMomentumNoCurvature(pi: real, dr: real, m: Matter, i: nat)
    requires |m.rho| == |m.j| && i < |m.rho| && forall x <- m.j :: x == 0.0
    ensures Hypersurface(pi, dr, m, i).K == 0.0
  {
    if i > 0 {
      NoMomentumNoCurvature(pi, dr, m, i - 1);
      assert m.j[i - 1] in m.j && m.j[i] in m.j;
      hide Step;
      StillStep(pi, dr, m, Hypersurface(pi, dr, m, i - 1), i - 1);
    }
  }

  lemma StillStep(pi: real, dr: real, m: Matter, s: Slice, i: nat)
    requires |m.rho| == |m.j| && i + 1 < |m.rho| && m.j[i] == 0.0 == m.j[i + 1] && s.K == 0.0
    ensures Step(pi, dr, m, s, i).K == 0.0
    ensures m.rho[i] == 0.0 == m.rho[i + 1] && s.a == 1.0 ==> Step(pi, dr, m, s, i) == s
  {
    hide *;
    var r := i as real * dr;
    var A := GetARHS(pi, s.a, s.K, r, m.rho[i]);
    var k1 := Advance(s, 0.5 * dr, Slice(A, 0.0));
    var A' := GetARHS(pi, k1.a, k1.K, r, 0.5 * (m.rho[i] + m.rho[i + 1]));
    StillK(pi, s.a, r);
    StillAdvance(s, 0.5 * dr, A);
    StillK(pi, k1.a, r);
    StillAdvance(s, dr, A');
    StepIs(pi, dr, m, s, i, r, A, 0.0, k1, A', 0.0);
    StillA(pi, r);
  }

  lemma StillAdvance(s: Slice, h: real, A: real)
    ensures Advance(s, h, Slice(A, 0.0)).K == s.K && (A == 0.0 ==> Advance(s, h, Slice(A, 0.0)) == s)
  {
  }

  lemma StillK(pi: real, a: real, r: real)
    ensures GetKRHS(pi, a, 0.0, r, 0.0) == 0.0
  {
  }

  /** In vacuum the shooting loop returns flat space at every point. */
  lemma {:induction false} VacuumIsFlat(pi: real, dr: real, m: Matter, i: nat)
    requires m.Shaped(|m.rho|) && m.Vacuum() && i < |m.rho|
    ensures Hypersurface(pi, dr, m, i) == Slice(1.0, 0.0)
  {
    if i > 0 {
      VacuumIsFlat(pi, dr, m, i - 1);
      assert m.j[i - 1] in m.j && m.j[i] in m.j && m.rho[i - 1] in m.rho && m.rho[i] in m.rho;
      hide Step;
      StillStep(pi, dr, m, Slice(1.0, 0.0), i - 1);
    }
  }

  lemma StillA(pi: real, r: real)
    ensures GetARHS(pi, 1.0, 0.0, r, 0.0) == 0.0
  {
  }

  /** GetResidual: the slope of the exterior vacuum solution less that of the slice. */
  function OuterResidual(pi: real, s: Slice, r: real, rho: real): Slice
    requires r != 0.0
  {
    Slice((s.a - s.a * s.a * s.a) / (2.0 * r) - GetARHS(pi, s.a, s.K, r, rho), s.K)
  }

  /** The slice matches the vacuum exterior exactly when neither curvature nor matter reaches the last
      point. */
  lemma OuterMatch(pi: real, s: Slice, r: real, rho: real)
    requires r > 0.0 && s.a > 0.0
    ensures OuterResidual(pi, s, r, rho) == Slice(0.0, 0.0) <==> s.K == 0.0 && pi * rho == 0.0
  {
    var X := 3.0 * s.K * s.K + 32.0 * pi * rho;
    var res := OuterResidual(pi, s, r, rho).a;
    ARHSIs(pi, s.a, s.K, r, rho, X);
    OuterAlgebra(s.a, r, X, GetARHS(pi, s.a, s.K, r, rho), res);
    var a2 := s.a * s.a;
    SquareIsPos(s.a, a2);
    var a3 := a2 * s.a;
    MulPos(a2, s.a);
    var c := a3 * r;
    MulPos(a3, r);
    if s.K == 0.0 {
      assert X == 32.0 * (pi * rho);
      CancelPos(c, X);
      CancelPos(c, -X);
      assert c * -X == -(c * X);
    }
  }

  lemma ARHSIs(pi: real, a: real, K: real, r: real, rho: real, X: real)
    requires r > 0.0 && X == 3.0 * K * K + 32.0 * pi * rho
    ensures GetARHS(pi, a, K, r, rho) == Growth(a, r, X) / (8.0 * r)
  {
    hide Growth;
  }

  lemma OuterAlgebra(a: real, r: real, X: real, dadr: real, res: real)
    requires r > 0.0 && dadr == Growth(a, r, X) / (8.0 * r)
    requires res == (a - a * a * a) / (2.0 * r) - dadr
    ensures 8.0 * res == -(a * a * a * r * X)
  {
    var u, v := a - a * a * a, Growth(a, r, X);
    var p, q := u / (2.0 * r), v / (8.0 * r);
    DivMul(u, 2.0 * r);
    DivMul(v, 8.0 * r);
    assert 8.0 * res * r == FOUR * u - v by { assert p * (2.0 * r) == u && q * (8.0 * r) == v; }
    assert v == FOUR * a - FOUR * (a * a * a) + a * a * a * r * X * r by { OuterExpand(a, r, X); }
    var y := -(a * a * a * r * X);
    assert 8.0 * res * r == y * r;
    DivIs(y * r, r, 8.0 * res);
    DivIs(y * r, r, y);
  }

  lemma OuterExpand(a: real, r: real, X: real)
    ensures Growth(a, r, X) == FOUR * a - FOUR * (a * a * a) + a * a * a * r * X * r
  {
  }

  // ---------------------------------------------------------------------------------------------
  // The lapse.

  function DiagonalEntry(r: real, a: real, dr: real, X: real): real
    requires dr > 0.0
  {
    -r * (FOUR + a * a * dr * dr * X) / (2.0 * dr)
  }

  /** What GetCell reads: the slice and the matter at every point. */
  datatype Profile = Profile(pi: real, dr: real, a: seq<real>, K: seq<real>, rho: seq<real>, trcS: seq<real>) {
    predicate Shaped() {
      |a| == |K| == |rho| == |trcS| >= 3 && dr > 0.0 && forall i :: 0 < i < |a| - 1 ==> a[i] != 0.0
    }

    function Radius(i: nat): real { i as real * dr }

    /** The coefficient dadr * r / (2 a) of the first derivative. */
    function Slope(i: nat): real
      requires Shaped() && 0 < i < |a| - 1
    {
      GetARHS(pi, a[i], K[i], Radius(i), rho[i]) * Radius(i) / (2.0 * a[i])
    }

    function Curvature(i: nat): real
      requires Shaped() && i < |a|
    {
      3.0 * K[i] * K[i] + 8.0 * pi * (trcS[i] + rho[i])
    }

    function Diagonal(i: nat): real
      requires Shaped() && i < |a|
    {
      DiagonalEntry(Radius(i), a[i], dr, Curvature(i))
    }

    /** The entries beside the diagonal. */
    function Above(i: nat): real
      requires Shaped() && 0 < i < |a| - 1
    {
      1.0 - Slope(i) + Prod(Radius(i), 1.0 / dr)
    }

    function Below(i: nat): real
      requires Shaped() && 0 < i < |a| - 1
    {
      -1.0 + Slope(i) + Prod(Radius(i), 1.0 / dr)
    }

    /** The rows the solver writes; l[0] and u[n - 1] are never written nor used. */
    ghost predicate Rows(s: System)
      requires Shaped()
    {
      var n := |a|;
      && s.Shaped() && |s.d| == n
      && s.d[0] == -1.0 && s.u[0] == 1.0 && s.b[0] == 0.0
      && s.d[n - 1] == -(Radius(n - 1) + dr) && s.l[n - 1] == Radius(n - 1) && s.b[n - 1] == -dr
      && forall i :: 0 < i < n - 1 ==>
           s.d[i] == Diagonal(i) && s.u[i] == Above(i) && s.l[i] == Below(i) && s.b[i] == 0.0
    }

    /** No pivot of these rows is zero: what the elimination divides by. */
    ghost predicate Regular()
      requires Shaped()
    {
      forall s: System :: Rows(s) ==> s.Regular()
    }

    /** Enough for every row to be weakly diagonally dominant with the right signs. */
    ghost predicate Dominant()
      requires Shaped()
    {
      forall i :: 0 < i < |a| - 1 ==> Curvature(i) >= 0.0 && 1.0 - i as real <= Slope(i) < i as real + 1.0
    }
  }

  /** The first derivative coefficient in terms of the slice: it vanishes in flat space. */
  lemma SlopeClosedForm(p: Profile, i: nat)
    requires p.Shaped() && 0 < i < |p.a| - 1
    ensures 16.0 * p.Slope(i)
            == FOUR - FOUR * Sq(p.a[i])
               + Sq(p.a[i]) * (Sq(p.Radius(i)) * (3.0 * p.K[i] * p.K[i] + 32.0 * p.pi * p.rho[i]))
  {
    MulPos(i as real, p.dr);
    var r, a, X := p.Radius(i), p.a[i], 3.0 * p.K[i] * p.K[i] + 32.0 * p.pi * p.rho[i];
    ARHSIs(p.pi, a, p.K[i], r, p.rho[i], X);
    SlopeAlgebra(a, r, X, GetARHS(p.pi, a, p.K[i], r, p.rho[i]), p.Slope(i));
  }

  lemma SlopeAlgebra(a: real, r: real, X: real, dadr: real, c: real)
    requires a != 0.0 && r > 0.0
    requires dadr == Growth(a, r, X) / (8.0 * r)
    requires c == dadr * r / (2.0 * a)
    ensures 16.0 * c == FOUR - FOUR * Sq(a) + Sq(a) * (Sq(r) * X)
  {
    var Y := FOUR + a * a * (-FOUR + r * r * X);
    var q := 8.0 * r;
    DivMul(a * Y, q);
    assert dadr * q == a * Y;
    var t := dadr * r;
    assert 8.0 * t == a * Y;
    var e := 2.0 * a;
    DivMul(t, e);
    assert c * e == t;
    assert a * (16.0 * c - Y) == 0.0 by { assert 16.0 * c * a == 8.0 * (c * e); }
    assert 16.0 * c == Y;
    assert a * a * (-FOUR + r * r * X) == -FOUR * (a * a) + (a * a) * ((r * r) * X);
  }

  /** Signs and dominance of the interior rows. */
  lemma InteriorRow(p: Profile, s: System, i: nat)
    requires p.Shaped() && p.Rows(s) && 0 < i < |p.a| - 1
    ensures s.u[i] == i as real + 1.0 - p.Slope(i) && s.l[i] == i as real - 1.0 + p.Slope(i) && s.b[i] == 0.0
    ensures 2.0 * (s.d[i] + s.u[i] + s.l[i]) == -(i as real * (Sq(p.a[i] * p.dr) * p.Curvature(i)))
  {
    hide Profile.Slope, Profile.Curvature, Sq;
    var X := p.Curvature(i);
    var y := p.a[i] * p.dr;
    RowAlgebra(i as real, p.dr, p.a[i], X, p.Radius(i), y, s.d[i]);
    assert s.u[i] + s.l[i] == 2.0 * i as real;
  }

  /** What the rows sum to: curvature and matter, and nothing else, pull the lapse below one. */
  lemma RowSum(p: Profile, s: System, i: nat)
    requires p.Shaped() && p.Rows(s) && 0 < i < |p.a| - 1
    ensures var X := 3.0 * (p.K[i] * p.K[i]) + 8.0 * (p.pi * (p.trcS[i] + p.rho[i]));
            2.0 * (s.d[i] + s.u[i] + s.l[i]) == -(i as real * (Sq(p.a[i] * p.dr) * X))
  {
    hide Profile.Slope, Profile.Curvature, Profile.Rows, Sq;
    InteriorRow(p, s, i);
    CurvatureExpands(p, i);
  }

  lemma CurvatureExpands(p: Profile, i: nat)
    requires p.Shaped() && i < |p.a|
    ensures p.Curvature(i) == 3.0 * (p.K[i] * p.K[i]) + 8.0 * (p.pi * (p.trcS[i] + p.rho[i]))
  {
    var t := p.trcS[i] + p.rho[i];
    assert 8.0 * p.pi * t == 8.0 * (p.pi * t);
  }

  lemma RowAlgebra(i: real, dr: real, a: real, X: real, r: real, y: real, d: real)
    requires dr > 0.0 && y == a * dr && r == i * dr && d == -r * (FOUR + a * a * dr * dr * X) / (2.0 * dr)
    ensures r * (1.0 / dr) == i
    ensures 2.0 * (d + 2.0 * i) == -(i * (Sq(y) * X))
  {
    assert r * (1.0 / dr) == i by {
      DivMul(1.0, dr);
      calc { r * (1.0 / dr); i * dr * (1.0 / dr); i * (1.0 / dr * dr); i; }
    }
    var Y := FOUR + a * a * dr * dr * X;
    var e := 2.0 * dr;
    DivIs(-r * Y, e, -i * Y / 2.0);
    assert -i * Y / 2.0 * e == -r * Y;
    assert a * a * dr * dr == Sq(y) by { assert a * dr * (a * dr) == a * a * dr * dr; }
    assert i * Y == 4.0 * i + i * (Sq(y) * X);
  }

  lemma DominantRow(p: Profile, s: System, i: nat)
    requires p.Shaped() && p.Rows(s) && p.Dominant() && 0 < i < |p.a| - 1
    ensures s.l[i] >= 0.0 && s.u[i] > 0.0 && s.d[i] <= -(s.u[i] + s.l[i])
  {
    hide Profile.Slope, Profile.Curvature, Profile.Rows;
    InteriorRow(p, s, i);
    var X, y := p.Curvature(i), p.a[i] * p.dr;
    assert X >= 0.0;
    SquareNonneg(y);
    MulNonneg(Sq(y), X);
    MulNonneg(i as real, Sq(y) * X);
  }

  lemma PivotBoundStep(l: real, d: real, u: real, v: real, p: real)
    requires l >= 0.0 && v > 0.0 && p <= -v && d <= -(u + l)
    ensures d - l / p * v <= -u
  {
    var w := l / p;
    DivMul(l, p);
    assert w <= 0.0 by {
      if w > 0.0 { MulPos(w, -p); assert false; }
    }
    MulNonneg(-w, -(v + p));
    assert -w * -(v + p) == w * v + w * p;
  }

  /** Every pivot is negative: row by row, at most minus the entry above the diagonal. */
  lemma {:induction false} PivotsNegative(p: Profile, s: System, i: nat)
    requires p.Shaped() && p.Rows(s) && p.Dominant() && i < |p.a|
    ensures i < |p.a| - 1 ==> s.Pivot(i) <= -s.u[i] < 0.0
    ensures i == |p.a| - 1 ==> s.Pivot(i) <= -p.dr
  {
    hide Profile.Slope, Profile.Curvature, Profile.Diagonal, Profile.Rows, System.Pivot, System.Multiplier, System.Row,
         System.UpperRow, System.Reduced, Profile.Radius, Profile.Dominant;
    RowsShaped(p, s);
    if i == 0 {
      FirstRow(s, s.b);
    } else {
      PivotsNegative(p, s, i - 1);
      var v, q := s.u[i - 1], s.Pivot(i - 1);
      ForwardStep(s, i, s.l[i] / q);
      if i < |p.a| - 1 {
        DominantRow(p, s, i);
        PivotBoundStep(s.l[i], s.d[i], s.u[i], v, q);
      } else {
        PivotBoundStep(s.l[i], s.d[i], p.dr, v, q);
      }
    }
  }

  lemma PivotsRegular(p: Profile, s: System)
    requires p.Shaped() && p.Rows(s) && p.Dominant()
    ensures s.Regular()
  {
    forall i | 0 <= i < |s.d| ensures s.Pivot(i) != 0.0 { PivotsNegative(p, s, i); }
  }

  lemma {:induction false} ReducedZero(p: Profile, s: System, i: nat)
    requires p.Shaped() && p.Rows(s) && p.Dominant() && i < |p.a|
    ensures s.Reduced(i) == if i == |p.a| - 1 then -p.dr else 0.0
  {
    hide Profile.Slope, Profile.Curvature, Profile.Diagonal;
    if i > 0 {
      ReducedZero(p, s, i - 1);
      PivotsNegative(p, s, i - 1);
      ForwardStep(s, i, s.l[i] / s.Pivot(i - 1));
    }
  }

  lemma Shrinks(p: real, u: real, x: real, y: real)
    requires p <= -u < 0.0 && y > 0.0 && p * x + u * y == 0.0
    ensures 0.0 < x <= y
  {
    var q := -p;
    assert q * x == u * y;
    MulPos(u, y);
    CancelPos(q, x);
    if x > y {
      MulMonoStrict(y, x, q);
      MulMono(u, q, y);
      assert false;
    }
  }

  ghost predicate Monotone(alpha: seq<real>, lo: nat) {
    && |alpha| >= 2
    && (forall i :: lo <= i < |alpha| ==> 0.0 < alpha[i] <= 1.0)
    && (forall i :: lo <= i < |alpha| - 1 ==> alpha[i] <= alpha[i + 1])
  }

  /** The discrete maximum principle: the lapse is positive, at most one, and grows outwards. */
  lemma {:induction false} LapseMonotone(p: Profile, s: System, alpha: seq<real>, i: nat)
    requires p.Shaped() && p.Rows(s) && p.Dominant() && s.Solves(alpha) && i < |p.a|
    ensures Monotone(alpha, i)
    ensures i == 0 ==> alpha[0] == alpha[1]
    decreases |p.a| - i
  {
    hide *;
    var n := |p.a|;
    RowsShaped(p, s);
    SolvesReduced(p, s, alpha, i);
    PivotsNegative(p, s, i);
    ReducedZero(p, s, i);
    if i == n - 1 {
      LastUpper(s, alpha);
      LastLapse(s.Pivot(i), alpha[i], p.dr);
      MonotoneLast(alpha);
    } else {
      LapseMonotone(p, s, alpha, i + 1);
      InnerUpper(s, alpha, i);
      MonotoneAt(alpha, i + 1);
      Shrinks(s.Pivot(i), s.u[i], alpha[i], alpha[i + 1]);
      MonotoneMore(alpha, i);
      if i == 0 { FirstEqual(p, s, alpha); }
    }
  }

  lemma SolvesReduced(p: Profile, s: System, alpha: seq<real>, i: nat)
    requires p.Shaped() && p.Rows(s) && p.Dominant() && s.Shaped() && s.Solves(alpha) && i < |p.a| == |s.d|
    ensures |alpha| == |p.a| && s.UpperRow(alpha, i) == s.Reduced(i)
  {
    hide Profile.Rows, System.Row, System.UpperRow, System.Reduced, System.Regular, Profile.Dominant;
    PivotsRegular(p, s);
    ForwardEquivalence(s, alpha, |p.a| - 1);
  }

  lemma LastUpper(s: System, x: seq<real>)
    requires s.Shaped() && |x| == |s.d|
    ensures s.UpperRow(x, |s.d| - 1) == s.Pivot(|s.d| - 1) * x[|s.d| - 1]
  {
    hide System.Pivot;
  }

  lemma InnerUpper(s: System, x: seq<real>, i: nat)
    requires s.Shaped() && |x| == |s.d| && i + 1 < |s.d|
    ensures s.UpperRow(x, i) == s.Pivot(i) * x[i] + s.u[i] * x[i + 1]
  {
    hide System.Pivot;
  }

  lemma MonotoneLast(alpha: seq<real>)
    requires |alpha| >= 2 && 0.0 < alpha[|alpha| - 1] <= 1.0
    ensures Monotone(alpha, |alpha| - 1)
  {
  }

  lemma MonotoneAt(alpha: seq<real>, i: nat)
    requires Monotone(alpha, i) && i < |alpha|
    ensures 0.0 < alpha[i] <= 1.0
  {
  }

  lemma MonotoneMore(alpha: seq<real>, i: nat)
    requires Monotone(alpha, i + 1) && i + 1 < |alpha| && 0.0 < alpha[i] <= alpha[i + 1] <= 1.0
    ensures Monotone(alpha, i)
  {
  }

  lemma FirstEqual(p: Profile, s: System, alpha: seq<real>)
    requires p.Shaped() && p.Rows(s) && s.Shaped() && s.Solves(alpha)
    ensures |alpha| >= 2 && alpha[0] == alpha[1]
  {
    hide Profile.Slope, Profile.Curvature, Profile.Diagonal;
    assert s.Row(alpha, 0) == s.b[0];
  }

  lemma LastLapse(p: real, x: real, dr: real)
    requires dr > 0.0 && p <= -dr && p * x == -dr
    ensures 0.0 < x <= 1.0
  {
    var q := -p;
    assert q * x == dr;
    CancelPos(q, x);
    if x > 1.0 {
      MulMonoStrict(1.0, x, q);
      assert false;
    }
  }

  /** The lapse is one everywhere exactly when no interior point carries curvature or matter. */
  lemma UnitLapse(p: Profile, s: System, alpha: seq<real>)
    requires p.Shaped() && p.Rows(s) && p.Dominant() && s.Solves(alpha)
    ensures (forall i :: 0 <= i < |alpha| ==> alpha[i] == 1.0) <==>
            (forall i :: 0 < i < |p.a| - 1 ==> p.Curvature(i) == 0.0)
  {
    hide *;
    RowsShaped(p, s);
    var one := seq(|p.a|, _ => 1.0);
    OnesEverywhere(p, s, alpha, one);
    OnesSolve(p, s, one);
    if forall i :: 0 < i < |p.a| - 1 ==> p.Curvature(i) == 0.0 {
      PivotsRegular(p, s);
      OnlyOne(s, alpha, one);
    }
  }

  lemma OnesEverywhere(p: Profile, s: System, alpha: seq<real>, one: seq<real>)
    requires s.Shaped() && |s.d| == |p.a| && s.Solves(alpha) && one == seq(|p.a|, _ => 1.0)
    ensures |alpha| == |one| && ((forall i :: 0 <= i < |alpha| ==> alpha[i] == 1.0) <==> alpha == one)
  {
    hide System.Row;
  }

  /** The unit lapse solves exactly the rows without curvature. */
  lemma OnesSolve(p: Profile, s: System, one: seq<real>)
    requires p.Shaped() && p.Rows(s) && s.Shaped() && |s.d| == |p.a| && one == seq(|p.a|, _ => 1.0)
    ensures s.Solves(one) <==> forall i :: 0 < i < |p.a| - 1 ==> p.Curvature(i) == 0.0
  {
    hide Profile.Curvature, Profile.Rows, System.Row;
    var n := |p.a|;
    OuterRows(p, s, one);
    forall i | 0 < i < n - 1 ensures s.Row(one, i) == s.b[i] <==> p.Curvature(i) == 0.0 {
      OneRow(p, s, one, i);
    }
  }

  lemma OuterRows(p: Profile, s: System, one: seq<real>)
    requires p.Shaped() && p.Rows(s) && s.Shaped() && |s.d| == |p.a| && one == seq(|p.a|, _ => 1.0)
    ensures s.Row(one, 0) == s.b[0] && s.Row(one, |p.a| - 1) == s.b[|p.a| - 1]
  {
    hide Profile.Diagonal, Profile.Above, Profile.Below, Profile.Radius;
  }

  lemma OneRow(p: Profile, s: System, one: seq<real>, i: nat)
    requires p.Shaped() && p.Rows(s) && s.Shaped() && |s.d| == |p.a| && one == seq(|p.a|, _ => 1.0) && 0 < i < |p.a| - 1
    ensures s.Row(one, i) == s.b[i] <==> p.Curvature(i) == 0.0
  {
    hide Profile.Slope, Profile.Curvature, Profile.Rows;
    InteriorRow(p, s, i);
    var y, X := p.a[i] * p.dr, p.Curvature(i);
    NoZeroDivisor(i as real, p.a[i], p.dr, y, X);
  }

  lemma OnlyOne(s: System, x: seq<real>, y: seq<real>)
    requires s.Shaped() && s.Regular() && s.Solves(x) && s.Solves(y)
    ensures x == y
  {
    ForwardEquivalence(s, x, |s.d| - 1);
    ForwardEquivalence(s, y, |s.d| - 1);
    Unique(s, x, y, 0);
  }

  lemma NoZeroDivisor(i: real, a: real, dr: real, y: real, X: real)
    requires i > 0.0 && a != 0.0 && dr > 0.0 && y == a * dr
    ensures i * (Sq(y) * X) == 0.0 <==> X == 0.0
  {
    assert y != 0.0 by {
      if a > 0.0 { MulPos(a, dr); } else { MulPos(-a, dr); }
    }
    SquareIsPos(y, Sq(y));
    var t := Sq(y) * X;
    if X > 0.0 {
      MulPos(Sq(y), X);
      MulPos(i, t);
    } else if X < 0.0 {
      MulPos(Sq(y), -X);
      MulPos(i, -t);
    }
  }

  // ---------------------------------------------------------------------------------------------
  // LinearSolveForAlpha itself.

  /** The entries of one interior row, as the loop computes them from the values GetCell returns. */
  method InteriorEntries(p: Profile, i: nat) returns (d: real, u: real, l: real)
    requires p.Shaped() && 0 < i < |p.a| - 1
    ensures d == p.Diagonal(i) && u == p.Above(i) && l == p.Below(i)
  {
    hide *;
    ShapedAt(p, i);
    var r, a, K := p.Radius(i), p.a[i], p.K[i];
    var dadr := GetARHS(p.pi, a, K, r, p.rho[i]);
    var X := 3.0 * K * K + 8.0 * p.pi * (p.trcS[i] + p.rho[i]);
    d := DiagonalEntry(r, a, p.dr, X);
    var slope := dadr * r / (2.0 * a);
    var point := Prod(r, 1.0 / p.dr);
    u := 1.0 - slope + point;
    l := -1.0 + slope + point;
    SlopeIs(p, i, r, a, K, dadr);
    BesideDiagonal(p, i, slope, point, r);
    CurvatureIs(p, i, K);
    DiagonalIs(p, i, r, a, p.dr, X);
  }

  lemma ShapedAt(p: Profile, i: nat)
    requires p.Shaped() && 0 < i < |p.a| - 1
    ensures |p.K| == |p.rho| == |p.trcS| == |p.a| && p.dr > 0.0 && p.a[i] != 0.0
  {
  }

  lemma SlopeIs(p: Profile, i: nat, r: real, a: real, K: real, dadr: real)
    requires p.Shaped() && 0 < i < |p.a| - 1 && r == p.Radius(i) && a == p.a[i] && K == p.K[i]
    requires dadr == GetARHS(p.pi, a, K, r, p.rho[i])
    ensures p.Slope(i) == dadr * r / (2.0 * a)
  {
    hide GetARHS;
  }

  lemma BesideDiagonal(p: Profile, i: nat, slope: real, point: real, r: real)
    requires p.Shaped() && 0 < i < |p.a| - 1 && slope == p.Slope(i) && r == p.Radius(i) && point == Prod(r, 1.0 / p.dr)
    ensures p.Above(i) == 1.0 - slope + point && p.Below(i) == -1.0 + slope + point
  {
    hide Profile.Slope, Profile.Radius, Prod;
  }

  lemma CurvatureIs(p: Profile, i: nat, K: real)
    requires p.Shaped() && i < |p.a| && K == p.K[i]
    ensures p.Curvature(i) == 3.0 * K * K + 8.0 * p.pi * (p.trcS[i] + p.rho[i])
  {
  }

  lemma DiagonalIs(p: Profile, i: nat, r: real, a: real, dr: real, X: real)
    requires p.Shaped() && 0 < i < |p.a| - 1 && r == p.Radius(i) && a == p.a[i] && dr == p.dr && X == p.Curvature(i)
    ensures p.Diagonal(i) == DiagonalEntry(r, a, dr, X)
  {
    hide Profile.Curvature, Profile.Radius, DiagonalEntry;
  }

  /** Writes the three bands and the right hand side. */
  method FillRows(p: Profile, l: array<real>, d: array<real>, u: array<real>, b: array<real>)
    requires p.Shaped() && l.Length == d.Length == u.Length == b.Length == |p.a|
    requires l != d && l != u && l != b && d != u && d != b && u != b
    modifies l, d, u, b
    ensures p.Rows(System(l[..], d[..], u[..], b[..]))
  {
    hide *;
    var n := |p.a|;
    ShapedSize(p);
    for i := 1 to n - 1
      invariant forall k :: 0 < k < i ==> d[k] == p.Diagonal(k) && u[k] == p.Above(k) && l[k] == p.Below(k) && b[k] == 0.0
    {
      var di, ui, li := InteriorEntries(p, i);
      d[i], u[i], l[i], b[i] := di, ui, li, 0.0;
    }
    d[0], u[0], b[0] := -1.0, 1.0, 0.0;
    var r := p.Radius(n - 1);
    d[n - 1], l[n - 1], b[n - 1] := -(r + p.dr), r, -p.dr;
    RowsAre(p, System(l[..], d[..], u[..], b[..]));
  }

  lemma ShapedSize(p: Profile)
    requires p.Shaped()
    ensures |p.a| >= 3
  {
  }

  lemma RowsAre(p: Profile, s: System)
    requires p.Shaped() && |s.l| == |s.d| == |s.u| == |s.b| == |p.a|
    requires var n := |p.a|;
             && s.d[0] == -1.0 && s.u[0] == 1.0 && s.b[0] == 0.0
             && s.d[n - 1] == -(p.Radius(n - 1) + p.dr) && s.l[n - 1] == p.Radius(n - 1) && s.b[n - 1] == -p.dr
    requires forall k :: 0 < k < |p.a| - 1 ==>
               s.d[k] == p.Diagonal(k) && s.u[k] == p.Above(k) && s.l[k] == p.Below(k) && s.b[k] == 0.0
    ensures p.Rows(s)
  {
    hide Profile.Diagonal, Profile.Above, Profile.Below, Profile.Radius;
  }

  /** Rows that are dominant have nonzero pivots. */
  lemma DominantRegular(p: Profile)
    requires p.Shaped() && p.Dominant()
    ensures p.Regular()
  {
    hide *;
    forall s: System | p.Rows(s) ensures s.Shaped() && s.Regular() {
      RowsShaped(p, s);
      PivotsRegular(p, s);
    }
    RegularIs(p);
  }

  lemma RegularIs(p: Profile)
    requires p.Shaped() && forall s: System :: p.Rows(s) ==> s.Shaped() && s.Regular()
    ensures p.Regular()
  {
    hide Profile.Rows, System.Regular;
  }

  lemma RegularRows(p: Profile, s: System)
    requires p.Shaped() && p.Regular() && p.Rows(s)
    ensures s.Shaped() && s.Regular()
  {
    hide System.Regular, Profile.Slope, Profile.Diagonal;
  }

  /** Fills the rows, then eliminates in place. Whenever no pivot is zero the lapse is the one solution of
      the rows; when the rows are dominant it obeys the maximum principle. */
  method LinearSolveForAlpha(p: Profile, l: array<real>, d: array<real>, u: array<real>, b: array<real>,
                             alpha: array<real>)
    requires p.Shaped() && p.Regular()
    requires l.Length == d.Length == u.Length == b.Length == alpha.Length == |p.a|
    requires l != d && l != u && l != b && d != u && d != b && u != b
    requires alpha != l && alpha != d && alpha != u && alpha != b
    modifies l, d, u, b, alpha
    ensures exists s: System :: p.Rows(s) && s.Solves(alpha[..]) && forall y :: s.Solves(y) ==> y == alpha[..]
    ensures p.Dominant() ==> Monotone(alpha[..], 0) && alpha[0] == alpha[1]
    ensures p.Dominant() ==>
              ((forall i :: 0 <= i < alpha.Length ==> alpha[i] == 1.0) <==>
               (forall i :: 0 < i < |p.a| - 1 ==> p.Curvature(i) == 0.0))
  {
    hide *;
    FillRows(p, l, d, u, b);
    ghost var s := System(l[..], d[..], u[..], b[..]);
    RowsShaped(p, s);
    RegularRows(p, s);
    Solve(l, d, u, b, alpha);
    if p.Dominant() {
      LapseMonotone(p, s, alpha[..], 0);
      UnitLapse(p, s, alpha[..]);
    }
  }

  lemma RowsShaped(p: Profile, s: System)
    requires p.Shaped() && p.Rows(s)
    ensures s.Shaped() && |s.d| == |p.a| >= 3 && p.dr > 0.0
    ensures s.d[0] == -1.0 && s.u[0] == 1.0 && s.b[0] == 0.0
    ensures s.l[|p.a| - 1] >= 0.0 && s.d[|p.a| - 1] == -(p.dr + s.l[|p.a| - 1]) && s.b[|p.a| - 1] == -p.dr
  {
    MulNonneg((|p.a| - 1) as real, p.dr);
  }

  /** Vacuum from end to end: the slice the shooting loop returns is admissible for the lapse solve,
      and the lapse is exactly one. */
  lemma VacuumLapse(pi: real, dr: real, m: Matter, p: Profile, s: System, alpha: seq<real>)
    requires dr > 0.0 && |m.rho| >= 3 && m.Shaped(|m.rho|) && m.Vacuum()
    requires p.pi == pi && p.dr == dr && p.rho == m.rho && p.trcS == m.trcS && |p.a| == |p.K| == |m.rho|
    requires forall i :: 0 <= i < |m.rho| ==> Slice(p.a[i], p.K[i]) == Hypersurface(pi, dr, m, i)
    ensures p.Shaped() && p.Dominant()
    ensures p.Rows(s) && s.Solves(alpha) ==> forall i :: 0 <= i < |alpha| ==> alpha[i] == 1.0
  {
    hide GetARHS, GetKRHS, Step, Hypersurface;
    forall i | 0 <= i < |p.a| ensures p.a[i] == 1.0 && p.K[i] == 0.0 && p.rho[i] == 0.0 && p.trcS[i] == 0.0 {
      VacuumIsFlat(pi, dr, m, i);
      assert p.rho[i] in m.rho && p.trcS[i] in m.trcS;
    }
    forall i | 0 < i < |p.a| - 1 ensures p.Curvature(i) == 0.0 && p.Slope(i) == 0.0 {
      StillA(pi, p.Radius(i));
    }
    if p.Rows(s) && s.Solves(alpha) {
      UnitLapse(p, s, alpha);
    }
  }
}
