/** For an ideal gas with adiabatic index up to two the master function changes sign once, whatever the
    field, the floors and the ceilings are. So the search of solve is always defined, it is given up exactly
    when its bound lies below the true mu, and otherwise it finds the true mu within the tolerance. */
module UniqueRoot {
  import opened Reals
  import opened Vectors
  import opened PrimToCon
  import opened RootFind
  import opened ConToPrim
  import opened Recovery
  import opened RoundTrip

  /** p = (gamma - 1) rho eps. The energy floor is between zero and the ceiling, and does not grow with the
      density. */
  ghost predicate GammaLaw(env: Env, gamma: real, ye: real) {
    && 1.0 <= gamma <= 2.0
    && (forall rho, eps :: env.pressure(rho, eps, ye) == (gamma - 1.0) * (rho * eps))
    && (forall rho :: rho >= env.RhoFloor() ==> 0.0 <= env.SieFloor(rho, ye) <= env.sieMax)
    && (forall r1, r2 :: env.RhoFloor() <= r1 <= r2 ==> env.SieFloor(r2, ye) <= env.SieFloor(r1, ye))
  }

  /** The guard on rho (1 + eps) is idle at every mu: the density stays above EPS, by its floor or because D
      is large enough for the fastest admissible velocity. */
  ghost predicate Dense(p: Problem) {
    && p.h0 > 0.0 && p.rsq >= 0.0 && p.env.gamMax >= 1.0
    && (p.env.RhoFloor() >= EPS || p.D * p.env.sqrt(1.0 - p.V0sq()) >= EPS)
  }

  /** bsqRpsq is what the constructor of the residual receives from solve. */
  ghost predicate Searched(p: Problem, gamma: real) {
    && p.Admissible() && p.bsqRpsq == p.bsq * p.rsq - p.rbsq
    && p.h0 > 0.0 && p.rsq >= 0.0 && p.env.gamMax >= 1.0 && GammaLaw(p.env, gamma, p.ye) && Dense(p)
  }

  // ---------------------------------------------------------------------------------------------
  // Momentum along and across the field. With y = mu x, P and Q the squares of r across and along b:
  // 1 / y = 1 / mu + b^2, mu^2 rbar^2 = y^2 P + mu^2 Q.

  /** mu rbar^2 */
  function Drag(b: real, P: real, Q: real, mu: real, y: real): real { (y - b * (y * y)) * P + mu * Q }

  /** mu^2 rbar^2 */
  function Speed(P: real, Q: real, mu: real, y: real): real { y * y * P + mu * mu * Q }

  /** i == 1 / mu and 1 / y == i + b. */
  ghost predicate Inverse(b: real, mu: real, i: real, y: real) {
    b >= 0.0 && mu > 0.0 && mu * i == 1.0 && y > 0.0 && y * (i + b) == 1.0
  }

  lemma InverseOrder(b: real, mu1: real, i1: real, y1: real, mu2: real, i2: real, y2: real)
    requires Inverse(b, mu1, i1, y1) && Inverse(b, mu2, i2, y2) && mu1 < mu2
    ensures i1 > i2 > 0.0 && y1 < y2 && b * y1 <= 1.0
    ensures y2 - y1 == Prod(i1 - i2, y1 * y2) && mu2 - mu1 == Prod(i1 - i2, mu1 * mu2)
  {
    CancelPos(mu1, i1);
    CancelPos(mu2, i2);
    Gap(i1, i2, mu1, mu2, 0.0);
    Gap(i1, i2, y1, y2, b);
    var d, m, n := i1 - i2, mu1 * mu2, y1 * y2;
    MulPos(mu1, mu2);
    MulPos(y1, y2);
    CancelPos(m, d);
    MulPos(n, d);
    assert y1 * i1 + b * y1 == 1.0;
    MulPos(y1, i1);
  }

  lemma Gap(i1: real, i2: real, y1: real, y2: real, b: real)
    requires y1 * (i1 + b) == 1.0 && y2 * (i2 + b) == 1.0
    ensures y2 - y1 == Prod(i1 - i2, y1 * y2)
  {
    var j1, j2 := i1 + b, i2 + b;
    assert y2 * (y1 * j1) - y1 * (y2 * j2) == (j1 - j2) * (y1 * y2);
  }

  /** Half the change of b^2 y^2 P, and the change of y P + mu Q, between two values of mu. */
  function FieldChange(b: real, P: real, y1: real, y2: real): real { 0.5 * (b * P * (y2 * y2 - y1 * y1)) }

  function MomentumChange(P: real, Q: real, mu1: real, mu2: real, y1: real, y2: real): real {
    (y2 - y1) * P + (mu2 - mu1) * Q
  }

  lemma DragChange(b: real, P: real, Q: real, mu1: real, y1: real, mu2: real, y2: real)
    ensures Drag(b, P, Q, mu2, y2) - Drag(b, P, Q, mu1, y1)
            == MomentumChange(P, Q, mu1, mu2, y1, y2) - 2.0 * FieldChange(b, P, y1, y2)
  {
  }

  lemma ChangesBelow(b: real, P: real, Q: real, mu1: real, i1: real, y1: real, mu2: real, i2: real, y2: real)
    requires P >= 0.0 && Q >= 0.0 && Inverse(b, mu1, i1, y1) && Inverse(b, mu2, i2, y2) && mu1 < mu2
    ensures FieldChange(b, P, y1, y2) <= Prod(i1 - i2, Speed(P, Q, mu2, y2))
    ensures MomentumChange(P, Q, mu1, mu2, y1, y2) <= Prod(i1 - i2, Speed(P, Q, mu2, y2))
  {
    hide *;
    InverseOrder(b, mu1, i1, y1, mu2, i2, y2);
    InversePositive(b, mu1, i1, y1);
    InversePositive(b, mu2, i2, y2);
    var d, S := i1 - i2, Speed(P, Q, mu2, y2);
    SpeedParts(P, Q, mu2, y2, S);
    FieldBelow(b, P, d, y1, y2, S);
    MomentumBelow(P, Q, d, mu1, mu2, y1, y2, S);
  }

  lemma InversePositive(b: real, mu: real, i: real, y: real)
    requires Inverse(b, mu, i, y)
    ensures b >= 0.0 && mu > 0.0 && y > 0.0
  {
  }

  lemma SpeedParts(P: real, Q: real, mu: real, y: real, S: real)
    requires P >= 0.0 && Q >= 0.0 && S == Speed(P, Q, mu, y)
    ensures S == Prod(Sq(y), P) + Prod(Sq(mu), Q) && Prod(Sq(y), P) >= 0.0 && Prod(Sq(mu), Q) >= 0.0
  {
    SqNonneg(y);
    SqNonneg(mu);
    ProdNonneg(Sq(y), P);
    ProdNonneg(Sq(mu), Q);
  }

  lemma FieldBelow(b: real, P: real, d: real, y1: real, y2: real, S: real)
    requires P >= 0.0 && d >= 0.0 && b >= 0.0 && 0.0 < y1 <= y2 && b * y1 <= 1.0 && y2 - y1 == Prod(d, y1 * y2)
    requires S >= Prod(Sq(y2), P)
    ensures FieldChange(b, P, y1, y2) <= Prod(d, S)
  {
    hide *;
    FieldIdentity(b, P, d, y1, y2);
    var t, half, e := d * P * (b * (y1 * y2)), 0.5 * (y1 + y2), d * P * (y2 * y2);
    FactorsNonneg(b, P, d, y1, y2);
    MulMono(half, y2, t);
    MulMono(b * y1, 1.0, e);
    Reorder(b, P, d, y1, y2);
    ProdMono(d, Prod(Sq(y2), P), S);
  }

  lemma FactorsNonneg(b: real, P: real, d: real, y1: real, y2: real)
    requires P >= 0.0 && d >= 0.0 && b >= 0.0 && 0.0 < y1 <= y2
    ensures d * P * (b * (y1 * y2)) >= 0.0 && d * P * (y2 * y2) >= 0.0
  {
    MulNonneg(d, P);
    MulNonneg(y1, y2);
    MulNonneg(b, y1 * y2);
    MulNonneg(y2, y2);
    var k, m, n := d * P, b * (y1 * y2), y2 * y2;
    MulNonneg(k, m);
    MulNonneg(k, n);
  }

  lemma Reorder(b: real, P: real, d: real, y1: real, y2: real)
    ensures y2 * (d * P * (b * (y1 * y2))) == b * y1 * (d * P * (y2 * y2))
    ensures d * P * (y2 * y2) == Prod(d, Prod(Sq(y2), P)) && 1.0 * (d * P * (y2 * y2)) == d * P * (y2 * y2)
  {
  }

  lemma FieldIdentity(b: real, P: real, d: real, y1: real, y2: real)
    requires y2 - y1 == Prod(d, y1 * y2)
    ensures FieldChange(b, P, y1, y2) == 0.5 * (y1 + y2) * (d * P * (b * (y1 * y2)))
  {
    var n := y1 * y2;
    assert y2 * y2 - y1 * y1 == (y2 - y1) * (y1 + y2);
    assert (y2 - y1) * (y1 + y2) == d * n * (y1 + y2);
    assert b * P * (d * n * (y1 + y2)) == (y1 + y2) * (d * P * (b * n));
  }

  lemma MomentumBelow(P: real, Q: real, d: real, mu1: real, mu2: real, y1: real, y2: real, S: real)
    requires P >= 0.0 && Q >= 0.0 && d >= 0.0 && 0.0 < y1 <= y2 && 0.0 < mu1 <= mu2
    requires y2 - y1 == Prod(d, y1 * y2) && mu2 - mu1 == Prod(d, mu1 * mu2)
    requires S == Prod(Sq(y2), P) + Prod(Sq(mu2), Q)
    ensures MomentumChange(P, Q, mu1, mu2, y1, y2) <= Prod(d, S)
  {
    hide *;
    OnePart(P, d, y1, y2);
    OnePart(Q, d, mu1, mu2);
    MomentumSum(P, Q, d, mu1, mu2, y1, y2);
  }

  lemma OnePart(P: real, d: real, y1: real, y2: real)
    requires P >= 0.0 && d >= 0.0 && 0.0 < y1 <= y2 && y2 - y1 == Prod(d, y1 * y2)
    ensures Prod(y2 - y1, P) <= Prod(d, Prod(Sq(y2), P))
  {
    MulMono(y1, y2, y2);
    ProdMono(d, y1 * y2, y2 * y2);
    var dy, m := y2 - y1, Prod(d, y2 * y2);
    MulMono(dy, m, P);
    assert m * P == d * (y2 * y2 * P);
  }

  lemma MomentumSum(P: real, Q: real, d: real, mu1: real, mu2: real, y1: real, y2: real)
    ensures MomentumChange(P, Q, mu1, mu2, y1, y2) == Prod(y2 - y1, P) + Prod(mu2 - mu1, Q)
    ensures Prod(d, Prod(Sq(y2), P) + Prod(Sq(mu2), Q)) == Prod(d, Prod(Sq(y2), P)) + Prod(d, Prod(Sq(mu2), Q))
  {
  }

  /** (1 + g) N - g k + mu rbar^2 - 1 / mu, where N = 1 + qbar - mu rbar^2 and n = 1 + q - b^2 / 2. */
  function Excess(g: real, n: real, k: real, b: real, P: real, Q: real, mu: real, i: real, y: real): real {
    (1.0 + g) * (n - 0.5 * (b * P * (y * y)) - Drag(b, P, Q, mu, y)) - g * k + Drag(b, P, Q, mu, y) - i
  }

  /** It grows with mu below light speed, for every g between zero and one and every k that falls. */
  lemma ExcessGrows(g: real, n: real, b: real, P: real, Q: real, k1: real, mu1: real, i1: real, y1: real,
                    k2: real, mu2: real, i2: real, y2: real)
    requires 0.0 <= g <= 1.0 && k1 >= k2 && P >= 0.0 && Q >= 0.0
    requires Inverse(b, mu1, i1, y1) && Inverse(b, mu2, i2, y2) && mu1 < mu2 && Speed(P, Q, mu2, y2) < 1.0
    ensures Excess(g, n, k1, b, P, Q, mu1, i1, y1) < Excess(g, n, k2, b, P, Q, mu2, i2, y2)
  {
    hide *;
    var F, M := FieldChange(b, P, y1, y2), MomentumChange(P, Q, mu1, mu2, y1, y2);
    var d, S := i1 - i2, Speed(P, Q, mu2, y2);
    ChangesBelow(b, P, Q, mu1, i1, y1, mu2, i2, y2);
    InverseOrder(b, mu1, i1, y1, mu2, i2, y2);
    ExcessChange(g, n, b, P, Q, k1, mu1, i1, y1, k2, mu2, i2, y2);
    ProdMono(1.0 - g, F, Prod(d, S));
    ProdMono(g, M, Prod(d, S));
    ProdMono(g, 0.0, k1 - k2);
    ExcessBalance(g, Prod(d, S));
    BelowWhole(d, S);
  }

  lemma ExcessChange(g: real, n: real, b: real, P: real, Q: real, k1: real, mu1: real, i1: real, y1: real,
                     k2: real, mu2: real, i2: real, y2: real)
    ensures Excess(g, n, k2, b, P, Q, mu2, i2, y2) - Excess(g, n, k1, b, P, Q, mu1, i1, y1)
            == (i1 - i2) - Prod(1.0 - g, FieldChange(b, P, y1, y2)) - Prod(g, MomentumChange(P, Q, mu1, mu2, y1, y2))
               + Prod(g, k1 - k2)
  {
    hide Drag, MomentumChange;
    DragChange(b, P, Q, mu1, y1, mu2, y2);
    var D1, D2, M := Drag(b, P, Q, mu1, y1), Drag(b, P, Q, mu2, y2), MomentumChange(P, Q, mu1, mu2, y1, y2);
    var z1, z2 := b * P * (y1 * y1), b * P * (y2 * y2);
    assert FieldChange(b, P, y1, y2) == 0.5 * (z2 - z1);
    ExcessLinear(g, n, k1, k2, z1, z2, D1, D2, M);
  }

  lemma ExcessLinear(g: real, n: real, k1: real, k2: real, z1: real, z2: real, D1: real, D2: real, M: real)
    requires D2 - D1 == M - (z2 - z1)
    ensures ((1.0 + g) * (n - 0.5 * z2 - D2) - g * k2 + D2) - ((1.0 + g) * (n - 0.5 * z1 - D1) - g * k1 + D1)
            == -Prod(1.0 - g, 0.5 * (z2 - z1)) - Prod(g, M) + Prod(g, k1 - k2)
  {
    assert g * D2 - g * D1 == g * M - g * (z2 - z1) by { assert g * (D2 - D1) == g * (M - (z2 - z1)); }
  }

  lemma ExcessBalance(g: real, w: real)
    ensures Prod(1.0 - g, w) + Prod(g, w) == w && Prod(g, 0.0) == 0.0
  {
  }

  lemma BelowWhole(d: real, S: real)
    requires d > 0.0 && S < 1.0
    ensures Prod(d, S) < d
  {
    MulMonoStrict(S, 1.0, d);
  }

  // ---------------------------------------------------------------------------------------------
  // The gas at one mu: c = 1 / W, N = (1 + trial energy) c, w0 = 1 + energy floor, w1 = 1 + energy ceiling.

  /** The specific enthalpy 1 + gamma eps of specific energy w - 1. */
  function Enthalpic(gamma: real, w: real): real { gamma * w - (gamma - 1.0) }

  lemma EnthalpicOrder(gamma: real, v: real, w: real)
    requires gamma >= 1.0 && 1.0 <= v <= w
    ensures 1.0 <= Enthalpic(gamma, v) <= Enthalpic(gamma, w)
  {
    MulMono(v, w, gamma);
    MulMono(1.0, v, gamma);
  }

  /** Enthalpy per energy grows with the energy. */
  lemma PerEnergy(gamma: real, v: real, w: real, r: real)
    requires gamma >= 1.0 && w >= 1.0 && Prod(r, w) == Enthalpic(gamma, w)
    ensures v <= w ==> Enthalpic(gamma, v) <= Prod(r, v)
    ensures v >= w ==> Enthalpic(gamma, v) >= Prod(r, v)
  {
    // (r v - Enthalpic(v)) w == (gamma - 1) (w - v)
    var g, e := gamma - 1.0, r * v - Enthalpic(gamma, v);
    assert e * w == g * (w - v) by {
      assert r * v * w == v * (r * w);
      assert v * (gamma * w - g) - (gamma * v - g) * w == g * (w - v);
    }
    if v <= w { MulNonneg(g, w - v); } else { MulNonneg(g, v - w); assert g * (v - w) == -(g * (w - v)); }
    CancelPos(w, e);
    CancelPos(w, -e);
    assert w * e == e * w && w * -e == -(e * w);
  }

  /** nu is the larger of the floored value L and the smaller of the free value A and the capped value B. */
  lemma NuCases(gamma: real, N: real, c: real, n: real, w0: real, w1: real, w: real, r: real, r1: real, nu: real)
    requires gamma >= 1.0 && c > 0.0 && 1.0 <= w0 <= w1 && N == Prod(n, c)
    requires w == if n <= w0 then w0 else if n > w1 then w1 else n
    requires Prod(r, w) == Enthalpic(gamma, w) && Prod(r1, w1) == Enthalpic(gamma, w1)
    requires nu == Max(Prod(Prod(r, w), c), Prod(r, N))
    ensures var L, A, B := Prod(Enthalpic(gamma, w0), c), FreeNu(gamma, N, c), Prod(r1, N);
            && nu >= L && (nu >= A || nu >= B) && (nu == L || (nu <= A && nu <= B))
  {
    hide *;
    NuForms(gamma, N, c, n, r, r1);
    EnthalpicOrder(gamma, w0, w1);
    if n <= w0 {
      NuFloored(gamma, n, c, w0, r, nu);
    } else if n > w1 {
      NuCapped(gamma, n, c, w0, w1, r, r1, nu);
    } else {
      NuFree(gamma, n, c, w0, w1, r, r1, nu);
    }
  }

  /** Enthalpy times c for the unfloored energy. */
  function FreeNu(gamma: real, N: real, c: real): real { gamma * N - (gamma - 1.0) * c }

  lemma NuForms(gamma: real, N: real, c: real, n: real, r: real, r1: real)
    requires N == Prod(n, c)
    ensures FreeNu(gamma, N, c) == Prod(Enthalpic(gamma, n), c)
    ensures Prod(r1, N) == Prod(Prod(r1, n), c) && Prod(r, N) == Prod(Prod(r, n), c)
  {
  }

  lemma NuFloored(gamma: real, n: real, c: real, w0: real, r: real, nu: real)
    requires gamma >= 1.0 && c > 0.0 && 1.0 <= w0 && n <= w0
    requires Prod(r, w0) == Enthalpic(gamma, w0) && nu == Max(Prod(Prod(r, w0), c), Prod(Prod(r, n), c))
    ensures nu == Prod(Enthalpic(gamma, w0), c) && nu >= Prod(Enthalpic(gamma, n), c)
  {
    EnthalpicOrder(gamma, w0, w0);
    CancelPos(w0, r);
    assert w0 * r == r * w0;
    MulMono(n, w0, r);
    var x, y := r * n, r * w0;
    assert x == n * r && y == w0 * r;
    MulMono(x, y, c);
    MulMono(n, w0, gamma);
    var u, v := Enthalpic(gamma, n), Enthalpic(gamma, w0);
    MulMono(u, v, c);
  }

  lemma NuCapped(gamma: real, n: real, c: real, w0: real, w1: real, r: real, r1: real, nu: real)
    requires gamma >= 1.0 && c > 0.0 && 1.0 <= w0 <= w1 < n && Enthalpic(gamma, w0) <= Enthalpic(gamma, w1)
    requires Prod(r, w1) == Enthalpic(gamma, w1) == Prod(r1, w1) && Enthalpic(gamma, w1) >= 1.0
    requires nu == Max(Prod(Prod(r, w1), c), Prod(Prod(r, n), c))
    ensures nu == Prod(Prod(r1, n), c) && Prod(Enthalpic(gamma, w0), c) <= nu <= Prod(Enthalpic(gamma, n), c)
  {
    assert (r - r1) * w1 == 0.0;
    assert r == r1;
    CancelPos(w1, r);
    assert w1 * r == r * w1;
    MulMono(w1, n, r);
    var x, y, z := r * w1, r * n, Enthalpic(gamma, n);
    assert x == w1 * r && y == n * r;
    MulMono(x, y, c);
    PerEnergy(gamma, n, w1, r);
    MulMono(y, z, c);
    var l := Enthalpic(gamma, w0);
    MulMono(l, y, c);
  }

  lemma NuFree(gamma: real, n: real, c: real, w0: real, w1: real, r: real, r1: real, nu: real)
    requires gamma >= 1.0 && c > 0.0 && 1.0 <= w0 < n <= w1
    requires Prod(r, n) == Enthalpic(gamma, n) && Prod(r1, w1) == Enthalpic(gamma, w1)
    requires nu == Max(Prod(Prod(r, n), c), Prod(Prod(r, n), c))
    ensures nu == Prod(Enthalpic(gamma, n), c) && Prod(Enthalpic(gamma, w0), c) <= nu <= Prod(Prod(r1, n), c)
  {
    EnthalpicOrder(gamma, w0, n);
    PerEnergy(gamma, n, w1, r1);
    var l, z, y := Enthalpic(gamma, w0), Enthalpic(gamma, n), r1 * n;
    MulMono(l, z, c);
    MulMono(z, y, c);
  }

  // ---------------------------------------------------------------------------------------------
  // The master function at two values of mu.

  /** What the master function sees of the gas that does not depend on mu: b^2, the two parts of r^2, n, the
      cap on v^2, and enthalpy per energy at the energy ceiling. */
  datatype Gas = Gas(gamma: real, b: real, P: real, Q: real, n: real, cap: real, r1: real)

  ghost predicate Sound(g: Gas) {
    1.0 <= g.gamma <= 2.0 && 1.0 <= g.r1 <= 2.0 && g.b >= 0.0 && g.P >= 0.0 && g.Q >= 0.0 && g.cap < 1.0
  }

  /** And what depends on it: 1 / mu, y, c = 1 / W, N, v^2 before the cap, the enthalpy at the energy floor. */
  datatype At = At(mu: real, i: real, y: real, c: real, N: real, S: real, h: real, nu: real)

  ghost predicate Sees(g: Gas, k: At) {
    && Inverse(g.b, k.mu, k.i, k.y) && k.S == Speed(g.P, g.Q, k.mu, k.y) && k.h >= 1.0
    && k.c > 0.0 && Sq(k.c) == 1.0 - Min(k.S, g.cap)
    && k.N == g.n - 0.5 * (g.b * g.P * (k.y * k.y)) - Drag(g.b, g.P, g.Q, k.mu, k.y)
    && k.nu >= Prod(k.h, k.c) && (k.nu >= FreeNu(g.gamma, k.N, k.c) || k.nu >= Prod(g.r1, k.N))
    && (k.nu == Prod(k.h, k.c) || (k.nu <= FreeNu(g.gamma, k.N, k.c) && k.nu <= Prod(g.r1, k.N)))
  }

  /** The speed grows with mu and the Lorentz factor with the speed. */
  lemma FasterWithMu(g: Gas, k1: At, k2: At)
    requires Sound(g) && Sees(g, k1) && Sees(g, k2) && k1.mu < k2.mu
    ensures k1.S <= k2.S && k1.c >= k2.c
  {
    hide Drag, FreeNu;
    InverseOrder(g.b, k1.mu, k1.i, k1.y, k2.mu, k2.i, k2.y);
    SpeedOrder(g.P, g.Q, k1.mu, k1.y, k2.mu, k2.y);
    SqOrder(k2.c, k1.c);
  }

  lemma SpeedOrder(P: real, Q: real, mu1: real, y1: real, mu2: real, y2: real)
    requires P >= 0.0 && Q >= 0.0 && 0.0 < mu1 <= mu2 && 0.0 < y1 <= y2
    ensures Speed(P, Q, mu1, y1) <= Speed(P, Q, mu2, y2)
  {
    SquareOrder(y1, y2);
    SquareOrder(mu1, mu2);
    var a1, a2, b1, b2 := y1 * y1, y2 * y2, mu1 * mu1, mu2 * mu2;
    MulMono(a1, a2, P);
    MulMono(b1, b2, Q);
  }

  /** mu (X + mu rbar^2) compared with one, for any X. */
  lemma Scaled(b: real, P: real, Q: real, mu: real, i: real, y: real, X: real)
    requires Inverse(b, mu, i, y)
    ensures Prod(mu, X) + Speed(P, Q, mu, y) >= 1.0 <==> X + Drag(b, P, Q, mu, y) - i >= 0.0
    ensures Prod(mu, X) + Speed(P, Q, mu, y) > 1.0 <==> X + Drag(b, P, Q, mu, y) - i > 0.0
    ensures Prod(mu, Drag(b, P, Q, mu, y)) == Speed(P, Q, mu, y)
  {
    InverseParts(b, mu, i, y);
    DragScaled(b, P, Q, mu, i, y);
    SignOfSum(mu, X, Drag(b, P, Q, mu, y), i);
    hide *;
  }

  lemma InverseParts(b: real, mu: real, i: real, y: real)
    requires Inverse(b, mu, i, y)
    ensures mu > 0.0 && mu * i == 1.0 && y * i + b * y == 1.0
  {
  }

  lemma DragScaled(b: real, P: real, Q: real, mu: real, i: real, y: real)
    requires mu * i == 1.0 && y * i + b * y == 1.0
    ensures Prod(mu, Drag(b, P, Q, mu, y)) == Speed(P, Q, mu, y)
  {
    var z := y - b * (y * y);
    DragFactor(b, mu, i, y);
    assert mu * (z * P) == (mu * z) * P;
    assert mu * (mu * Q) == mu * mu * Q;
  }

  lemma DragFactor(b: real, mu: real, i: real, y: real)
    requires mu * i == 1.0 && y * i + b * y == 1.0
    ensures mu * (y - b * (y * y)) == y * y
  {
    assert mu * (y * i + b * y) == mu;
    assert mu * (y * i) == y * (mu * i) == y;
    assert mu * (b * y) == b * (mu * y);
    assert mu * (y - b * (y * y)) == y * (mu - b * (mu * y));
  }

  lemma SignOfSum(mu: real, X: real, d: real, i: real)
    requires mu > 0.0 && mu * i == 1.0
    ensures Prod(mu, X) + Prod(mu, d) >= 1.0 <==> X + d - i >= 0.0
    ensures Prod(mu, X) + Prod(mu, d) > 1.0 <==> X + d - i > 0.0
  {
    hide *;
    var e := X + d - i;
    SumScaled(mu, X, d, i, e);
    CancelPos(mu, e);
  }

  lemma SumScaled(mu: real, X: real, d: real, i: real, e: real)
    requires mu * i == 1.0 && e == X + d - i
    ensures mu * e == Prod(mu, X) + Prod(mu, d) - 1.0
  {
    assert mu * e == mu * X + mu * d - mu * i;
  }

  /** Where the floored value reaches 1 / mu it does so from there on. */
  lemma FloorStays(g: Gas, k1: At, k2: At)
    requires Sound(g) && Sees(g, k1) && Sees(g, k2) && k1.mu < k2.mu && k1.h <= k2.h
    requires Prod(k1.mu, Prod(k1.h, k1.c)) + k1.S >= 1.0
    ensures Prod(k2.mu, Prod(k2.h, k2.c)) + k2.S > 1.0
  {
    hide Sees;
    SeesParts(g, k1);
    SeesParts(g, k2);
    FasterWithMu(g, k1, k2);
    FloorStaysAt(k1.mu, k2.mu, k1.h, k2.h, k1.c, k2.c, k1.S, k2.S, g.cap);
  }

  lemma SeesParts(g: Gas, k: At)
    requires Sees(g, k)
    ensures k.mu > 0.0 && k.c > 0.0 && k.h >= 1.0 && Sq(k.c) == 1.0 - Min(k.S, g.cap)
  {
  }

  lemma FloorStaysAt(mu1: real, mu2: real, h1: real, h2: real, c1: real, c2: real, S1: real, S2: real, cap: real)
    requires 0.0 < mu1 < mu2 && 1.0 <= h1 <= h2 && c1 >= c2 > 0.0 && S1 <= S2
    requires Sq(c1) == 1.0 - Min(S1, cap) && Sq(c2) == 1.0 - Min(S2, cap) && Prod(mu1, Prod(h1, c1)) + S1 >= 1.0
    ensures Prod(mu2, Prod(h2, c2)) + S2 > 1.0
  {
    hide Sq, Prod;
    var m1, m2 := Prod(mu1, h1), Prod(mu2, h2);
    MoreOf(mu1, mu2, h1, h2);
    Associate(mu1, h1, c1);
    Associate(mu2, h2, c2);
    if S1 <= cap {
      // uncapped at mu1: mu1 h1 >= c1 >= c2
      AboveFactor(m1, c1);
      StrictlyMore(m1, m2, c2);
      ProdOrder(c2, m1, c2);
      SqIs(c2);
    } else {
      // the same c at both
      SameRoot(c1, c2);
      StrictlyMore(m1, m2, c2);
    }
  }

  lemma MoreOf(mu1: real, mu2: real, h1: real, h2: real)
    requires 0.0 < mu1 < mu2 && 1.0 <= h1 <= h2
    ensures Prod(mu1, h1) < Prod(mu2, h2)
  {
    MulMono(h1, h2, mu2);
    MulMonoStrict(mu1, mu2, h1);
    assert h1 * mu2 == mu2 * h1 && h2 * mu2 == mu2 * h2;
  }

  lemma Associate(a: real, b: real, c: real)
    ensures Prod(a, Prod(b, c)) == Prod(Prod(a, b), c)
  {
  }

  lemma AboveFactor(m: real, c: real)
    requires c > 0.0 && Prod(m, c) >= Sq(c)
    ensures m >= c
  {
    CancelPos(c, m - c);
    assert c * (m - c) == m * c - c * c;
  }

  lemma StrictlyMore(m1: real, m2: real, c: real)
    requires m1 < m2 && c > 0.0
    ensures Prod(m1, c) < Prod(m2, c)
  {
    MulMonoStrict(m1, m2, c);
  }

  lemma SqIs(c: real)
    ensures Sq(c) == Prod(c, c)
  {
  }

  lemma SameRoot(a: real, b: real)
    requires a >= b > 0.0 && Sq(a) == Sq(b)
    ensures a == b
  {
    SqOrder(b, a);
  }

  /** And where the free and the capped value do, below light speed. */
  lemma FreeStays(g: Gas, k1: At, k2: At)
    requires Sound(g) && Sees(g, k1) && Sees(g, k2) && k1.mu < k2.mu && k2.S < 1.0
    requires Prod(k1.mu, FreeNu(g.gamma, k1.N, k1.c)) + k1.S >= 1.0 && Prod(k1.mu, Prod(g.r1, k1.N)) + k1.S >= 1.0
    ensures Prod(k2.mu, FreeNu(g.gamma, k2.N, k2.c)) + k2.S > 1.0 && Prod(k2.mu, Prod(g.r1, k2.N)) + k2.S > 1.0
  {
    hide *;
    SoundParts(g);
    FasterWithMu(g, k1, k2);
    BothSees(g, k1);
    BothSees(g, k2);
    ExcessGrows(g.gamma - 1.0, g.n, g.b, g.P, g.Q, k1.c, k1.mu, k1.i, k1.y, k2.c, k2.mu, k2.i, k2.y);
    ExcessGrows(g.r1 - 1.0, g.n, g.b, g.P, g.Q, 0.0, k1.mu, k1.i, k1.y, 0.0, k2.mu, k2.i, k2.y);
  }

  lemma SoundParts(g: Gas)
    requires Sound(g)
    ensures 0.0 <= g.gamma - 1.0 <= 1.0 && 0.0 <= g.r1 - 1.0 <= 1.0 && g.P >= 0.0 && g.Q >= 0.0
  {
  }

  lemma BothSees(g: Gas, k: At)
    requires Sees(g, k)
    ensures Inverse(g.b, k.mu, k.i, k.y) && k.S == Speed(g.P, g.Q, k.mu, k.y)
    ensures var e := Excess(g.gamma - 1.0, g.n, k.c, g.b, g.P, g.Q, k.mu, k.i, k.y);
            var x := Prod(k.mu, FreeNu(g.gamma, k.N, k.c)) + k.S;
            (x >= 1.0 <==> e >= 0.0) && (x > 1.0 <==> e > 0.0)
    ensures var e := Excess(g.r1 - 1.0, g.n, 0.0, g.b, g.P, g.Q, k.mu, k.i, k.y);
            var x := Prod(k.mu, Prod(g.r1, k.N)) + k.S;
            (x >= 1.0 <==> e >= 0.0) && (x > 1.0 <==> e > 0.0)
  {
    hide *;
    SeesFields(g, k);
    Scaled(g.b, g.P, g.Q, k.mu, k.i, k.y, FreeNu(g.gamma, k.N, k.c));
    Scaled(g.b, g.P, g.Q, k.mu, k.i, k.y, Prod(g.r1, k.N));
    ExcessIs(g.gamma, g.n, k.c, g.b, g.P, g.Q, k.mu, k.i, k.y, k.N);
    ExcessIs(g.r1, g.n, 0.0, g.b, g.P, g.Q, k.mu, k.i, k.y, k.N);
    NoOffset(g.r1, k.N);
  }

  lemma SeesFields(g: Gas, k: At)
    requires Sees(g, k)
    ensures Inverse(g.b, k.mu, k.i, k.y) && k.S == Speed(g.P, g.Q, k.mu, k.y)
    ensures k.N == g.n - 0.5 * (g.b * g.P * (k.y * k.y)) - Drag(g.b, g.P, g.Q, k.mu, k.y)
  {
    hide Drag, Inverse, Speed, Min, Sq, FreeNu, Prod;
  }

  lemma ExcessIs(gamma: real, n: real, k: real, b: real, P: real, Q: real, mu: real, i: real, y: real, N: real)
    requires N == n - 0.5 * (b * P * (y * y)) - Drag(b, P, Q, mu, y)
    ensures Excess(gamma - 1.0, n, k, b, P, Q, mu, i, y) == FreeNu(gamma, N, k) + Drag(b, P, Q, mu, y) - i
  {
    hide Drag;
  }

  lemma NoOffset(r: real, N: real)
    ensures FreeNu(r, N, 0.0) == Prod(r, N)
  {
  }

  /** Once mu times the denominator has reached one it stays above. */
  lemma StaysAbove(g: Gas, k1: At, k2: At)
    requires Sound(g) && Sees(g, k1) && Sees(g, k2) && k1.mu < k2.mu && k1.h <= k2.h
    requires Prod(k1.mu, k1.nu) + k1.S >= 1.0
    ensures Prod(k2.mu, k2.nu) + k2.S > 1.0
  {
    hide *;
    SeesParts(g, k1);
    SeesParts(g, k2);
    NuParts(g, k1);
    NuParts(g, k2);
    ProdMono(k2.mu, Prod(k2.h, k2.c), k2.nu);
    if k1.nu == Prod(k1.h, k1.c) {
      FloorStays(g, k1, k2);
    } else if k2.S >= 1.0 {
      ProdPos(k2.h, k2.c);
      ProdPos(k2.mu, Prod(k2.h, k2.c));
    } else {
      var A1, B1 := FreeNu(g.gamma, k1.N, k1.c), Prod(g.r1, k1.N);
      ProdMono(k1.mu, k1.nu, A1);
      ProdMono(k1.mu, k1.nu, B1);
      FreeStays(g, k1, k2);
      var A2, B2 := FreeNu(g.gamma, k2.N, k2.c), Prod(g.r1, k2.N);
      if k2.nu >= A2 { ProdMono(k2.mu, A2, k2.nu); } else { ProdMono(k2.mu, B2, k2.nu); }
    }
  }

  lemma NuParts(g: Gas, k: At)
    requires Sees(g, k)
    ensures k.nu >= Prod(k.h, k.c) && (k.nu >= FreeNu(g.gamma, k.N, k.c) || k.nu >= Prod(g.r1, k.N))
    ensures k.nu == Prod(k.h, k.c) || (k.nu <= FreeNu(g.gamma, k.N, k.c) && k.nu <= Prod(g.r1, k.N))
  {
    hide FreeNu, Prod, Drag, Speed, Inverse;
  }

  // ---------------------------------------------------------------------------------------------
  // From the problem to the gas.

  /** The square of r along b. */
  function AlongField(p: Problem): real { if p.bsq == 0.0 then 0.0 else p.rbsq / p.bsq }

  lemma FieldParts(p: Problem)
    requires p.Admissible()
    ensures p.bsq >= 0.0 && 0.0 <= AlongField(p) <= p.rsq && Prod(p.bsq, AlongField(p)) == p.rbsq
  {
    hide Env.Admissible;
    if p.bsq > 0.0 {
      DivNonneg(p.rbsq, p.bsq);
      DivMul(p.rbsq, p.bsq);
      DivLe(p.rbsq, p.bsq, p.rsq);
      assert p.rsq * p.bsq == p.bsq * p.rsq;
    }
  }

  /** Enthalpy per energy at the ceiling. */
  function CappedRatio(gamma: real, w: real): real
    requires w >= 1.0
  {
    Enthalpic(gamma, w) / w
  }

  lemma CappedRange(gamma: real, w: real)
    requires 1.0 <= gamma <= 2.0 && w >= 1.0
    ensures 1.0 <= CappedRatio(gamma, w) <= 2.0 && Prod(CappedRatio(gamma, w), w) == Enthalpic(gamma, w)
  {
    var g, r := gamma - 1.0, CappedRatio(gamma, w);
    DivMul(Enthalpic(gamma, w), w);
    MulNonneg(g, w - 1.0);
    var over, under := r - 1.0, gamma - r;
    assert w * over == g * (w - 1.0);
    assert w * under == g;
    CancelPos(w, over);
    CancelPos(w, under);
  }

  ghost function GasOf(p: Problem, gamma: real): Gas
    requires Searched(p, gamma) && p.env.sieMax >= 0.0
  {
    Gas(gamma, p.bsq, p.rsq - AlongField(p), AlongField(p), 1.0 + p.q - 0.5 * p.bsq, p.V0sq(),
        CappedRatio(gamma, 1.0 + p.env.sieMax))
  }

  lemma GasSound(p: Problem, gamma: real)
    requires Searched(p, gamma) && p.env.sieMax >= 0.0
    ensures Sound(GasOf(p, gamma))
  {
    hide Env.Admissible, VelocityBound, CappedRatio, AlongField, Dense;
    FieldParts(p);
    CappedRange(gamma, 1.0 + p.env.sieMax);
  }

  /** 0 <= SieFloor(RhoFloor) <= sieMax. */
  lemma CeilingNonneg(env: Env, gamma: real, ye: real)
    requires GammaLaw(env, gamma, ye)
    ensures env.sieMax >= 0.0
  {
    hide Env.SieFloor;
    assert 0.0 <= env.SieFloor(env.RhoFloor(), ye) <= env.sieMax;
  }

  lemma SearchedParts(p: Problem, gamma: real)
    requires Searched(p, gamma)
    ensures p.Admissible() && p.bsqRpsq == p.bsq * p.rsq - p.rbsq && GammaLaw(p.env, gamma, p.ye) && Dense(p)
    ensures p.h0 > 0.0 && p.rsq >= 0.0 && p.env.gamMax >= 1.0 && 1.0 <= gamma <= 2.0 && p.env.sieMax >= 0.0
  {
    hide Env.Admissible, Dense, Env.SieFloor;
    CeilingNonneg(p.env, gamma, p.ye);
  }

  /** x, rbar^2 and qbar in terms of the two parts of the momentum. */
  lemma FieldSplit(b: real, P: real, Q: real, rsq: real, rbsq: real, mu: real, x: real, y: real, R: real)
    requires b >= 0.0 && mu > 0.0 && x * (1.0 + mu * b) == 1.0 && y == Prod(mu, x)
    requires R == x * (x * rsq + mu * (1.0 + x) * rbsq) && P == rsq - Q && Prod(b, Q) == rbsq
    ensures Inverse(b, mu, 1.0 / mu, y) && Prod(mu, R) == Drag(b, P, Q, mu, y) && VsqTrial(mu, R) == Speed(P, Q, mu, y)
  {
    hide Drag, Speed;
    InverseAt(b, mu, x, y);
    RadialIs(b, P, Q, rsq, rbsq, mu, x, R);
    DragAt(b, P, Q, mu, x, y, R);
  }

  lemma InverseAt(b: real, mu: real, x: real, y: real)
    requires b >= 0.0 && mu > 0.0 && x * (1.0 + mu * b) == 1.0 && y == Prod(mu, x)
    ensures Inverse(b, mu, 1.0 / mu, y)
  {
    var i := 1.0 / mu;
    assert mu * i == 1.0;
    MulNonneg(mu, b);
    CancelPos(1.0 + mu * b, x);
    assert (1.0 + mu * b) * x == 1.0;
    MulPos(mu, x);
    assert y * (i + b) == x * (mu * i) + x * (mu * b);
  }

  lemma RadialIs(b: real, P: real, Q: real, rsq: real, rbsq: real, mu: real, x: real, R: real)
    requires x * (1.0 + mu * b) == 1.0 && R == x * (x * rsq + mu * (1.0 + x) * rbsq) && P == rsq - Q && Prod(b, Q) == rbsq
    ensures R == Prod(Sq(x), P) + Q
  {
    var z := x * (mu * b);
    assert z == 1.0 - x;
    assert R == x * x * rsq + (1.0 + x) * (z * Q) by {
      assert x * (mu * (1.0 + x) * (b * Q)) == (1.0 + x) * (x * (mu * b) * Q);
    }
    assert (1.0 + x) * ((1.0 - x) * Q) == Q - x * x * Q;
  }

  lemma DragAt(b: real, P: real, Q: real, mu: real, x: real, y: real, R: real)
    requires x * (1.0 + mu * b) == 1.0 && y == Prod(mu, x) && R == Prod(Sq(x), P) + Q
    ensures Prod(mu, R) == Drag(b, P, Q, mu, y) && VsqTrial(mu, R) == Speed(P, Q, mu, y)
  {
    var w := y - b * (y * y);
    assert w == mu * (x * x) by {
      assert b * (y * y) == mu * x * (x * (mu * b));
      assert x * (mu * b) == 1.0 - x;
      assert mu * x * (1.0 - x) == y - mu * (x * x);
    }
    var k := x * x;
    assert mu * (k * P + Q) == (mu * k) * P + mu * Q;
    assert y * y == mu * mu * k;
    assert mu * mu * (k * P + Q) == (mu * mu * k) * P + mu * mu * Q;
  }

  lemma QbarIs(b: real, P: real, Q: real, rsq: real, rbsq: real, bR: real, q: real, mu: real, x: real, y: real, qbar: real)
    requires bR == b * rsq - rbsq && P == rsq - Q && Prod(b, Q) == rbsq && y == Prod(mu, x)
    requires qbar == q - 0.5 * (b + (mu * x) * (mu * x) * bR)
    ensures 1.0 + qbar == (1.0 + q - 0.5 * b) - 0.5 * (b * P * (y * y))
  {
    assert bR == b * P;
  }

  /** The state at mu as the scalar lemmas see it. */
  ghost function AtOf(p: Problem, gamma: real, mu: real): At
    requires Searched(p, gamma) && mu > 0.0
  {
    var s := p.State(mu);
    At(mu, 1.0 / mu, Prod(mu, s.x), s.iW, 1.0 + s.qbar - Prod(mu, s.rbarsq), VsqTrial(mu, s.rbarsq),
       Enthalpic(gamma, 1.0 + p.env.SieFloor(s.rho, p.ye)),
       NuHat(p.env.AHat(s.rho, s.eps, p.ye), s.eps, s.iW, s.qbar, mu, s.rbarsq))
  }

  /** The density at every mu keeps the guard idle. */
  lemma DensityKept(p: Problem, mu: real)
    requires p.Admissible() && mu >= 0.0 && p.h0 > 0.0 && p.rsq >= 0.0 && p.env.gamMax >= 1.0 && Dense(p)
    ensures p.State(mu).rho >= EPS && p.State(mu).rho >= p.env.RhoFloor()
  {
    hide *;
    var s := p.State(mu);
    DensityIs(p, mu, s);
    DenseAt(p, mu, s);
  }

  lemma VelocityRange(p: Problem)
    requires p.h0 > 0.0 && p.rsq >= 0.0 && p.env.gamMax >= 1.0
    ensures 0.0 <= p.V0sq() < 1.0
  {
    hide VelocityBound;
  }

  lemma DensityIs(p: Problem, mu: real, s: Hat)
    requires p.h0 > 0.0 && p.rsq >= 0.0 && p.env.gamMax >= 1.0 && s == p.State(mu)
    ensures s.rho == p.env.RhoHat(p.D, s.iW) && s.rho >= p.env.RhoFloor() && s.rho >= p.D * s.iW
    ensures s.vhatsq == Min(VsqTrial(mu, s.rbarsq), p.V0sq())
  {
    hide Problem.X, Problem.RbarSq, Problem.Qbar, Problem.V0sq, VsqTrial, SieTrial, Env.SieFloor, Env.SieHat, Ratio,
         Env.RhoFloor;
  }

  lemma DenseIs(p: Problem, v: real, c: real)
    requires p.h0 > 0.0 && p.rsq >= 0.0 && p.env.gamMax >= 1.0 && Dense(p) && v == p.V0sq()
    requires 0.0 <= p.env.sqrt(1.0 - v) <= c
    ensures p.env.RhoFloor() >= EPS || p.D * c >= EPS
  {
    hide VelocityBound, Env.RhoFloor;
    var c0 := p.env.sqrt(1.0 - v);
    if p.D * c0 >= EPS {
      NonnegFactor(p.D, c0);
      MulMono(c0, c, p.D);
      assert c0 * p.D == p.D * c0 && c * p.D == p.D * c;
    }
  }

  lemma NonnegFactor(a: real, b: real)
    requires b >= 0.0 && a * b > 0.0
    ensures a >= 0.0
  {
    SignOfProduct(a, b);
  }

  /** A slower fluid is at least as dense. */
  lemma DenserWhenSlower(env: Env, D: real, c1: real, c2: real)
    requires c1 >= c2 > 0.0 && (env.RhoFloor() >= EPS || D * c2 >= EPS)
    ensures env.RhoHat(D, c1) >= env.RhoHat(D, c2) >= env.RhoFloor()
  {
    hide Env.RhoFloor;
    if D >= 0.0 {
      MulMono(c2, c1, D);
      assert c2 * D == D * c2 && c1 * D == D * c1;
    } else {
      MulNonneg(-D, c2);
      assert -D * c2 == -(D * c2);
    }
  }

  /** (1 + a)(1 + eps) is the enthalpy while the guard is idle. */
  lemma LawRatio(env: Env, gamma: real, ye: real, rho: real, eps: real)
    requires GammaLaw(env, gamma, ye) && rho >= EPS && eps >= 0.0
    ensures Prod(1.0 + env.AHat(rho, eps, ye), 1.0 + eps) == Enthalpic(gamma, 1.0 + eps)
  {
    hide Env.SieFloor, Env.AHat, Env.RhoFloor;
    var e, prs := rho * (1.0 + eps), (gamma - 1.0) * (rho * eps);
    MulNonneg(rho, eps);
    AHatIs(env, rho, eps, ye, env.pressure(rho, eps, ye), e);
    var a := env.AHat(rho, eps, ye);
    assert a == prs / e;
    DivMul(prs, e);
    var k := a * (1.0 + eps) - (gamma - 1.0) * eps;
    assert k * rho == a * e - prs;
    CancelPos(rho, k);
    CancelPos(rho, -k);
    assert rho * k == 0.0 && rho * -k == 0.0;
  }

  lemma FloorRange(env: Env, gamma: real, ye: real, rho: real)
    requires GammaLaw(env, gamma, ye) && rho >= env.RhoFloor()
    ensures 0.0 <= env.SieFloor(rho, ye) <= env.sieMax
  {
    hide Env.SieFloor, Env.RhoFloor;
  }

  /** The energy is the trial energy between floor and ceiling. */
  lemma EnergyIs(p: Problem, mu: real, s: Hat)
    requires p.h0 > 0.0 && p.rsq >= 0.0 && p.env.gamMax >= 1.0 && s == p.State(mu) && Ratio(1.0, s.W) == s.iW
    ensures s.eps == p.env.SieHat(SieTrial(mu, s.qbar, s.rbarsq, s.vhatsq, s.W), p.env.SieFloor(s.rho, p.ye))
  {
    hide Problem.X, Problem.RbarSq, Problem.Qbar, Problem.V0sq, VsqTrial, SieTrial, Env.SieFloor, Env.SieHat, Ratio,
         Env.RhoFloor;
  }

  lemma ClampIs(env: Env, trial: real, floor: real, eps: real)
    requires eps == env.SieHat(trial, floor) && 0.0 <= floor <= env.sieMax
    ensures eps >= 0.0
    ensures var n, w0, w1 := 1.0 + trial, 1.0 + floor, 1.0 + env.sieMax;
            1.0 + eps == if n <= w0 then w0 else if n > w1 then w1 else n
  {
  }

  lemma NuIs(a: real, eps: real, iW: real, qbar: real, mu: real, R: real)
    ensures NuHat(a, eps, iW, qbar, mu, R)
            == Max(Prod(Prod(1.0 + a, 1.0 + eps), iW), Prod(1.0 + a, 1.0 + qbar - Prod(mu, R)))
  {
    hide *;
    NuRaw(a, eps, iW, qbar, mu, R);
    FirstFactor(a, eps, iW);
    SecondFactor(a, qbar, mu, R);
  }

  lemma NuRaw(a: real, eps: real, iW: real, qbar: real, mu: real, R: real)
    ensures NuHat(a, eps, iW, qbar, mu, R) == Max((1.0 + a) * (1.0 + eps) * iW, (1.0 + a) * (1.0 + qbar - mu * R))
  {
    hide Max;
  }

  lemma FirstFactor(a: real, eps: real, iW: real)
    ensures (1.0 + a) * (1.0 + eps) * iW == Prod(Prod(1.0 + a, 1.0 + eps), iW)
  {
  }

  lemma SecondFactor(a: real, qbar: real, mu: real, R: real)
    ensures (1.0 + a) * (1.0 + qbar - mu * R) == Prod(1.0 + a, 1.0 + qbar - Prod(mu, R))
  {
  }

  /** nu at mu. */
  lemma NuAt(p: Problem, gamma: real, mu: real, s: Hat, k: At)
    requires Searched(p, gamma) && mu > 0.0 && s == p.State(mu) && k == AtOf(p, gamma, mu) && p.env.sieMax >= 0.0
    ensures var r1 := CappedRatio(gamma, 1.0 + p.env.sieMax);
            && k.h >= 1.0 && k.nu >= Prod(k.h, k.c) && (k.nu >= FreeNu(gamma, k.N, k.c) || k.nu >= Prod(r1, k.N))
            && (k.nu == Prod(k.h, k.c) || (k.nu <= FreeNu(gamma, k.N, k.c) && k.nu <= Prod(r1, k.N)))
  {
    hide *;
    SearchedParts(p, gamma);
    VelocitySane(p, mu);
    DensityKept(p, mu);
    var floor, trial := p.env.SieFloor(s.rho, p.ye), SieTrial(mu, s.qbar, s.rbarsq, s.vhatsq, s.W);
    FloorRange(p.env, gamma, p.ye, s.rho);
    EnergyIs(p, mu, s);
    ClampIs(p.env, trial, floor, s.eps);
    EnergyBack(mu, s.qbar, s.rbarsq, s.vhatsq, s.W, s.iW, trial);
    LawRatio(p.env, gamma, p.ye, s.rho, s.eps);
    CappedRange(gamma, 1.0 + p.env.sieMax);
    EnthalpicOrder(gamma, 1.0 + floor, 1.0 + floor);
    var a := p.env.AHat(s.rho, s.eps, p.ye);
    NuIs(a, s.eps, s.iW, s.qbar, mu, s.rbarsq);
    AtIs(p, gamma, mu, s, k, a);
    NuCases(gamma, k.N, k.c, 1.0 + trial, 1.0 + floor, 1.0 + p.env.sieMax, 1.0 + s.eps, 1.0 + a,
            CappedRatio(gamma, 1.0 + p.env.sieMax), k.nu);
  }

  lemma AtIs(p: Problem, gamma: real, mu: real, s: Hat, k: At, a: real)
    requires Searched(p, gamma) && mu > 0.0 && s == p.State(mu) && k == AtOf(p, gamma, mu)
    requires a == p.env.AHat(s.rho, s.eps, p.ye)
    ensures k.mu == mu && k.i == 1.0 / mu && k.y == Prod(mu, s.x) && k.c == s.iW
    ensures k.N == 1.0 + s.qbar - Prod(mu, s.rbarsq) && k.S == VsqTrial(mu, s.rbarsq)
    ensures k.h == Enthalpic(gamma, 1.0 + p.env.SieFloor(s.rho, p.ye))
    ensures k.nu == NuHat(a, s.eps, s.iW, s.qbar, mu, s.rbarsq)
  {
    hide Problem.State, NuHat, Env.AHat, Env.SieFloor, Enthalpic, VsqTrial, Prod, Searched;
  }

  /** Momentum and energy at mu. */
  lemma FieldAt(p: Problem, gamma: real, mu: real, s: Hat, k: At)
    requires Searched(p, gamma) && mu > 0.0 && s == p.State(mu) && k == AtOf(p, gamma, mu) && p.env.sieMax >= 0.0
    ensures var g := GasOf(p, gamma);
            && Inverse(g.b, k.mu, k.i, k.y) && k.S == Speed(g.P, g.Q, k.mu, k.y)
            && k.N == g.n - 0.5 * (g.b * g.P * (k.y * k.y)) - Drag(g.b, g.P, g.Q, k.mu, k.y)
  {
    hide *;
    SearchedParts(p, gamma);
    AtIs(p, gamma, mu, s, k, p.env.AHat(s.rho, s.eps, p.ye));
    StateFields(p, mu, s);
    QbarField(p, mu, s);
    GasIs(p, gamma, GasOf(p, gamma));
    FieldParts(p);
    FieldInverse(p, mu, s.x, p.bsq);
    var Q := AlongField(p);
    var P := p.rsq - Q;
    var N0 := Prod(mu, s.rbarsq);
    assert VsqTrial(mu, s.rbarsq) == Speed(P, Q, mu, k.y) && N0 == Drag(p.bsq, P, Q, mu, k.y)
      && Inverse(p.bsq, mu, 1.0 / mu, k.y) by {
      UnfoldRbar(p, mu, s.x, p.rsq, p.rbsq);
      FieldSplit(p.bsq, P, Q, p.rsq, p.rbsq, mu, s.x, k.y, s.rbarsq);
    }
    assert 1.0 + s.qbar == (1.0 + p.q - 0.5 * p.bsq) - 0.5 * (p.bsq * P * (k.y * k.y)) by {
      UnfoldQbar(p, mu, s.x, p.q, p.bsq, p.bsqRpsq);
      QbarIs(p.bsq, P, Q, p.rsq, p.rbsq, p.bsqRpsq, p.q, mu, s.x, k.y, s.qbar);
    }
  }

  lemma QbarField(p: Problem, mu: real, h: Hat)
    requires p.h0 > 0.0 && p.rsq >= 0.0 && p.env.gamMax >= 1.0 && h == p.State(mu)
    ensures h.qbar == p.Qbar(mu, h.x)
  {
    hide Problem.X, Problem.RbarSq, Problem.Qbar, Problem.V0sq, VsqTrial, SieTrial, Env.SieFloor, Env.SieHat, Ratio;
  }

  lemma GasIs(p: Problem, gamma: real, g: Gas)
    requires Searched(p, gamma) && p.env.sieMax >= 0.0 && g == GasOf(p, gamma)
    ensures g.gamma == gamma && g.b == p.bsq && g.P == p.rsq - AlongField(p) && g.Q == AlongField(p)
    ensures g.n == 1.0 + p.q - 0.5 * p.bsq && g.r1 == CappedRatio(gamma, 1.0 + p.env.sieMax)
    ensures p.h0 > 0.0 && p.rsq >= 0.0 && p.env.gamMax >= 1.0 && g.cap == p.V0sq()
  {
    hide AlongField, CappedRatio, Problem.Admissible, Dense, GammaLaw, VelocityBound;
  }

  lemma SeesState(p: Problem, gamma: real, mu: real, k: At)
    requires Searched(p, gamma) && mu > 0.0 && k == AtOf(p, gamma, mu) && p.env.sieMax >= 0.0
    ensures Sees(GasOf(p, gamma), k)
  {
    hide *;
    SearchedParts(p, gamma);
    var s := p.State(mu);
    VelocitySane(p, mu);
    DensityIs(p, mu, s);
    AtIs(p, gamma, mu, s, k, p.env.AHat(s.rho, s.eps, p.ye));
    GasIs(p, gamma, GasOf(p, gamma));
    NuAt(p, gamma, mu, s, k);
    FieldAt(p, gamma, mu, s, k);
    SeesIs(GasOf(p, gamma), k);
  }

  lemma SeesIs(g: Gas, k: At)
    requires Inverse(g.b, k.mu, k.i, k.y) && k.S == Speed(g.P, g.Q, k.mu, k.y) && k.h >= 1.0
    requires k.c > 0.0 && Sq(k.c) == 1.0 - Min(k.S, g.cap)
    requires k.N == g.n - 0.5 * (g.b * g.P * (k.y * k.y)) - Drag(g.b, g.P, g.Q, k.mu, k.y)
    requires k.nu >= Prod(k.h, k.c) && (k.nu >= FreeNu(g.gamma, k.N, k.c) || k.nu >= Prod(g.r1, k.N))
    requires k.nu == Prod(k.h, k.c) || (k.nu <= FreeNu(g.gamma, k.N, k.c) && k.nu <= Prod(g.r1, k.N))
    ensures Sees(g, k)
  {
    hide Drag, Speed, Inverse, FreeNu, Prod, Sq, Min;
  }

  /** The sign of the master function in those terms. */
  lemma ValueAt(p: Problem, gamma: real, mu: real, k: At)
    requires Searched(p, gamma) && mu > 0.0 && k == AtOf(p, gamma, mu) && p.Admissible()
    ensures p.Value(mu) >= 0.0 <==> Prod(k.mu, k.nu) + k.S >= 1.0
    ensures p.Value(mu) == 0.0 <==> Prod(k.mu, k.nu) + k.S == 1.0
  {
    hide *;
    SearchedParts(p, gamma);
    var s := p.State(mu);
    var a := p.env.AHat(s.rho, s.eps, p.ye);
    AtIs(p, gamma, mu, s, k, a);
    DenominatorIs(p, mu, s, a);
    var den := p.Denominator(mu);
    TimesSum(mu, k.nu, s.rbarsq);
    ValueSign(p, mu, den, Prod(mu, den));
  }

  lemma TimesSum(mu: real, nu: real, R: real)
    ensures Prod(mu, nu + Prod(mu, R)) == Prod(mu, nu) + VsqTrial(mu, R)
  {
  }

  /** The master function changes sign once: where it has reached zero it is positive from there on. */
  lemma ChangesSignOnce(p: Problem, gamma: real, mu1: real, mu2: real)
    requires Searched(p, gamma) && p.Admissible() && 0.0 <= mu1 < mu2 && p.Value(mu1) >= 0.0
    ensures p.Value(mu2) > 0.0
  {
    hide *;
    NegativeAtZero(p);
    SearchedParts(p, gamma);
    var k1, k2 := AtOf(p, gamma, mu1), AtOf(p, gamma, mu2);
    ValueAt(p, gamma, mu1, k1);
    ValueAt(p, gamma, mu2, k2);
    SeesState(p, gamma, mu1, k1);
    SeesState(p, gamma, mu2, k2);
    GasSound(p, gamma);
    AtIs(p, gamma, mu1, p.State(mu1), k1, p.env.AHat(p.State(mu1).rho, p.State(mu1).eps, p.ye));
    AtIs(p, gamma, mu2, p.State(mu2), k2, p.env.AHat(p.State(mu2).rho, p.State(mu2).eps, p.ye));
    FasterWithMu(GasOf(p, gamma), k1, k2);
    FloorGrows(p, gamma, mu1, mu2, k1, k2);
    StaysAbove(GasOf(p, gamma), k1, k2);
  }

  /** The energy floor of the faster fluid is no lower. */
  lemma FloorGrows(p: Problem, gamma: real, mu1: real, mu2: real, k1: At, k2: At)
    requires Searched(p, gamma) && 0.0 < mu1 < mu2 && k1 == AtOf(p, gamma, mu1) && k2 == AtOf(p, gamma, mu2)
    requires k1.c >= k2.c
    ensures k1.h <= k2.h
  {
    hide *;
    SearchedParts(p, gamma);
    var s1, s2 := p.State(mu1), p.State(mu2);
    AtIs(p, gamma, mu1, s1, k1, p.env.AHat(s1.rho, s1.eps, p.ye));
    AtIs(p, gamma, mu2, s2, k2, p.env.AHat(s2.rho, s2.eps, p.ye));
    VelocitySane(p, mu2);
    DensityIs(p, mu1, s1);
    DensityIs(p, mu2, s2);
    DenseAt(p, mu2, s2);
    DenserWhenSlower(p.env, p.D, s1.iW, s2.iW);
    FloorOrder(p.env, gamma, p.ye, s2.rho, s1.rho);
    EnthalpicOrder(gamma, 1.0 + p.env.SieFloor(s1.rho, p.ye), 1.0 + p.env.SieFloor(s2.rho, p.ye));
  }

  lemma DenseAt(p: Problem, mu: real, s: Hat)
    requires p.Admissible() && mu >= 0.0 && p.h0 > 0.0 && p.rsq >= 0.0 && p.env.gamMax >= 1.0 && Dense(p) && s == p.State(mu)
    ensures p.env.RhoFloor() >= EPS || p.D * s.iW >= EPS
  {
    hide *;
    VelocitySane(p, mu);
    DensityIs(p, mu, s);
    SqrtGood(p);
    var v := p.V0sq();
    VelocityRange(p);
    MinBelow(VsqTrial(mu, s.rbarsq), v);
    RootOf(p.env.sqrt, 1.0 - v);
    SqOrder(p.env.sqrt(1.0 - v), s.iW);
    DenseIs(p, v, s.iW);
  }

  lemma MinBelow(a: real, b: real)
    ensures Min(a, b) <= b
  {
  }

  lemma FloorOrder(env: Env, gamma: real, ye: real, r1: real, r2: real)
    requires GammaLaw(env, gamma, ye) && env.RhoFloor() <= r1 <= r2
    ensures 0.0 <= env.SieFloor(r2, ye) <= env.SieFloor(r1, ye)
  {
    hide Env.SieFloor, Env.RhoFloor;
  }

  // ---------------------------------------------------------------------------------------------
  // The search.

  /** For every equation of state: 1 / h0 is a root only without momentum. */
  lemma RootAtInverse(p: Problem)
    requires p.Admissible() && p.h0 > 0.0 && p.Value(1.0 / p.h0) == 0.0
    ensures p.rsq == 0.0
  {
    hide *;
    Defined(p);
    var mu, s := 1.0 / p.h0, p.State(1.0 / p.h0);
    InverseOf(p.h0, mu);
    VelocitySane(p, mu);
    DenominatorPositive(p, mu);
    var den := p.Denominator(mu);
    ValueSign(p, mu, den, Prod(mu, den));
    ProdMono(mu, NuBound(p.h0, s.iW, mu, s.rbarsq), den);
    DenominatorExpand(p.h0, s.iW, mu, s.rbarsq);
    AtRest(mu, s.iW, s.vhatsq, s.rbarsq);
    StateRbar(p, mu);
    NoMomentumLeft(p, mu);
  }

  lemma InverseOf(h0: real, mu: real)
    requires h0 > 0.0 && mu == 1.0 / h0
    ensures mu > 0.0 && Prod(mu, h0) == 1.0
  {
    DivPos(1.0, h0);
    DivMul(1.0, h0);
  }

  lemma AtRest(mu: real, c: real, v: real, R: real)
    requires mu > 0.0 && c > 0.0 && Sq(c) == 1.0 - v && v <= VsqTrial(mu, R) && R >= 0.0
    requires Prod(1.0, c) + VsqTrial(mu, R) <= 1.0
    ensures R == 0.0
  {
    // c^2 >= 1 - v >= c
    var S := VsqTrial(mu, R);
    CancelPos(c, c - 1.0);
    assert c * (c - 1.0) == c * c - c;
    var m := mu * mu;
    SquareIsPos(mu, m);
    CancelPos(m, R);
  }

  lemma NoMomentumLeft(p: Problem, mu: real)
    requires p.Admissible() && mu > 0.0 && p.RbarSq(mu, p.X(mu)) == 0.0
    ensures p.rsq == 0.0
  {
    hide Env.Admissible;
    var x := p.X(mu);
    MulNonneg(mu, p.bsq);
    DivPos(1.0, 1.0 + mu * p.bsq);
    var w := mu * (1.0 + x);
    MulNonneg(w, p.rbsq);
    var t := x * p.rsq + w * p.rbsq;
    CancelPos(x, t);
    assert x * t == 0.0;
    MulNonneg(x, p.rsq);
    CancelPos(x, p.rsq);
  }

  /** Without momentum the denominator does not depend on mu. */
  lemma SteadyDenominator(p: Problem, mu1: real, mu2: real)
    requires p.Admissible() && p.rsq == 0.0 && p.bsqRpsq == p.bsq * p.rsq - p.rbsq && mu1 >= 0.0 && mu2 >= 0.0
    requires p.h0 > 0.0 && p.env.gamMax >= 1.0
    ensures p.Denominator(mu1) == p.Denominator(mu2)
  {
    hide *;
    var s1, s2 := p.State(mu1), p.State(mu2);
    StillState(p, mu1, s1);
    StillState(p, mu2, s2);
    var a := p.env.AHat(s1.rho, s1.eps, p.ye);
    DenominatorIs(p, mu1, s1, a);
    DenominatorIs(p, mu2, s2, a);
    StillNu(a, s1.eps, s1.iW, s1.qbar, mu1, mu2);
  }

  lemma StillNu(a: real, eps: real, iW: real, qbar: real, mu1: real, mu2: real)
    ensures NuHat(a, eps, iW, qbar, mu1, 0.0) == NuHat(a, eps, iW, qbar, mu2, 0.0)
    ensures Prod(mu1, 0.0) == Prod(mu2, 0.0)
  {
  }

  lemma StillState(p: Problem, mu: real, s: Hat)
    requires p.Admissible() && p.rsq == 0.0 && p.bsqRpsq == p.bsq * p.rsq - p.rbsq && mu >= 0.0
    requires p.h0 > 0.0 && p.env.gamMax >= 1.0 && s == p.State(mu)
    ensures var iW := p.env.sqrt(1.0);
            var W := Ratio(1.0, iW);
            var qbar := p.q - 0.5 * p.bsq;
            && s.rbarsq == 0.0 && s.qbar == qbar && s.iW == iW && s.rho == p.env.RhoHat(p.D, iW)
            && s.eps == p.env.SieHat(SieTrial(0.0, qbar, 0.0, 0.0, W), p.env.SieFloor(p.env.RhoHat(p.D, Ratio(1.0, W)), p.ye))
  {
    hide *;
    StillField(p, mu);
    VelocityRange(p);
    StillTrial(mu, p.q - 0.5 * p.bsq, Ratio(1.0, p.env.sqrt(1.0)));
    StateUnfold(p, mu, s);
  }

  lemma StillField(p: Problem, mu: real)
    requires p.Admissible() && p.rsq == 0.0 && p.bsqRpsq == p.bsq * p.rsq - p.rbsq
    ensures p.RbarSq(mu, p.X(mu)) == 0.0 && p.Qbar(mu, p.X(mu)) == p.q - 0.5 * p.bsq
  {
    hide Env.Admissible, Problem.X;
  }

  lemma StillTrial(mu: real, qbar: real, W: real)
    ensures VsqTrial(mu, 0.0) == 0.0 && SieTrial(mu, qbar, 0.0, 0.0, W) == SieTrial(0.0, qbar, 0.0, 0.0, W)
  {
  }

  lemma StateUnfold(p: Problem, mu: real, s: Hat)
    requires p.h0 > 0.0 && p.rsq >= 0.0 && p.env.gamMax >= 1.0 && s == p.State(mu)
    requires VsqTrial(mu, p.RbarSq(mu, p.X(mu))) == 0.0 <= p.V0sq()
    ensures var R, qbar, iW := p.RbarSq(mu, p.X(mu)), p.Qbar(mu, p.X(mu)), p.env.sqrt(1.0);
            var W := Ratio(1.0, iW);
            && s.rbarsq == R && s.qbar == qbar && s.iW == iW && s.rho == p.env.RhoHat(p.D, iW)
            && s.eps == p.env.SieHat(SieTrial(mu, qbar, R, 0.0, W), p.env.SieFloor(p.env.RhoHat(p.D, Ratio(1.0, W)), p.ye))
  {
    hide Problem.X, Problem.RbarSq, Problem.Qbar, Problem.V0sq, VsqTrial, SieTrial, Env.SieFloor, Env.SieHat, Env.RhoHat,
         Ratio;
    assert 1.0 - 0.0 == 1.0;
  }

  /** For every equation of state, the search can be undefined only from r == h0 on. */
  lemma TwoRootsTakeMomentum(p: Problem, tol: real, maxIter: nat, guess: real)
    requires p.Admissible() && Searchable(p) && p.bsqRpsq == p.bsq * p.rsq - p.rbsq && tol >= 0.0
    requires TwoRoots(p, tol, maxIter, guess)
    ensures p.rsq >= p.h0 * p.h0
  {
    hide *;
    Defined(p);
    TwoRootsParts(p, tol, maxIter, guess);
    if p.rsq < p.h0 * p.h0 {
      BoundBelow(p);
      RootAtInverse(p);
      var b := 1.0 / p.h0;
      SteadyDenominator(p, guess, b);
      ValueIs(p, guess);
      ValueIs(p, b);
    }
  }

  lemma TwoRootsParts(p: Problem, tol: real, maxIter: nat, guess: real)
    requires p.Admissible() && Searchable(p) && tol >= 0.0 && TwoRoots(p, tol, maxIter, guess)
    ensures BoundOf(p).Root? && 0.0 <= guess < BoundOf(p).x && p.Value(guess) == 0.0 == p.Value(BoundOf(p).x)
  {
    hide Problem.Admissible, Searchable, BoundOf, Problem.Value;
  }

  lemma BoundBelow(p: Problem)
    requires Searchable(p) && p.rsq < p.h0 * p.h0
    ensures p.h0 > 0.0 && BoundOf(p) == Root(1.0 / p.h0)
  {
    hide ItpResult, Problem.Aux;
  }

  lemma ValueIs(p: Problem, mu: real)
    requires p.Admissible() && mu >= 0.0 && p.h0 > 0.0 && p.rsq >= 0.0 && p.env.gamMax >= 1.0
    ensures p.Denominator(mu) > 0.0 && p.Value(mu) == mu - 1.0 / p.Denominator(mu)
  {
    hide Problem.Admissible, Problem.Denominator;
    DenominatorPositive(p, mu);
  }

  /** For the ideal gas it never is. */
  lemma NeverUndefined(p: Problem, gamma: real, tol: real, maxIter: nat, guess: real)
    requires Searched(p, gamma) && p.Admissible() && Searchable(p) && tol >= 0.0
    ensures !TwoRoots(p, tol, maxIter, guess)
  {
    hide *;
    if TwoRoots(p, tol, maxIter, guess) {
      TwoRootsParts(p, tol, maxIter, guess);
      ChangesSignOnce(p, gamma, guess, BoundOf(p).x);
    }
  }

  /** The bound of the search reaches the root. */
  ghost predicate Reaches(p: Problem, root: real)
    requires Searchable(p)
  {
    BoundOf(p).Root? && root <= BoundOf(p).x
  }

  /** The search is given up exactly when its bound does not reach the root. */
  lemma GivenUpShort(p: Problem, gamma: real, guess: real, root: real)
    requires Searched(p, gamma) && p.Admissible() && Searchable(p) && root >= 0.0 && p.Value(root) == 0.0
    ensures GivenUp(p, guess) <==> !Reaches(p, root)
  {
    hide Problem.Admissible, Searched, Searchable, BoundOf, Problem.Value;
    BoundRange(p);
    if BoundOf(p).Root? {
      var b := BoundOf(p).x;
      if b > root { ChangesSignOnce(p, gamma, root, b); }
      if b < root && p.Value(b) >= 0.0 { ChangesSignOnce(p, gamma, b, root); }
      if 0.0 <= guess < root && p.Value(guess) >= 0.0 { ChangesSignOnce(p, gamma, guess, root); }
    }
  }

  /** What the search finds lies within the tolerance of the root, unless the passes ran out. */
  lemma FoundNearRoot(p: Problem, gamma: real, tol: real, maxIter: nat, guess: real, lo: real, hi: real, passes: nat,
                      mu: real, root: real)
    requires Searched(p, gamma) && p.Admissible() && Searchable(p) && tol >= 0.0 && root >= 0.0 && p.Value(root) == 0.0
    requires Found(p, tol, maxIter, guess, lo, hi, passes, mu)
    ensures lo <= root <= hi && (Abs(mu - root) <= tol || passes == maxIter)
  {
    hide *;
    FoundParts(p, tol, maxIter, guess, lo, hi, passes, mu);
    MasterDefined(p);
    if root < lo {
      ChangesSignOnce(p, gamma, root, lo);
      if lo < hi { ChangesSignOnce(p, gamma, lo, hi); }
    }
    if hi < root {
      if p.Value(hi) >= 0.0 { ChangesSignOnce(p, gamma, hi, root); }
      if p.Value(lo) >= 0.0 { ChangesSignOnce(p, gamma, lo, root); }
    }
    MidpointNear(lo, hi, mu, root, tol);
  }

  lemma FoundParts(p: Problem, tol: real, maxIter: nat, guess: real, lo: real, hi: real, passes: nat, mu: real)
    requires p.Admissible() && Searchable(p) && tol >= 0.0 && Found(p, tol, maxIter, guess, lo, hi, passes, mu)
    ensures 0.0 <= lo <= hi && mu == 0.5 * (lo + hi) && (hi - lo <= 2.0 * tol || passes == maxIter)
    ensures (p.Value(lo) <= 0.0 <= p.Value(hi)) || (p.Value(hi) <= 0.0 <= p.Value(lo))
  {
    hide Problem.Admissible, Searchable, BoundOf, Problem.Value, FalsiEnd, PassesMade, Refine, Bracketed;
    MasterDefined(p);
  }

  lemma MidpointNear(lo: real, hi: real, mu: real, root: real, tol: real)
    requires lo <= hi && mu == 0.5 * (lo + hi)
    ensures lo <= root <= hi && hi - lo <= 2.0 * tol ==> Abs(mu - root) <= tol
  {
  }

  // ---------------------------------------------------------------------------------------------
  // From a physical state through p2c and back.

  /** The setup that solve makes of the conserved variables of q. */
  ghost function SetupFor(env: Env, g: Geom, q: Prim, hasB: bool, h0: real, ye: real): Setup
    requires g.gdet != 0.0 && LorentzFactor(env.sqrt, g.gcov, q.vp) > 0.0
  {
    SetupOf(env, g, Valencia(g, q, LorentzFactor(env.sqrt, g.gcov, q.vp)), hasB, h0, ye)
  }

  /** A physical state of an ideal gas, whose conserved variables keep the guard on rho (1 + eps) idle. */
  ghost predicate Convertible(env: Env, g: Geom, q: Prim, gamma: real, hasB: bool, h0: real, ye: real) {
    && g.Is3Plus1() && env.Admissible(h0, ye) && (hasB || q.b == ZERO) && Physical(env, g, q, h0, ye)
    && GammaLaw(env, gamma, ye) && h0 <= 1.0 / MU_MIN && DenseSetup(env, g, q, hasB, h0, ye)
  }

  ghost predicate DenseSetup(env: Env, g: Geom, q: Prim, hasB: bool, h0: real, ye: real) {
    && g.gdet != 0.0 && LorentzFactor(env.sqrt, g.gcov, q.vp) > 0.0
    && Dense(SetupFor(env, g, q, hasB, h0, ye).p)
  }

  /** Its true mu is the one root of the master function. */
  lemma TrueRoot(env: Env, g: Geom, q: Prim, gamma: real, hasB: bool, h0: real, ye: real, s: Setup, mu: real)
    requires Convertible(env, g, q, gamma, hasB, h0, ye) && s == SetupFor(env, g, q, hasB, h0, ye)
    requires q.rho + q.u + q.p > 0.0 && mu == TrueMu(q, LorentzFactor(env.sqrt, g.gcov, q.vp))
    ensures Searched(s.p, gamma) && s.p.Admissible() && Searchable(s.p) && mu > 0.0 && s.p.Value(mu) == 0.0
  {
    hide *;
    ConvertibleParts(env, g, q, gamma, hasB, h0, ye, s);
    RecoveryInvertsP2C(env, g, q, hasB, h0, ye);
    InvertsParts(s, mu, q);
    var h := s.p.State(mu);
    DensityKept(s.p, mu);
    DenseState(env, g, q, h0, ye, s, mu, gamma);
  }

  lemma ConvertibleParts(env: Env, g: Geom, q: Prim, gamma: real, hasB: bool, h0: real, ye: real, s: Setup)
    requires Convertible(env, g, q, gamma, hasB, h0, ye) && s == SetupFor(env, g, q, hasB, h0, ye)
    ensures g.Is3Plus1() && env.Admissible(h0, ye) && (hasB || q.b == ZERO) && Physical(env, g, q, h0, ye)
    ensures g.gdet != 0.0 && LorentzFactor(env.sqrt, g.gcov, q.vp) > 0.0
    ensures s == SetupOf(env, g, Valencia(g, q, LorentzFactor(env.sqrt, g.gcov, q.vp)), hasB, h0, ye)
    ensures Searched(s.p, gamma) && s.p.Admissible() && Searchable(s.p) && s.p.env == env && s.p.ye == ye && s.p.h0 == h0
    ensures s.p.h0 > 0.0 && s.p.rsq >= 0.0 && s.p.env.gamMax >= 1.0 && Dense(s.p) && GammaLaw(env, gamma, ye)
  {
    hide Geom.Is3Plus1, Env.Admissible, Physical, GammaLaw, Dense, LorentzFactor, Valencia, SetupOf, Problem.Admissible;
    var c := Valencia(g, q, LorentzFactor(env.sqrt, g.gcov, q.vp));
    SetupAdmissible(env, g, c, hasB, h0, ye);
    SetupParts(env, g, c, hasB, h0, ye);
    SetupCross(env, g, c, hasB, h0, ye);
    Defined(s.p);
  }

  lemma SetupDefined(env: Env, g: Geom, q: Prim, gamma: real, hasB: bool, h0: real, ye: real)
    requires Convertible(env, g, q, gamma, hasB, h0, ye)
    ensures g.gdet != 0.0 && LorentzFactor(env.sqrt, g.gcov, q.vp) > 0.0
  {
    hide Geom.Is3Plus1, Env.Admissible, Physical, GammaLaw, Dense, LorentzFactor, SetupFor;
  }

  lemma SetupCross(env: Env, g: Geom, c: Cons, hasB: bool, h0: real, ye: real)
    requires g.gdet != 0.0
    ensures var p := SetupOf(env, g, c, hasB, h0, ye).p; p.bsqRpsq == p.bsq * p.rsq - p.rbsq
  {
    hide Apply, Dot, Inner, Scale, FieldScale, Ratio, Max, Sq;
  }

  lemma InvertsParts(s: Setup, mu: real, q: Prim)
    requires Inverts(s, mu, q)
    ensures s.p.Admissible() && mu > 0.0 && s.p.h0 > 0.0 && s.p.rsq >= 0.0 && s.p.env.gamMax >= 1.0
    ensures s.p.Value(mu) == 0.0 <==> q.rho + q.u >= EPS || q.p == 0.0
    ensures Unwrap(s, mu).rho == q.rho && !s.p.State(mu).flags.Any() && Returns(Unwrap(s, mu), q)
  {
    hide Problem.Admissible, Problem.Aux, Problem.State, Problem.Value, Unwrap;
    Defined(s.p);
  }

  lemma DenseState(env: Env, g: Geom, q: Prim, h0: real, ye: real, s: Setup, mu: real, gamma: real)
    requires Physical(env, g, q, h0, ye) && GammaLaw(env, gamma, ye)
    requires s.p.Admissible() && mu >= 0.0 && s.p.h0 > 0.0 && s.p.rsq >= 0.0 && s.p.env.gamMax >= 1.0
    requires s.p.State(mu).rho >= EPS && Unwrap(s, mu).rho == q.rho
    ensures q.rho + q.u >= EPS
  {
    hide *;
    UnwrapParts(s, mu, s.p.State(mu));
    PhysicalEnergy(env, g, q, h0, ye, gamma);
  }

  lemma PhysicalEnergy(env: Env, g: Geom, q: Prim, h0: real, ye: real, gamma: real)
    requires Physical(env, g, q, h0, ye) && GammaLaw(env, gamma, ye)
    ensures q.rho > 0.0 && q.u >= 0.0
  {
    hide LorentzFactor, Env.SieFloor, Env.RhoFloor;
    var eps := q.u / q.rho;
    assert eps * q.rho == q.u;
    MulNonneg(eps, q.rho);
  }

  /** p2c and then solve on one cell, with whatever guess it holds. The search is never undefined; the run is
      stopped exactly when the bound of the search lies below the true mu; otherwise the mu found is within
      the tolerance of the true one, unless the passes ran out, and it returns the state if it meets it. */
  method ConvertAndRecover(c: Cell, env: Env, g: Geom, q: Prim, gamma: real, hasB: bool, hasYe: bool, h0: real,
                           ye: real, tol: real, maxIter: nat, failOnFloors: bool, failOnCeilings: bool)
    returns (status: Status, ghost p: Problem, ghost root: real, ghost passes: nat)
    requires Convertible(env, g, q, gamma, hasB, h0, ye) && (!hasYe ==> ye == 0.5) && tol >= 0.0
    modifies c
    ensures g.gdet != 0.0 && LorentzFactor(env.sqrt, g.gcov, q.vp) > 0.0 && q.rho + q.u + q.p > 0.0
    ensures p == SetupFor(env, g, q, hasB, h0, ye).p && root == TrueMu(q, LorentzFactor(env.sqrt, g.gcov, q.vp))
    ensures Searchable(p) && !status.NotFinite? && (status.Aborted? <==> !Reaches(p, root))
    ensures status.Success? || status.Failure? ==>
              (Abs(c.mu - root) <= tol || passes == maxIter) && (c.mu == root ==> Returns(c.prim, q))
  {
    hide *;
    SetupDefined(env, g, q, gamma, hasB, h0, ye);
    ghost var s := SetupFor(env, g, q, hasB, h0, ye);
    ConvertibleParts(env, g, q, gamma, hasB, h0, ye, s);
    PhysicalPositive(env, g, q, h0, ye);
    RecoveryInvertsP2C(env, g, q, hasB, h0, ye);
    EnvSqrt(env, h0, ye);
    p, root := s.p, TrueMu(q, LorentzFactor(env.sqrt, g.gcov, q.vp));
    TrueRoot(env, g, q, gamma, hasB, h0, ye, s, root);
    InvertsParts(s, root, q);
    var yeCons;
    c.cons, yeCons, c.sig := P2C(g, env.sqrt, q, ye, env.gamma1(q.rho, env.tempOfSie(q.rho, q.u / q.rho, ye), ye));
    c.cye := yeCons;
    ConservedDensity(g, q, LorentzFactor(env.sqrt, g.gcov, q.vp));
    YeBack(hasYe, c.cye, c.cons.D, ye);
    ghost var guess := c.mu;
    NeverUndefined(p, gamma, tol, maxIter, guess);
    GivenUpShort(p, gamma, guess, root);
    ghost var made, lo, hi;
    status, made, lo, hi, passes := Solve(c, env, g, h0, hasB, hasYe, tol, maxIter, failOnFloors, failOnCeilings);
    if status.Success? || status.Failure? {
      FoundNearRoot(p, gamma, tol, maxIter, guess, lo, hi, passes, c.mu, root);
    }
  }

  lemma ConservedDensity(g: Geom, q: Prim, W: real)
    requires g.Is3Plus1() && q.rho > 0.0 && W >= 1.0
    ensures Valencia(g, q, W).D > 0.0
  {
    hide Apply, Dot, FieldStrength, IsMetric;
    MulPos(g.gdet, q.rho);
    var d := g.gdet * q.rho;
    MulPos(d, W);
  }

  /** The electron fraction survives the conversion. */
  lemma YeBack(hasYe: bool, cye: real, D: real, ye: real)
    requires D > 0.0 && cye == Prod(D, ye) && (!hasYe ==> ye == 0.5)
    ensures YeOf(hasYe, cye, D) == ye
  {
    DivIs(cye, D, ye);
  }
}
