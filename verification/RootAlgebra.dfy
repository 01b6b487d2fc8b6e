/** The algebra of the recovery at the exact root mu = 1 / (h W), on scalars only. z is the total
    enthalpy rho h W^2, so mu z == D; Q == B^2, N == B.v, V == v^2. */
module RootAlgebra {
  import opened Reals

  /** r^2 D^2 for the momentum (z + Q) v - N B. */
  function RsqD2(z: real, V: real, Q: real, N: real): real {
    (z + Q) * (z + Q) * V - 2.0 * (z + Q) * N * N + N * N * Q
  }

  lemma FieldFactor(z: real, D: real, Q: real, mu: real, bsq: real)
    requires z > 0.0 && Q >= 0.0 && mu * z == D && bsq * D == Q
    ensures 1.0 + mu * bsq > 0.0
    ensures var x := 1.0 / (1.0 + mu * bsq); x * (z + Q) == z
  {
    var d := 1.0 + mu * bsq;
    calc {
      d * z;
      z + bsq * (mu * z);
      z + bsq * D;
      z + Q;
    }
    CancelPos(z, d);
    assert z * d == d * z;
    var x := 1.0 / d;
    assert x * d == 1.0;
    calc {
      x * (z + Q);
      x * (d * z);
      (x * d) * z;
      z;
    }
  }

  lemma RbarAtRoot(z: real, D: real, V: real, Q: real, N: real, mu: real, x: real, rsq: real, rbsq: real,
                   rbar: real)
    requires z > 0.0 && D > 0.0 && Q >= 0.0
    requires mu * z == D && x * (z + Q) == z
    requires rsq * (D * D) == RsqD2(z, V, Q, N)
    requires rbsq * (D * D * D) == z * z * N * N
    requires rbar == x * (x * rsq + mu * (1.0 + x) * rbsq)
    ensures mu * mu * rbar == V
  {
    hide *;
    var t := z + Q;
    var R, S := rsq * (D * D), rbsq * (D * D * D);
    var a := mu * mu * rbar;
    // clear denominators: x t = z, mu z = D
    RbarTimes(x, t, mu, rsq, rbsq, z, D, rbar);
    RbarDensity(z, D, rsq, rbsq, t, rbar, R, S);
    MomentumSquare(z, V, Q, N, t, R, S);
    SwapFactors(mu, z, D, rbar, t, a);
    CancelSquares(a, V, t, z);
  }

  lemma RbarExpand(x: real, t: real, mu: real, rsq: real, rbsq: real)
    ensures x * (x * rsq + mu * (1.0 + x) * rbsq) * (t * t)
            == Prod(Sq(x * t), rsq) + Prod(Prod(mu, x * t), Prod(t + x * t, rbsq))
  {
  }

  lemma RbarTimes(x: real, t: real, mu: real, rsq: real, rbsq: real, z: real, D: real, rbar: real)
    requires x * t == z && mu * z == D && rbar == x * (x * rsq + mu * (1.0 + x) * rbsq)
    ensures rbar * (t * t) == Prod(Sq(z), rsq) + Prod(D, Prod(t + z, rbsq))
  {
    RbarExpand(x, t, mu, rsq, rbsq);
    assert Prod(mu, z) == D;
    hide Prod, Sq;
  }

  lemma RbarDensity(z: real, D: real, rsq: real, rbsq: real, t: real, rbar: real, R: real, S: real)
    requires rbar * (t * t) == Prod(Sq(z), rsq) + Prod(D, Prod(t + z, rbsq))
    requires R == rsq * (D * D) && S == rbsq * (D * D * D)
    ensures Prod(Prod(rbar, Sq(t)), Sq(D)) == Prod(Sq(z), R) + Prod(t + z, S)
  {
    var a, b := Prod(Sq(z), rsq), Prod(D, Prod(t + z, rbsq));
    assert a * (D * D) == Sq(z) * R;
    assert b * (D * D) == (t + z) * S;
    assert (a + b) * (D * D) == a * (D * D) + b * (D * D);
  }

  lemma MomentumSquare(z: real, V: real, Q: real, N: real, t: real, R: real, S: real)
    requires t == z + Q && R == RsqD2(z, V, Q, N) && S == z * z * N * N
    ensures Prod(Sq(z), R) + Prod(t + z, S) == Prod(Prod(V, Sq(t)), Sq(z))
  {
  }

  lemma SwapFactors(mu: real, z: real, D: real, rbar: real, t: real, a: real)
    requires mu * z == D && a == mu * mu * rbar
    ensures Prod(Prod(a, Sq(t)), Sq(z)) == Prod(Prod(rbar, Sq(t)), Sq(D))
  {
    var k := rbar * (t * t);
    assert Sq(mu * z) == Sq(D);
    assert a * (t * t) * (z * z) == k * Sq(mu * z);
  }

  lemma CancelSquares(a: real, b: real, t: real, z: real)
    requires t > 0.0 && z > 0.0 && Prod(Prod(a, Sq(t)), Sq(z)) == Prod(Prod(b, Sq(t)), Sq(z))
    ensures a == b
  {
    var t2, z2 := t * t, z * z;
    SquareIsPos(t, t2);
    SquareIsPos(z, z2);
    MulPos(t2, z2);
    var k := t2 * z2;
    assert (a - b) * k == 0.0;
  }

  lemma QbarAtRoot(z: real, D: real, V: real, Q: real, N: real, p: real, mu: real, x: real,
                   q: real, bsq: real, bsqRpsq: real, rsq: real, rbsq: real, qbar: real)
    requires z > 0.0 && D > 0.0 && Q >= 0.0
    requires mu * z == D && x * (z + Q) == z
    requires rsq * (D * D) == RsqD2(z, V, Q, N)
    requires rbsq * (D * D * D) == z * z * N * N
    requires bsq * D == Q && bsqRpsq == bsq * rsq - rbsq
    requires q * D == z - p + Q - 0.5 * (Q * (1.0 - V) + N * N) - D
    requires qbar == q - 0.5 * (bsq + (mu * x) * (mu * x) * bsqRpsq)
    ensures qbar * D == z - p - D
  {
    var t := z + Q;
    calc {
      bsqRpsq * (D * D * D);
      (bsq * D) * (rsq * (D * D)) - rbsq * (D * D * D);
      Q * RsqD2(z, V, Q, N) - z * z * N * N;
      (t * t) * (Q * V - N * N);
    }
    var m := mu * x;
    assert m * t == D by {
      calc { m * t; mu * (x * t); mu * z; D; }
    }
    assert m * m * bsqRpsq * D == Q * V - N * N by {
      calc {
        (m * m * bsqRpsq * D) * (t * t);
        (m * t) * (m * t) * bsqRpsq * D;
        bsqRpsq * (D * D * D);
        (Q * V - N * N) * (t * t);
      }
      MulPos(t, t);
      assert (m * m * bsqRpsq * D - (Q * V - N * N)) * (t * t) == 0.0;
    }
    calc {
      qbar * D;
      (q - 0.5 * (bsq + m * m * bsqRpsq)) * D;
      q * D - 0.5 * (bsq * D + m * m * bsqRpsq * D);
      q * D - 0.5 * (Q + (Q * V - N * N));
    }
  }

  /** 1 + qbar - mu rbar^2 is the comoving energy (1 + eps) / W. */
  lemma EnergyBalance(rho: real, eps: real, p: real, W: real, iW: real, V: real, D: real, z: real, mu: real,
                      rbar: real, qbar: real, e: real)
    requires rho > 0.0 && iW * W == 1.0 && V == 1.0 - iW * iW
    requires e == rho * (1.0 + eps) + p
    requires D == rho * W && D > 0.0 && z == e * W * W && z > 0.0 && mu * z == D
    requires mu * mu * rbar == V && qbar * D == z - p - D
    ensures mu * rbar * D == V * z
    ensures 1.0 + qbar - mu * rbar == (1.0 + eps) * iW
    ensures z * (iW * iW) == e
    ensures D * iW == rho
  {
    calc {
      mu * rbar * D;
      (mu * mu * rbar) * z;
      V * z;
    }
    assert z * (iW * iW) == e by {
      calc {
        z * (iW * iW);
        e * W * W * (iW * iW);
        e * iW * iW * W * W;
        { UnitFactor(e, iW, W); }
        e;
      }
    }
    calc {
      D * iW;
      rho * (iW * W);
      rho;
    }
    var y := 1.0 + qbar - mu * rbar;
    calc {
      y * D;
      D + qbar * D - mu * rbar * D;
      z * (1.0 - V) - p;
      z * (iW * iW) - p;
      rho * (1.0 + eps);
      (D * iW) * (1.0 + eps);
      ((1.0 + eps) * iW) * D;
    }
    assert (y - (1.0 + eps) * iW) * D == 0.0;
  }

  /** The energy formula of ehat_mu returns eps. */
  lemma EnergyTrial(W: real, iW: real, V: real, eps: real, y: real)
    requires W >= 1.0 && iW * W == 1.0 && V == 1.0 - iW * iW
    requires 1.0 + y == (1.0 + eps) * iW
    ensures W * y + V * W * (W / (1.0 + W)) == eps
  {
    var f := W / (1.0 + W);
    assert f * (1.0 + W) == W;
    calc {
      W * (1.0 + y);
      (1.0 + eps) * (iW * W);
      1.0 + eps;
    }
    calc {
      V * W * W;
      W * W - 1.0 * iW * iW * W * W;
      { UnitFactor(1.0, iW, W); }
      W * W - 1.0;
      (W - 1.0) * (1.0 + W);
    }
    calc {
      V * W * f * (1.0 + W);
      V * W * W;
      (W - 1.0) * (1.0 + W);
    }
    assert (V * W * f - (W - 1.0)) * (1.0 + W) == 0.0;
  }

  /** mu (nu + mu rbar^2) == 1 exactly when the guarded ratio a is p / (rho (1 + eps)). */
  lemma MasterAtRoot(e: real, p: real, iW: real, V: real, D: real, z: real, mu: real, rbar: real,
                     a: real, nu: real, rho: real, onePlusEps: real, den: real)
    requires D > 0.0 && z > 0.0 && mu * z == D && D * iW == rho
    requires e == rho * onePlusEps && mu * rbar * D == V * z && z * (iW * iW) == e + p && V == 1.0 - iW * iW
    requires nu == (1.0 + a) * onePlusEps * iW && den == nu + mu * rbar
    ensures mu * den == 1.0 <==> a * e == p
  {
    calc {
      nu * D;
      (1.0 + a) * onePlusEps * (D * iW);
      (1.0 + a) * (rho * onePlusEps);
      e + a * e;
    }
    calc {
      den * D;
      nu * D + mu * rbar * D;
      e + a * e + V * z;
      e + a * e + z - z * (iW * iW);
      z + (a * e - p);
    }
    calc {
      mu * den * z;
      den * (mu * z);
      den * D;
      z + (a * e - p);
    }
    assert (mu * den - 1.0) * z == a * e - p;
  }

  /** The stored velocity W mu x (r + mu (b.r) b), one component: it is W v. Here r D = (z + Q) v - N B,
      and mu (b.r) b = N B / D. */
  lemma VelocityAtRoot(z: real, D: real, Q: real, N: real, mu: real, x: real, W: real, r: real, v: real, B: real,
                       mubb: real)
    requires z > 0.0 && D > 0.0 && Q >= 0.0 && mu * z == D && x * (z + Q) == z
    requires r * D == (z + Q) * v - N * B && mubb * D == N * B
    ensures W * mu * x * (r + mubb) == W * v
  {
    var t := z + Q;
    calc {
      mu * x * (r + mubb) * D * z;
      (mu * z) * x * (r * D + mubb * D);
      D * x * (t * v);
      (x * t) * D * v;
      v * D * z;
    }
    MulPos(D, z);
    var k := D * z;
    var y := mu * x * (r + mubb);
    assert (y - v) * k == 0.0;
    assert y == v;
    calc {
      W * mu * x * (r + mubb);
      W * y;
      W * v;
    }
  }
}
