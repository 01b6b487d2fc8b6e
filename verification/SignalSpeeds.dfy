/** The magnetosonic speeds of prim2con.hpp and riemann.hpp: they lie between the fluid velocity and
    the light cone. */
module SignalSpeeds {
  import opened Reals
  import opened Vectors

  /** What is under the root: c is the squared sound speed, V the squared fluid speed, t the velocity
      component along the axis and g the inverse metric component. */
  function Radicand(c: real, V: real, t: real, g: real): real {
    c * (1.0 - V) * (g * (1.0 - V * c) - t * t * (1.0 - c))
  }

  /** alpha / (1 - V c) (t (1 - c) + r) - beta. */
  function Speed(c: real, V: real, t: real, r: real, alpha: real, beta: real): real
    requires Prod(V, c) != 1.0
  {
    alpha / (1.0 - V * c) * (t * (1.0 - c) + r) - beta
  }

  /** A subluminal fluid with a causal sound speed, seen along one axis. */
  ghost predicate Causal(c: real, V: real, t: real, g: real) {
    0.0 <= c <= 1.0 && 0.0 <= V < 1.0 && g >= 0.0 && t * t <= g * V
  }

  lemma CausalProducts(c: real, V: real, t: real, g: real)
    requires Causal(c, V, t, g)
    ensures 0.0 <= V * c < 1.0 && V * c <= V && V * c <= c && t * t <= g
  {
    MulMono(c, 1.0, V);
    MulMono(V, 1.0, c);
    MulNonneg(V, c);
    MulMono(V, 1.0, g);
  }

  lemma RadicandNonneg(c: real, V: real, t: real, g: real)
    requires Causal(c, V, t, g)
    ensures Radicand(c, V, t, g) >= 0.0
  {
    CausalProducts(c, V, t, g);
    MulMono(t * t, g * V, 1.0 - c);
    var inner := g * (1.0 - V * c) - t * t * (1.0 - c);
    InnerAlgebra(c, V, g);
    MulNonneg(g, 1.0 - V);
    MulNonneg(c, 1.0 - V);
    MulNonneg(c * (1.0 - V), inner);
  }

  lemma InnerAlgebra(c: real, V: real, g: real)
    ensures g * (1.0 - V * c) - g * V * (1.0 - c) == g * (1.0 - V)
  {
  }

  /** Distance of t (1 - c) from the light cone, with s = sqrt(g). */
  function Gap(c: real, V: real, t: real, s: real): real { s * (1.0 - V * c) - t * (1.0 - c) }

  /** How far the fluid drags the wave along: c v^m (1 - v^2). */
  function Drag(c: real, V: real, t: real): real { t * c * (1.0 - V) }

  /** The two factorizations that decide everything. */
  lemma GapSquare(c: real, V: real, t: real, s: real)
    ensures Sq(Gap(c, V, t, s)) - Radicand(c, V, t, s * s) == Prod(Prod(1.0 - V * c, 1.0 - c), Sq(s - t))
  {
    var w := V * c;
    GapForm(c, V, t, s, w);
    RadicandAt(c, V, t, s, w);
    hide Sq, Gap, Radicand;
    GapExpand(w, c, s, t);
  }

  lemma GapForm(c: real, V: real, t: real, s: real, w: real)
    requires w == V * c
    ensures Sq(Gap(c, V, t, s))
            == s * s * (1.0 - w) * (1.0 - w) - 2.0 * s * t * (1.0 - w) * (1.0 - c) + t * t * (1.0 - c) * (1.0 - c)
  {
  }

  lemma RadicandAt(c: real, V: real, t: real, s: real, w: real)
    requires w == V * c
    ensures Radicand(c, V, t, s * s) == (c - w) * (s * s * (1.0 - w) - t * t * (1.0 - c))
  {
  }

  lemma GapExpand(w: real, c: real, s: real, t: real)
    ensures s * s * (1.0 - w) * (1.0 - w) - 2.0 * s * t * (1.0 - w) * (1.0 - c) + t * t * (1.0 - c) * (1.0 - c)
            - (c - w) * (s * s * (1.0 - w) - t * t * (1.0 - c))
            == Prod(Prod(1.0 - w, 1.0 - c), Sq(s - t))
  {
  }

  lemma DragSquare(c: real, V: real, t: real, g: real)
    ensures Radicand(c, V, t, g) - Sq(Drag(c, V, t)) == Prod(Prod(Prod(c, 1.0 - V), 1.0 - V * c), g - t * t)
  {
  }

  lemma GapNonneg(c: real, V: real, t: real, s: real)
    requires Causal(c, V, t, s * s) && s >= 0.0
    ensures Gap(c, V, t, s) >= 0.0 && -s <= t <= s
  {
    CausalProducts(c, V, t, s * s);
    AbsFromSquare(t, s);
    GapBelow(s, V * c, c, t);
  }

  lemma GapBelow(s: real, w: real, c: real, t: real)
    requires w <= c <= 1.0 && t <= s && s >= 0.0
    ensures s * (1.0 - w) - t * (1.0 - c) >= 0.0
  {
    MulMono(t, s, 1.0 - c);
    MulNonneg(s, c - w);
    assert s * (1.0 - w) - s * (1.0 - c) == s * (c - w);
  }

  /** The root stays inside the cone and carries the wave past the fluid. */
  lemma RootBounds(c: real, V: real, t: real, s: real, r: real)
    requires Causal(c, V, t, s * s) && s >= 0.0 && r >= 0.0 && Sq(r) == Radicand(c, V, t, s * s)
    ensures Drag(c, V, t) <= r <= Gap(c, V, t, s)
  {
    hide *;
    GapNonneg(c, V, t, s);
    UnfloorGap(c, V, t, s);
    SqOrder(r, Gap(c, V, t, s));
    FloorDrag(c, V, t, s, r);
  }

  lemma SpeedScale(c: real, V: real, t: real, r: real, alpha: real, beta: real, x: real)
    requires V * c < 1.0 && alpha > 0.0
    ensures t * (1.0 - c) + r <= x * (1.0 - V * c) <==> Speed(c, V, t, r, alpha, beta) <= alpha * x - beta
    ensures t * (1.0 - c) + r >= x * (1.0 - V * c) <==> Speed(c, V, t, r, alpha, beta) >= alpha * x - beta
  {
    var q, den, y := alpha / (1.0 - V * c), 1.0 - V * c, t * (1.0 - c) + r;
    DivPos(alpha, den);
    DivMul(alpha, den);
    ScaleCompare(q, den, alpha, y, x);
  }

  lemma ScaleCompare(q: real, den: real, alpha: real, y: real, x: real)
    requires q > 0.0 && q * den == alpha
    ensures y <= x * den <==> q * y <= alpha * x
    ensures y >= x * den <==> q * y >= alpha * x
  {
    var d := x * den - y;
    CancelPos(q, d);
    var e := -d;
    CancelPos(q, e);
    assert q * d == (q * den) * x - q * y;
    assert q * e == -(q * d);
  }

  /** Causality along one axis: the slow wave is no slower than the light going back, no faster than
      the fluid; the fast one no slower than the fluid, no faster than light. */
  lemma SpeedsCausal(c: real, V: real, t: real, s: real, r: real, alpha: real, beta: real)
    requires Causal(c, V, t, s * s) && s >= 0.0 && r >= 0.0 && Sq(r) == Radicand(c, V, t, s * s) && alpha > 0.0
    ensures V * c < 1.0
    ensures -alpha * s - beta <= Speed(c, V, t, -r, alpha, beta) <= alpha * t - beta
                              <= Speed(c, V, t, r, alpha, beta) <= alpha * s - beta
  {
    hide Radicand, Speed, Drag, Sq;
    CausalProducts(c, V, t, s * s);
    var t', r' := -t, -r;
    Mirror(c, V, t, s * s);
    RootBounds(c, V, t, s, r);
    RootBounds(c, V, t', s, r);
    SpeedScale(c, V, t, r, alpha, beta, s);
    SpeedScale(c, V, t, r, alpha, beta, t);
    var s' := -s;
    SpeedScale(c, V, t, r', alpha, beta, s');
    SpeedScale(c, V, t, r', alpha, beta, t);
    DragForm(c, V, t);
  }

  lemma Mirror(c: real, V: real, t: real, g: real)
    ensures Radicand(c, V, -t, g) == Radicand(c, V, t, g)
    ensures Causal(c, V, t, g) ==> Causal(c, V, -t, g)
  {
    assert -t * -t == t * t;
  }

  lemma DragForm(c: real, V: real, t: real)
    ensures t * (1.0 - V * c) - t * (1.0 - c) == Drag(c, V, t)
    ensures Drag(c, V, -t) == -Drag(c, V, t)
  {
  }

  /** What the two speeds are: with y = (speed + beta) / alpha, the speed seen by the normal observer,
      they are the roots of the dispersion relation W^2 (1 - c) (y - t)^2 = c (g - y^2) of waves that
      travel at c in the rest frame of the fluid. */
  lemma SpeedsSolveDispersion(c: real, V: real, t: real, g: real, r: real, alpha: real, beta: real)
    requires Causal(c, V, t, g) && Sq(r) == Radicand(c, V, t, g) && alpha > 0.0
    ensures V * c < 1.0
    ensures var y := (Speed(c, V, t, r, alpha, beta) + beta) / alpha;
            (1.0 - c) * Sq(y - t) == c * (1.0 - V) * (g - Sq(y))
  {
    hide *;
    CausalProducts(c, V, t, g);
    var den := 1.0 - V * c;
    var x := t * (1.0 - c) + r;
    var y := x / den;
    DivProd(x, den);
    Rescale(c, V, t, r, alpha, beta, y);
    Dispersion(c, V, t, g, r, den, y);
  }

  lemma Rescale(c: real, V: real, t: real, r: real, alpha: real, beta: real, y: real)
    requires V * c < 1.0 && alpha > 0.0 && y == (t * (1.0 - c) + r) / (1.0 - V * c)
    ensures (Speed(c, V, t, r, alpha, beta) + beta) / alpha == y
  {
    var den, x := 1.0 - V * c, t * (1.0 - c) + r;
    var q := alpha / den;
    DivMul(alpha, den);
    DivMul(x, den);
    assert q * x == y * alpha by { assert q * (y * den) == y * (q * den); }
    DivIs(q * x, alpha, y);
  }

  /** The dispersion relation as a quadratic in y. */
  function Quadratic(den: real, m: real, k: real, y: real): real { den * (y * y) - 2.0 * m * y + k }

  lemma Dispersion(c: real, V: real, t: real, g: real, r: real, den: real, y: real)
    requires den == 1.0 - V * c && den > 0.0 && Prod(y, den) == t * (1.0 - c) + r && Sq(r) == Radicand(c, V, t, g)
    ensures (1.0 - c) * Sq(y - t) == c * (1.0 - V) * (g - Sq(y))
  {
    var m, k := t * (1.0 - c), t * (t * (1.0 - c)) - c * (1.0 - V) * g;
    var E := Quadratic(den, m, k, y);
    CompleteSquare(den, y, m, k);
    RadicandForm(c, V, t, g, den, m, k);
    DispersionExpand(c, V, t, g, y, den, m, k);
    NoRemainder(den, E, Prod(y, den) - m, r, m, k);
  }

  lemma NoRemainder(den: real, E: real, x: real, r: real, m: real, k: real)
    requires den > 0.0 && x == r && Prod(den, E) == Sq(x) - Sq(m) + Prod(den, k) && Sq(r) == Sq(m) - Prod(den, k)
    ensures E == 0.0
  {
    CancelPos(den, E);
    CancelPos(den, -E);
    assert Prod(den, E) == 0.0;
  }

  lemma DispersionExpand(c: real, V: real, t: real, g: real, y: real, den: real, m: real, k: real)
    requires den == 1.0 - V * c && m == t * (1.0 - c) && k == t * (t * (1.0 - c)) - c * (1.0 - V) * g
    ensures (1.0 - c) * Sq(y - t) - c * (1.0 - V) * (g - Sq(y)) == Quadratic(den, m, k, y)
  {
  }

  lemma CompleteSquare(den: real, y: real, m: real, k: real)
    ensures Prod(den, Quadratic(den, m, k, y)) == Sq(Prod(y, den) - m) - Sq(m) + Prod(den, k)
  {
  }

  lemma RadicandForm(c: real, V: real, t: real, g: real, den: real, m: real, k: real)
    requires den == 1.0 - V * c && m == t * (1.0 - c) && k == t * (t * (1.0 - c)) - c * (1.0 - V) * g
    ensures Radicand(c, V, t, g) == Sq(m) - Prod(den, k)
  {
  }

  // ---------------------------------------------------------------------------------------------
  // signal_speeds.

  /** The squared magnetosonic speed from the sound and Alfven speeds. */
  function Magnetosonic(cs: real, va: real): real { cs + (va - cs * va) }

  lemma MagnetosonicBounds(cs: real, va: real)
    requires 0.0 <= cs <= 1.0 && 0.0 <= va <= 1.0
    ensures cs <= Magnetosonic(cs, va) <= 1.0 && va <= Magnetosonic(cs, va)
  {
    MulNonneg(1.0 - cs, 1.0 - va);
    MulNonneg(va, 1.0 - cs);
    MulNonneg(cs, 1.0 - va);
  }

  /** The component along an axis is bounded by the inverse metric: (v^m)^2 <= g^mm v^2. */
  lemma ComponentBound(gcov: Mat, gcon: Mat, v: Vec, m: nat)
    requires IsMetric(gcov, gcon) && m < 3
    ensures gcon.Row(m).At(m) >= 0.0
    ensures Sq(v.At(m)) <= Prod(gcon.Row(m).At(m), Inner(gcov, v, v))
  {
    var e := ZERO.Set(m, 1.0);
    var w := Apply(gcon, e);
    assert Apply(gcov, w) == e;
    UnitDot(w, v, e, m);
    InnerSymmetric(gcov, w, v);
    CauchySchwarz(gcov, v, w);
    assert Inner(gcov, w, w) == w.At(m) && Inner(gcov, v, w) == v.At(m);
    Diagonal(gcon, m);
  }

  lemma UnitDot(w: Vec, v: Vec, e: Vec, m: nat)
    requires m < 3 && e == ZERO.Set(m, 1.0)
    ensures Dot(w, e) == w.At(m) && Dot(v, e) == v.At(m)
  {
  }

  lemma Diagonal(gcon: Mat, m: nat)
    requires m < 3
    ensures Apply(gcon, ZERO.Set(m, 1.0)).At(m) == gcon.Row(m).At(m)
  {
  }

  /** One axis: the larger of the two absolute speeds. */
  function AxisSpeed(sqrt: real -> real, c: real, V: real, t: real, g: real, alpha: real, beta: real): real
    requires Prod(V, c) != 1.0
  {
    var r := sqrt(Radicand(c, V, t, g));
    Max(Abs(Speed(c, V, t, r, alpha, beta)), Abs(Speed(c, V, t, -r, alpha, beta)))
  }

  /** At least the coordinate speed of the fluid, at most that of light, along an axis with
      s = sqrt(g^mm). */
  predicate WithinCone(speed: real, alpha: real, t: real, s: real, beta: real) {
    Abs(alpha * t - beta) <= speed <= alpha * s + Abs(beta)
  }

  /** The fluid as signal_speeds sees it: rho h, pressure, comoving field squared, bulk modulus over
      pressure, velocity and its square. */
  datatype Flow = Flow(rhoh: real, p: real, bsq: real, gam1: real, v: Vec, vsq: real) {
    /** The source divides by rho h, by rho h + b^2 and by 1 - v^2 c^2, unguarded. */
    predicate Regular() { rhoh != 0.0 && rhoh + bsq != 0.0 && Prod(vsq, Fast()) != 1.0 }

    /** The squared magnetosonic speed. */
    function Fast(): real
      requires rhoh != 0.0 && rhoh + bsq != 0.0
    {
      Magnetosonic(Sound(), Alfven())
    }

    function Sound(): real
      requires rhoh != 0.0
    {
      Prod(gam1, p) / rhoh
    }

    function Alfven(): real
      requires rhoh + bsq != 0.0
    {
      bsq / (rhoh + bsq)
    }

    /** A subluminal fluid whose sound speed is causal. */
    ghost predicate Causal(gcov: Mat) {
      vsq == Inner(gcov, v, v) && vsq < 1.0 && rhoh > 0.0 && bsq >= 0.0 && 0.0 <= Prod(gam1, p) <= rhoh
    }
  }

  /** The reported speeds, axis by axis. */
  function Signals(sqrt: real -> real, f: Flow, alpha: real, beta: Vec, gcon: Mat): Vec
    requires f.Regular()
  {
    Vec(AxisSpeed(sqrt, f.Fast(), f.vsq, f.v.c0, gcon.r0.c0, alpha, beta.c0),
        AxisSpeed(sqrt, f.Fast(), f.vsq, f.v.c1, gcon.r1.c1, alpha, beta.c1),
        AxisSpeed(sqrt, f.Fast(), f.vsq, f.v.c2, gcon.r2.c2, alpha, beta.c2))
  }

  /** The loop over the axes. Where the source divides by zero the result is left open. */
  method SignalSpeeds(sqrt: real -> real, rho: real, u: real, p: real, bsq: real, v: Vec, vsq: real, gam1: real,
                      alpha: real, beta: Vec, gcon: Mat) returns (sig: Vec)
    ensures var f := Flow(rho + u + p, p, bsq, gam1, v, vsq);
            f.Regular() ==> sig == Signals(sqrt, f, alpha, beta, gcon)
  {
    hide AxisSpeed, Magnetosonic, Prod, Flow.Sound, Flow.Alfven;
    var f := Flow(rho + u + p, p, bsq, gam1, v, vsq);
    sig := ZERO;
    if f.Regular() {
      var vasq := bsq / (rho + u + p + bsq);
      var cssq := Prod(gam1, p) / (rho + u + p);
      FlowSpeeds(f, f.rhoh, p, bsq, gam1);
      var cmsq := Magnetosonic(cssq, vasq);
      for m := 0 to 3
        invariant m > 0 ==> sig.c0 == Signals(sqrt, f, alpha, beta, gcon).c0
        invariant m > 1 ==> sig.c1 == Signals(sqrt, f, alpha, beta, gcon).c1
        invariant m > 2 ==> sig.c2 == Signals(sqrt, f, alpha, beta, gcon).c2
      {
        sig := sig.Set(m, AxisSpeed(sqrt, cmsq, vsq, v.At(m), gcon.Row(m).At(m), alpha, beta.At(m)));
      }
    } else {
      sig := *;
    }
  }

  /** For a causal equation of state no division is by zero, and along each axis the reported speed is at
      least that of the fluid and at most that of light. */
  lemma SignalsCausal(sqrt: real -> real, f: Flow, alpha: real, beta: Vec, gcov: Mat, gcon: Mat, m: nat)
    requires IsSqrt(sqrt) && IsMetric(gcov, gcon) && alpha > 0.0 && f.Causal(gcov) && m < 3
    ensures f.Regular()
    ensures WithinCone(Signals(sqrt, f, alpha, beta, gcon).At(m), alpha, f.v.At(m), sqrt(gcon.Row(m).At(m)), beta.At(m))
  {
    hide *;
    FlowParts(f, gcov);
    var c := f.Fast();
    SoundBounds(f, gcov);
    InnerNonneg(gcov, gcon, f.v);
    SubluminalProduct(f.vsq, c);
    ComponentBound(gcov, gcon, f.v, m);
    RegularIs(f);
    SignalAt(sqrt, f, alpha, beta, gcon, m);
    AxisBounds(sqrt, c, f.vsq, f.v.At(m), gcon.Row(m).At(m), alpha, beta.At(m));
  }

  /** What the wave speed is: it misses light speed by the product of what sound and Alfven waves miss it by. */
  lemma FastComplement(f: Flow)
    requires f.rhoh != 0.0 && f.rhoh + f.bsq != 0.0
    ensures 1.0 - f.Fast() == (1.0 - Prod(f.gam1, f.p) / f.rhoh) * (1.0 - f.bsq / (f.rhoh + f.bsq))
  {
    hide Prod;
    var cs, va := f.Sound(), f.Alfven();
    assert f.Fast() == cs + (va - cs * va);
    assert (1.0 - cs) * (1.0 - va) == 1.0 - (cs + (va - cs * va));
  }

  /** A wave at y, as the normal observer sees it, that travels at squared speed c in the rest frame of a
      fluid of squared speed V and component t. */
  predicate Disperses(c: real, V: real, t: real, g: real, y: real) {
    (1.0 - c) * Sq(y - t) == c * (1.0 - V) * (g - Sq(y))
  }

  /** The reported speed along an axis is the larger absolute coordinate speed among all waves that travel at
      the combined speed of sound and Alfven waves. */
  lemma SignalsAreWaves(sqrt: real -> real, f: Flow, alpha: real, beta: Vec, gcov: Mat, gcon: Mat, m: nat)
    requires IsSqrt(sqrt) && IsMetric(gcov, gcon) && alpha > 0.0 && f.Causal(gcov) && m < 3 && f.Regular()
    ensures f.rhoh != 0.0 && f.rhoh + f.bsq != 0.0
    ensures var c := 1.0 - (1.0 - Prod(f.gam1, f.p) / f.rhoh) * (1.0 - f.bsq / (f.rhoh + f.bsq));
            var sig := Signals(sqrt, f, alpha, beta, gcon).At(m);
            && (forall y :: Disperses(c, f.vsq, f.v.At(m), gcon.Row(m).At(m), y) ==> Abs(alpha * y - beta.At(m)) <= sig)
            && (exists y :: Disperses(c, f.vsq, f.v.At(m), gcon.Row(m).At(m), y) && Abs(alpha * y - beta.At(m)) == sig)
  {
    hide *;
    FlowParts(f, gcov);
    FastComplement(f);
    var c := f.Fast();
    SoundBounds(f, gcov);
    InnerNonneg(gcov, gcon, f.v);
    SubluminalProduct(f.vsq, c);
    ComponentBound(gcov, gcon, f.v, m);
    SignalAt(sqrt, f, alpha, beta, gcon, m);
    AxisWaves(sqrt, c, f.vsq, f.v.At(m), gcon.Row(m).At(m), alpha, beta.At(m));
  }

  lemma AxisWaves(sqrt: real -> real, c: real, V: real, t: real, g: real, alpha: real, beta: real)
    requires IsSqrt(sqrt) && 0.0 <= c <= 1.0 && 0.0 <= V < 1.0 && g >= 0.0 && Sq(t) <= Prod(g, V) && alpha > 0.0
    requires Prod(V, c) != 1.0
    ensures var sig := AxisSpeed(sqrt, c, V, t, g, alpha, beta);
            && (forall y :: Disperses(c, V, t, g, y) ==> Abs(alpha * y - beta) <= sig)
            && (exists y :: Disperses(c, V, t, g, y) && Abs(alpha * y - beta) == sig)
  {
    hide *;
    CausalIs(c, V, t, g);
    CausalProducts(c, V, t, g);
    RadicandNonneg(c, V, t, g);
    var r := sqrt(Radicand(c, V, t, g));
    var r' := -r;
    RootOf(sqrt, Radicand(c, V, t, g));
    OppositeSquare(r, r');
    AxisIs(sqrt, c, V, t, g, alpha, beta, r);
    var y1 := WaveOf(c, V, t, g, r, alpha, beta);
    var y2 := WaveOf(c, V, t, g, r', alpha, beta);
    forall y | Disperses(c, V, t, g, y)
      ensures alpha * y - beta == Speed(c, V, t, r, alpha, beta) || alpha * y - beta == Speed(c, V, t, r', alpha, beta)
    {
      OnlyWaves(c, V, t, g, r, alpha, beta, y);
    }
    LargerOf(Speed(c, V, t, r, alpha, beta), Speed(c, V, t, r', alpha, beta));
  }

  lemma OppositeSquare(r: real, r': real)
    requires r' == -r
    ensures Sq(r') == Sq(r)
  {
  }

  lemma LargerOf(a: real, b: real)
    ensures Abs(a) <= Max(Abs(a), Abs(b)) && Abs(b) <= Max(Abs(a), Abs(b))
    ensures Abs(a) == Max(Abs(a), Abs(b)) || Abs(b) == Max(Abs(a), Abs(b))
  {
  }

  lemma WaveOf(c: real, V: real, t: real, g: real, r: real, alpha: real, beta: real) returns (y: real)
    requires Causal(c, V, t, g) && V * c < 1.0 && Sq(r) == Radicand(c, V, t, g) && alpha > 0.0
    ensures Disperses(c, V, t, g, y) && alpha * y - beta == Speed(c, V, t, r, alpha, beta)
  {
    hide Speed, Radicand, Causal;
    SpeedsSolveDispersion(c, V, t, g, r, alpha, beta);
    var s := Speed(c, V, t, r, alpha, beta) + beta;
    y := s / alpha;
    DivMul(s, alpha);
    assert alpha * y == y * alpha;
  }

  /** Every solution of the dispersion relation is one of the two. */
  lemma OnlyWaves(c: real, V: real, t: real, g: real, r: real, alpha: real, beta: real, y: real)
    requires V * c < 1.0 && alpha > 0.0 && Sq(r) == Radicand(c, V, t, g) && Disperses(c, V, t, g, y)
    ensures alpha * y - beta == Speed(c, V, t, r, alpha, beta) || alpha * y - beta == Speed(c, V, t, -r, alpha, beta)
  {
    hide *;
    var den, m := 1.0 - V * c, t * (1.0 - c);
    var k := t * (t * (1.0 - c)) - c * (1.0 - V) * g;
    DispersesIs(c, V, t, g, y);
    DispersionExpand(c, V, t, g, y, den, m, k);
    CompleteSquare(den, y, m, k);
    RadicandForm(c, V, t, g, den, m, k);
    NoProduct(den, Quadratic(den, m, k, y));
    SameSquare(Prod(y, den) - m, r);
    if Prod(y, den) == m + r {
      AtSpeed(c, V, t, r, alpha, beta, y, den);
    } else {
      var r' := -r;
      AtSpeed(c, V, t, r', alpha, beta, y, den);
    }
  }

  lemma DispersesIs(c: real, V: real, t: real, g: real, y: real)
    ensures Disperses(c, V, t, g, y) <==> (1.0 - c) * Sq(y - t) == c * (1.0 - V) * (g - Sq(y))
  {
    hide Sq;
  }

  lemma NoProduct(den: real, q: real)
    requires q == 0.0
    ensures Prod(den, q) == 0.0
  {
  }

  lemma SameSquare(x: real, r: real)
    requires Sq(x) == Sq(r)
    ensures x == r || x == -r
  {
    assert (x - r) * (x + r) == 0.0;
  }

  lemma AtSpeed(c: real, V: real, t: real, r: real, alpha: real, beta: real, y: real, den: real)
    requires den == 1.0 - V * c && den > 0.0 && alpha > 0.0 && Prod(y, den) == t * (1.0 - c) + r
    ensures alpha * y - beta == Speed(c, V, t, r, alpha, beta)
  {
    var q, x := alpha / den, t * (1.0 - c) + r;
    DivMul(alpha, den);
    assert q * x == y * alpha by { assert q * (y * den) == y * (q * den); }
  }

  lemma FlowParts(f: Flow, gcov: Mat)
    requires f.Causal(gcov)
    ensures f.vsq == Inner(gcov, f.v, f.v) && f.vsq < 1.0 && f.rhoh != 0.0 && f.rhoh + f.bsq != 0.0
  {
  }

  lemma RegularIs(f: Flow)
    requires f.rhoh != 0.0 && f.rhoh + f.bsq != 0.0
    ensures f.Regular() <==> Prod(f.vsq, f.Fast()) != 1.0
  {
    hide Magnetosonic, Flow.Fast, Prod;
  }

  lemma SignalAt(sqrt: real -> real, f: Flow, alpha: real, beta: Vec, gcon: Mat, m: nat)
    requires f.Regular() && m < 3
    ensures Prod(f.vsq, f.Fast()) != 1.0
    ensures Signals(sqrt, f, alpha, beta, gcon).At(m)
            == AxisSpeed(sqrt, f.Fast(), f.vsq, f.v.At(m), gcon.Row(m).At(m), alpha, beta.At(m))
  {
    hide AxisSpeed, Magnetosonic, Prod, Flow.Fast;
  }

  lemma FlowSpeeds(f: Flow, rhoh: real, p: real, bsq: real, gam1: real)
    requires f.rhoh == rhoh && f.p == p && f.bsq == bsq && f.gam1 == gam1
    ensures rhoh != 0.0 ==> f.Sound() == Prod(gam1, p) / rhoh
    ensures rhoh + bsq != 0.0 ==> f.Alfven() == bsq / (rhoh + bsq)
  {
    hide Prod;
  }

  lemma SoundBounds(f: Flow, gcov: Mat)
    requires f.Causal(gcov)
    ensures 0.0 <= f.Fast() <= 1.0
  {
    hide Magnetosonic, Flow.Sound, Flow.Alfven;
    SoundFraction(f, gcov);
    AlfvenFraction(f, gcov);
    MagnetosonicBounds(f.Sound(), f.Alfven());
  }

  lemma SoundFraction(f: Flow, gcov: Mat)
    requires f.Causal(gcov)
    ensures 0.0 <= f.Sound() <= 1.0
  {
    hide Prod;
    FractionBounds(Prod(f.gam1, f.p), f.rhoh);
  }

  lemma AlfvenFraction(f: Flow, gcov: Mat)
    requires f.Causal(gcov)
    ensures 0.0 <= f.Alfven() <= 1.0
  {
    FractionBounds(f.bsq, f.rhoh + f.bsq);
  }

  lemma FractionBounds(a: real, b: real)
    requires 0.0 <= a <= b && b > 0.0
    ensures 0.0 <= a / b <= 1.0
  {
    DivNonneg(a, b);
    DivLe(a, b, 1.0);
  }

  lemma InnerNonneg(gcov: Mat, gcon: Mat, v: Vec)
    requires IsMetric(gcov, gcon)
    ensures Inner(gcov, v, v) >= 0.0
  {
  }

  lemma SubluminalProduct(V: real, c: real)
    requires 0.0 <= V < 1.0 && 0.0 <= c <= 1.0
    ensures V * c < 1.0 && Prod(V, c) < 1.0
  {
    MulMono(c, 1.0, V);
  }

  lemma AxisBounds(sqrt: real -> real, c: real, V: real, t: real, g: real, alpha: real, beta: real)
    requires IsSqrt(sqrt) && 0.0 <= c <= 1.0 && 0.0 <= V < 1.0 && g >= 0.0 && Sq(t) <= Prod(g, V) && alpha > 0.0
    requires Prod(V, c) < 1.0
    ensures WithinCone(AxisSpeed(sqrt, c, V, t, g, alpha, beta), alpha, t, sqrt(g), beta)
  {
    hide *;
    CausalIs(c, V, t, g);
    var s, r := sqrt(g), sqrt(Radicand(c, V, t, g));
    RadicandNonneg(c, V, t, g);
    RootOf(sqrt, g);
    RootOf(sqrt, Radicand(c, V, t, g));
    WithRoot(c, V, t, g, s);
    SpeedsCausal(c, V, t, s, r, alpha, beta);
    AxisIs(sqrt, c, V, t, g, alpha, beta, r);
    SpanBounds(Speed(c, V, t, -r, alpha, beta), Speed(c, V, t, r, alpha, beta), alpha, t, s, beta);
  }

  lemma WithRoot(c: real, V: real, t: real, g: real, s: real)
    requires s * s == g
    ensures Causal(c, V, t, s * s) <==> Causal(c, V, t, g)
    ensures Radicand(c, V, t, s * s) == Radicand(c, V, t, g)
  {
  }

  lemma CausalIs(c: real, V: real, t: real, g: real)
    requires 0.0 <= c <= 1.0 && 0.0 <= V < 1.0 && g >= 0.0 && Sq(t) <= Prod(g, V)
    ensures Causal(c, V, t, g)
  {
  }

  lemma AxisIs(sqrt: real -> real, c: real, V: real, t: real, g: real, alpha: real, beta: real, r: real)
    requires Prod(V, c) != 1.0 && r == sqrt(Radicand(c, V, t, g))
    ensures AxisSpeed(sqrt, c, V, t, g, alpha, beta)
            == Max(Abs(Speed(c, V, t, r, alpha, beta)), Abs(Speed(c, V, t, -r, alpha, beta)))
  {
    hide Radicand, Speed;
  }

  lemma SpanBounds(lo: real, hi: real, alpha: real, t: real, s: real, beta: real)
    requires -alpha * s - beta <= lo <= alpha * t - beta <= hi <= alpha * s - beta
    ensures WithinCone(Max(Abs(hi), Abs(lo)), alpha, t, s, beta)
  {
  }

  // ---------------------------------------------------------------------------------------------
  // The face speeds of prim_to_flux.

  /** At a face the radicand is held above EPS. The fast wave then stays inside the light cone exactly
      when the floored radicand is no larger than the squared gap. */
  lemma FloorCausal(c: real, V: real, t: real, s: real, r: real, alpha: real, beta: real)
    requires Causal(c, V, t, s * s) && s >= 0.0 && alpha > 0.0
    requires r >= 0.0 && Sq(r) == MakePositive(Radicand(c, V, t, s * s))
    ensures V * c < 1.0
    ensures Speed(c, V, t, r, alpha, beta) <= alpha * s - beta
            <==> MakePositive(Radicand(c, V, t, s * s)) <= Sq(Gap(c, V, t, s))
    ensures Speed(c, V, t, -r, alpha, beta) >= -alpha * s - beta
            <==> MakePositive(Radicand(c, V, t, s * s)) <= Sq(Gap(c, V, -t, s))
    ensures Speed(c, V, t, -r, alpha, beta) <= alpha * t - beta <= Speed(c, V, t, r, alpha, beta)
    ensures Radicand(c, V, t, s * s) >= EPS ==>
              -alpha * s - beta <= Speed(c, V, t, -r, alpha, beta) && Speed(c, V, t, r, alpha, beta) <= alpha * s - beta
  {
    hide Speed, Gap, Causal, EPS, Radicand, Sq;
    var t', b' := -t, -beta;
    Mirror(c, V, t, s * s);
    FloorUpper(c, V, t, s, r, alpha, beta);
    FloorUpper(c, V, t', s, r, alpha, b');
    SpeedNegate(c, V, t, r, alpha, beta);
  }

  lemma SpeedNegate(c: real, V: real, t: real, r: real, alpha: real, beta: real)
    requires V * c < 1.0
    ensures Speed(c, V, t, -r, alpha, beta) == -Speed(c, V, -t, r, alpha, -beta)
  {
    var q := alpha / (1.0 - V * c);
    assert -t * (1.0 - c) + r == -(t * (1.0 - c) + -r);
    var y := t * (1.0 - c) + -r;
    assert q * -y == -(q * y);
  }

  /** The fast wave alone. */
  lemma FloorUpper(c: real, V: real, t: real, s: real, r: real, alpha: real, beta: real)
    requires Causal(c, V, t, s * s) && s >= 0.0 && alpha > 0.0
    requires r >= 0.0 && Sq(r) == MakePositive(Radicand(c, V, t, s * s))
    ensures V * c < 1.0
    ensures Speed(c, V, t, r, alpha, beta) <= alpha * s - beta
            <==> MakePositive(Radicand(c, V, t, s * s)) <= Sq(Gap(c, V, t, s))
    ensures alpha * t - beta <= Speed(c, V, t, r, alpha, beta)
    ensures Radicand(c, V, t, s * s) >= EPS ==> Speed(c, V, t, r, alpha, beta) <= alpha * s - beta
  {
    hide Speed, Causal, EPS, Radicand, Sq, Gap, Drag, MakePositive;
    CausalProducts(c, V, t, s * s);
    GapNonneg(c, V, t, s);
    var A := Gap(c, V, t, s);
    SqOrder(r, A);
    SpeedScale(c, V, t, r, alpha, beta, s);
    SpeedScale(c, V, t, r, alpha, beta, t);
    FloorAtLeast(Radicand(c, V, t, s * s));
    FloorDrag(c, V, t, s, r);
    DragForm(c, V, t);
    GapIs(c, V, t, s);
    UnfloorGap(c, V, t, s);
  }

  lemma FloorAtLeast(x: real)
    ensures MakePositive(x) >= x && (x >= EPS ==> MakePositive(x) == x)
  {
  }

  lemma GapIs(c: real, V: real, t: real, s: real)
    ensures Gap(c, V, t, s) == s * (1.0 - V * c) - t * (1.0 - c)
  {
  }

  lemma FloorDrag(c: real, V: real, t: real, s: real, r: real)
    requires Causal(c, V, t, s * s) && s >= 0.0 && r >= 0.0 && Sq(r) >= Radicand(c, V, t, s * s)
    ensures -r <= Drag(c, V, t) <= r
  {
    hide *;
    CausalParts(c, V, t, s * s);
    CausalProducts(c, V, t, s * s);
    DragSquare(c, V, t, s * s);
    ProdNonneg(c, 1.0 - V);
    ProdNonneg(Prod(c, 1.0 - V), 1.0 - V * c);
    ProdNonneg(Prod(Prod(c, 1.0 - V), 1.0 - V * c), s * s - t * t);
    AbsFromSquare(Drag(c, V, t), r);
  }

  lemma CausalParts(c: real, V: real, t: real, g: real)
    requires Causal(c, V, t, g)
    ensures 0.0 <= c <= 1.0 && 0.0 <= V < 1.0 && g >= 0.0
  {
  }

  lemma UnfloorGap(c: real, V: real, t: real, s: real)
    requires Causal(c, V, t, s * s) && s >= 0.0
    ensures Radicand(c, V, t, s * s) <= Sq(Gap(c, V, t, s))
  {
    hide *;
    CausalParts(c, V, t, s * s);
    CausalProducts(c, V, t, s * s);
    GapSquare(c, V, t, s);
    ProdNonneg(1.0 - V * c, 1.0 - c);
    SqNonneg(s - t);
    ProdNonneg(Prod(1.0 - V * c, 1.0 - c), Sq(s - t));
  }

  /** The squared magnetosonic speed at a face: every quotient is guarded and the result clamped. */
  function FaceFast(gam1: real, P: real, Wsq: real, rhohWsq: real, bsqWsq: real): real {
    var vasq := bsqWsq / MakePositive(rhohWsq + bsqWsq);
    var cssq := MakeBounded(gam1 * P * Wsq / MakePositive(rhohWsq), 0.0, 1.0);
    MakeBounded(cssq + vasq * (1.0 - cssq), 0.0, 1.0)
  }

  /** The clamps keep it away from zero and one, whatever the equation of state says. */
  lemma FaceFastRange(gam1: real, P: real, Wsq: real, rhohWsq: real, bsqWsq: real)
    ensures EPS <= FaceFast(gam1, P, Wsq, rhohWsq, bsqWsq) <= 1.0 - EPS
  {
  }

  /** Where no guard or clamp acts, the face uses the combined speed of sound and Alfven waves. */
  lemma FaceFastComplement(gam1: real, P: real, Wsq: real, rhohWsq: real, bsqWsq: real)
    requires rhohWsq >= EPS && rhohWsq + bsqWsq >= EPS
    ensures var cs, va := gam1 * P * Wsq / rhohWsq, bsqWsq / (rhohWsq + bsqWsq);
            var c := 1.0 - (1.0 - cs) * (1.0 - va);
            EPS <= cs <= 1.0 - EPS && EPS <= c <= 1.0 - EPS ==> FaceFast(gam1, P, Wsq, rhohWsq, bsqWsq) == c
  {
    var cs, va := gam1 * P * Wsq / rhohWsq, bsqWsq / (rhohWsq + bsqWsq);
    assert 1.0 - (1.0 - cs) * (1.0 - va) == cs + va * (1.0 - cs);
  }

  /** That does not keep the wave inside the cone: a fluid at rest with half the squared speed of light
      as its sound speed, along an axis whose inverse metric component is 1e-16, as the angular one is at
      radius 1e8. The wave leaves the light cone on both sides. */
  lemma FloorEscapes(sqrt: real -> real, r: real)
    requires IsSqrt(sqrt) && r == sqrt(MakePositive(Radicand(FaceFast(1.0, 0.5, 1.0, 1.0, 0.0), 0.0, 0.0, 1e-8 * 1e-8)))
    ensures FaceFast(1.0, 0.5, 1.0, 1.0, 0.0) == 0.5 && Causal(0.5, 0.0, 0.0, 1e-8 * 1e-8)
    ensures Speed(0.5, 0.0, 0.0, r, 1.0, 0.0) > 1e-8 && Speed(0.5, 0.0, 0.0, -r, 1.0, 0.0) < -1e-8
  {
    hide Radicand, FaceFast, Causal;
    HalfLight();
    RestRadicand();
    assert Sq(r) == EPS && r >= 0.0;
    SqOrder(r, 1e-8);
    RestSpeeds(r);
  }

  lemma HalfLight()
    ensures FaceFast(1.0, 0.5, 1.0, 1.0, 0.0) == 0.5
  {
    assert 0.0 / MakePositive(1.0 + 0.0) == 0.0 && 1.0 * 0.5 * 1.0 / MakePositive(1.0) == 0.5;
  }

  lemma RestRadicand()
    ensures MakePositive(Radicand(0.5, 0.0, 0.0, 1e-8 * 1e-8)) == EPS && Causal(0.5, 0.0, 0.0, 1e-8 * 1e-8)
  {
    assert 1e-8 * 1e-8 == 1e-16;
  }

  lemma RestSpeeds(r: real)
    ensures Speed(0.5, 0.0, 0.0, r, 1.0, 0.0) == r && Speed(0.5, 0.0, 0.0, -r, 1.0, 0.0) == -r
  {
  }
}
