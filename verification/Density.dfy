/** Whole runs of the density equation with the local Lax-Friedrichs flux, on a periodic line of cells
    with piecewise-constant states and one metric along the line. */
module Density {
  import opened Reals

  /** The density flux of llf: D is the densitized density, lam the coordinate velocity alpha v - beta
      of the fluid on each side, c the largest signal speed. */
  function LlfFlux(Dl: real, laml: real, Dr: real, lamr: real, c: real): real {
    0.5 * ((Prod(Dl, laml) + Prod(Dr, lamr)) - c * (Dr - Dl))
  }

  /** Between equal states the flux is the physical one; when the speed is that of the fluid the flux is
      taken from upstream. */
  lemma LlfConsistent(Dl: real, Dr: real, lam: real)
    ensures forall c :: LlfFlux(Dl, lam, Dl, lam, c) == Prod(Dl, lam)
    ensures LlfFlux(Dl, lam, Dr, lam, lam) == Prod(Dl, lam)
    ensures LlfFlux(Dl, lam, Dr, lam, -lam) == Prod(Dr, lam)
  {
    assert lam * (Dr - Dl) == lam * Dr - lam * Dl;
    forall c ensures LlfFlux(Dl, lam, Dl, lam, c) == Prod(Dl, lam) { assert c * (Dl - Dl) == 0.0; }
  }

  /** What each side contributes, whatever the other holds: the left state moves right with half of its
      velocity plus c, the right one left with half of c minus its velocity. */
  lemma LlfSides(Dl: real, laml: real, Dr: real, lamr: real, c: real)
    ensures 2.0 * LlfFlux(Dl, laml, Dr, lamr, c) == Prod(Dl, laml + c) - Prod(Dr, c - lamr)
  {
  }

  /** llf for the density: U is rho W and F is U vtil on each side. */
  method Llf(Ul: real, vtill: real, Ur: real, vtilr: real, alpha: real, gammadet: real,
             vml: real, vpl: real, vmr: real, vpr: real) returns (flux: real, cmax: real)
    requires vml <= alpha * vtill <= vpl && vmr <= alpha * vtilr <= vpr
    ensures cmax == Max(Max(-vml, vpl), Max(-vmr, vpr))
    ensures Abs(alpha * vtill) <= cmax && Abs(alpha * vtilr) <= cmax
    ensures flux == LlfFlux(Ul * gammadet, alpha * vtill, Ur * gammadet, alpha * vtilr, cmax)
    ensures 2.0 * flux == Prod(Ul * gammadet, alpha * vtill + cmax) - Prod(Ur * gammadet, cmax - alpha * vtilr)
  {
    hide Prod, LlfFlux;
    LlfSides(Ul * gammadet, alpha * vtill, Ur * gammadet, alpha * vtilr, Max(Max(-vml, vpl), Max(-vmr, vpr)));
    var gdet := alpha * gammadet;
    var Fl, Fr := Ul * vtill, Ur * vtilr;
    cmax := Max(Max(-vml, vpl), Max(-vmr, vpr));
    flux := 0.5 * ((Fl + Fr) * gdet - cmax * ((Ur - Ul) * gammadet));
    LlfAlgebra(Ul, vtill, Ur, vtilr, alpha, gammadet, Fl, Fr, gdet, cmax);
  }

  lemma LlfAlgebra(Ul: real, vl: real, Ur: real, vr: real, alpha: real, g: real, Fl: real, Fr: real, gdet: real, c: real)
    requires gdet == alpha * g && Fl == Ul * vl && Fr == Ur * vr
    ensures 0.5 * ((Fl + Fr) * gdet - c * ((Ur - Ul) * g)) == LlfFlux(Ul * g, alpha * vl, Ur * g, alpha * vr, c)
  {
    Densitize(Ul, vl, alpha, g);
    Densitize(Ur, vr, alpha, g);
    hide Prod;
    assert (Fl + Fr) * gdet == Fl * gdet + Fr * gdet;
    assert (Ur - Ul) * g == Ur * g - Ul * g;
  }

  lemma Densitize(U: real, v: real, alpha: real, g: real)
    ensures U * v * (alpha * g) == Prod(U * g, alpha * v)
  {
  }

  // ---------------------------------------------------------------------------------------------
  // One update.

  /** The data of one update: velocity of every cell, speed at the low face of every cell, and the
      time step over the cell width. */
  datatype Update = Update(lam: seq<real>, c: seq<real>, k: real) {
    /** The face speeds bound the fluid on both sides. */
    ghost predicate Valid(n: nat) {
      && n >= 1 && |lam| == |c| == n && k >= 0.0
      && forall i :: 0 <= i < n ==> Abs(lam[i]) <= c[i] && Abs(lam[i]) <= c[Next(n, i)]
    }

    /** No cell is crossed in one step: k times the faster of its two faces is at most one. */
    ghost predicate Cfl(n: nat)
      requires Valid(n)
    {
      forall i :: 0 <= i < n ==> Prod(k, Max(c[i], c[Next(n, i)])) <= 1.0
    }
  }

  function Next(n: nat, i: nat): (j: nat)
    requires i < n
    ensures j < n
  {
    if i + 1 == n then 0 else i + 1
  }

  function Previous(n: nat, i: nat): (j: nat)
    requires i < n
    ensures j < n
  {
    if i == 0 then n - 1 else i - 1
  }

  /** Flux through the low face of cell i. */
  function Flux(u: Update, D: seq<real>, i: nat): real
    requires |u.lam| == |u.c| == |D| && i < |D|
  {
    var l := Previous(|D|, i);
    LlfFlux(D[l], u.lam[l], D[i], u.lam[i], u.c[i])
  }

  function Advanced(u: Update, D: seq<real>, i: nat): real
    requires |u.lam| == |u.c| == |D| && i < |D|
  {
    Balance(u.k, D[i], Flux(u, D, Next(|D|, i)), Flux(u, D, i))
  }

  /** Density minus the difference of the fluxes. */
  function Balance(k: real, D: real, high: real, low: real): real { D - k * (high - low) }

  /** The new density is a combination of three old ones; the weights are what the speeds leave. */
  lemma Weights(Dl: real, ll: real, D: real, lam: real, Dr: real, lr: real, cl: real, cr: real, k: real)
    ensures D - k * (LlfFlux(D, lam, Dr, lr, cr) - LlfFlux(Dl, ll, D, lam, cl))
            == D * (1.0 - Prod(k, 0.5 * (cl + cr))) + 0.5 * k * (Dr * (cr - lr) + Dl * (cl + ll))
  {
    var f := LlfFlux(D, lam, Dr, lr, cr) - LlfFlux(Dl, ll, D, lam, cl);
    assert f == D * (0.5 * (cl + cr)) - 0.5 * (Dr * (cr - lr) + Dl * (cl + ll));
    var x, y := D * (0.5 * (cl + cr)), Dr * (cr - lr) + Dl * (cl + ll);
    assert k * f == k * x - 0.5 * k * y;
    assert k * x == D * (k * (0.5 * (cl + cr)));
  }

  lemma CellStaysNonneg(Dl: real, ll: real, D: real, lam: real, Dr: real, lr: real, cl: real, cr: real, k: real)
    requires Dl >= 0.0 && D >= 0.0 && Dr >= 0.0 && k >= 0.0
    requires Abs(ll) <= cl && Abs(lr) <= cr && Prod(k, Max(cl, cr)) <= 1.0
    ensures Balance(k, D, LlfFlux(D, lam, Dr, lr, cr), LlfFlux(Dl, ll, D, lam, cl)) >= 0.0
  {
    hide *;
    Weights(Dl, ll, D, lam, Dr, lr, cl, cr, k);
    MeanBelowMax(cl, cr, k);
    SideGain(lr, cr);
    SideGain(ll, cl);
    NonnegSum(D, 1.0 - Prod(k, 0.5 * (cl + cr)), k, Dr, cr - lr, Dl, cl + ll);
    BalanceIs(k, D, LlfFlux(D, lam, Dr, lr, cr), LlfFlux(Dl, ll, D, lam, cl));
  }

  lemma BalanceIs(k: real, D: real, high: real, low: real)
    ensures Balance(k, D, high, low) == D - k * (high - low)
  {
  }

  lemma MeanBelowMax(cl: real, cr: real, k: real)
    requires k >= 0.0 && Prod(k, Max(cl, cr)) <= 1.0
    ensures Prod(k, 0.5 * (cl + cr)) <= 1.0
  {
    MulMono(0.5 * (cl + cr), Max(cl, cr), k);
  }

  lemma SideGain(lam: real, c: real)
    requires Abs(lam) <= c
    ensures c - lam >= 0.0 && c + lam >= 0.0
  {
  }

  lemma NonnegSum(D: real, w: real, k: real, a: real, x: real, b: real, y: real)
    requires D >= 0.0 && w >= 0.0 && k >= 0.0 && a >= 0.0 && x >= 0.0 && b >= 0.0 && y >= 0.0
    ensures D * w + 0.5 * k * (a * x + b * y) >= 0.0
  {
    hide *;
    MulNonneg(D, w);
    MulNonneg(a, x);
    MulNonneg(b, y);
    MulNonneg(0.5 * k, a * x + b * y);
  }

  lemma AdvancedNonneg(u: Update, D: seq<real>, i: nat)
    requires u.Valid(|D|) && u.Cfl(|D|) && i < |D| && forall j :: 0 <= j < |D| ==> D[j] >= 0.0
    ensures Advanced(u, D, i) >= 0.0
  {
    var l, r := Previous(|D|, i), Next(|D|, i);
    hide LlfFlux, Prod, Abs, Balance;
    assert Next(|D|, l) == i && Previous(|D|, r) == i;
    CellStaysNonneg(D[l], u.lam[l], D[i], u.lam[i], D[r], u.lam[r], u.c[i], u.c[r], u.k);
  }

  function Sum(D: seq<real>): real {
    if D == [] then 0.0 else Sum(D[..|D| - 1]) + D[|D| - 1]
  }

  /** Fluxes cancel in pairs. */
  lemma {:induction false} PartialSum(u: Update, D: seq<real>, E: seq<real>, m: nat)
    requires |u.lam| == |u.c| == |D| == |E| && 0 < m <= |D|
    requires forall i :: 0 <= i < |D| ==> E[i] == Advanced(u, D, i)
    ensures Sum(E[..m]) == Balance(u.k, Sum(D[..m]), Flux(u, D, if m == |D| then 0 else m), Flux(u, D, 0))
  {
    assert D[..m][..m - 1] == D[..m - 1] && E[..m][..m - 1] == E[..m - 1];
    hide Flux, Balance;
    var f0, f1 := Flux(u, D, m - 1), Flux(u, D, Next(|D|, m - 1));
    if m > 1 {
      PartialSum(u, D, E, m - 1);
      Telescope(u.k, Sum(D[..m - 1]), Flux(u, D, 0), f0, f1, D[m - 1]);
    } else {
      assert Sum(D[..0]) == 0.0 && Sum(E[..0]) == 0.0;
      Telescope(u.k, 0.0, f0, f0, f1, D[0]);
    }
  }

  lemma Telescope(k: real, x: real, f: real, g: real, h: real, D: real)
    ensures Balance(k, x, g, f) + Balance(k, D, h, g) == Balance(k, x + D, h, f)
    ensures Balance(k, x, f, f) == x
  {
    var a, b := g - f, h - g;
    assert k * (h - f) == k * a + k * b;
  }

  lemma AdvancedConserves(u: Update, D: seq<real>, E: seq<real>)
    requires |u.lam| == |u.c| == |D| == |E| >= 1
    requires forall i :: 0 <= i < |D| ==> E[i] == Advanced(u, D, i)
    ensures Sum(E) == Sum(D)
  {
    hide Flux, Balance;
    PartialSum(u, D, E, |D|);
    Telescope(u.k, Sum(D), Flux(u, D, 0), 0.0, 0.0, 0.0);
    assert D[..|D|] == D && E[..|E|] == E;
  }

  // ---------------------------------------------------------------------------------------------
  // Runge-Kutta stages and whole runs.

  /** beta * (D + k L(D)) + (1 - beta) * base. */
  datatype Stage = Stage(beta: real, u: Update)

  function Staged(s: Stage, base: seq<real>, D: seq<real>): (E: seq<real>)
    requires |s.u.lam| == |s.u.c| == |D| == |base|
    ensures |E| == |D|
  {
    seq(|D|, i requires 0 <= i < |D| => Mixed(s.beta, Advanced(s.u, D, i), base[i]))
  }

  function Mixed(beta: real, x: real, y: real): real { beta * x + (1.0 - beta) * y }

  ghost predicate Admissible(n: nat, stages: seq<Stage>) {
    forall s <- stages :: 0.0 <= s.beta <= 1.0 && s.u.Valid(n) && s.u.Cfl(n)
  }

  /** All stages of one step, averaged against the density the step began with. */
  ghost function Step(base: seq<real>, D: seq<real>, stages: seq<Stage>): (E: seq<real>)
    requires Admissible(|D|, stages) && |base| == |D|
    ensures |E| == |D|
    decreases |stages|
  {
    if stages == [] then D
    else
      assert stages[0] in stages;
      Step(base, Staged(stages[0], base, D), stages[1..])
  }

  ghost function Run(D: seq<real>, steps: seq<seq<Stage>>): (E: seq<real>)
    requires forall s <- steps :: Admissible(|D|, s)
    ensures |E| == |D|
    decreases |steps|
  {
    if steps == [] then D
    else
      assert steps[0] in steps;
      Run(Step(D, D, steps[0]), steps[1..])
  }

  ghost predicate Nonneg(D: seq<real>) { forall i :: 0 <= i < |D| ==> D[i] >= 0.0 }

  lemma StagedKeeps(s: Stage, base: seq<real>, D: seq<real>)
    requires |D| == |base| >= 1 && s.u.Valid(|D|) && s.u.Cfl(|D|) && 0.0 <= s.beta <= 1.0
    requires Sum(D) == Sum(base)
    ensures Nonneg(D) && Nonneg(base) ==> Nonneg(Staged(s, base, D))
    ensures Sum(Staged(s, base, D)) == Sum(D)
  {
    hide Advanced, Update.Valid, Update.Cfl, Mixed, Sum;
    ValidShape(s.u, |D|);
    var E := seq(|D|, i requires 0 <= i < |D| => Advanced(s.u, D, i));
    var F := Staged(s, base, D);
    AdvancedConserves(s.u, D, E);
    MixedSum(s.beta, E, base, F, |D|);
    assert F[..|D|] == F && E[..|D|] == E && base[..|D|] == base;
    MixedSame(s.beta, Sum(D));
    if Nonneg(D) && Nonneg(base) {
      forall i | 0 <= i < |D| ensures F[i] >= 0.0 {
        AdvancedNonneg(s.u, D, i);
        MixedNonneg(s.beta, E[i], base[i]);
      }
    }
  }

  lemma MixedNonneg(beta: real, x: real, y: real)
    requires 0.0 <= beta <= 1.0 && x >= 0.0 && y >= 0.0
    ensures Mixed(beta, x, y) >= 0.0
  {
    MulNonneg(beta, x);
    MulNonneg(1.0 - beta, y);
  }

  lemma MixedSame(beta: real, x: real)
    ensures Mixed(beta, x, x) == x
  {
  }

  lemma ValidShape(u: Update, n: nat)
    requires u.Valid(n)
    ensures |u.lam| == |u.c| == n
  {
  }

  lemma {:induction false} MixedSum(beta: real, E: seq<real>, B: seq<real>, F: seq<real>, m: nat)
    requires |E| == |B| == |F| && m <= |E| && forall i :: 0 <= i < |E| ==> F[i] == Mixed(beta, E[i], B[i])
    ensures Sum(F[..m]) == Mixed(beta, Sum(E[..m]), Sum(B[..m]))
  {
    if m > 0 {
      MixedSum(beta, E, B, F, m - 1);
      assert E[..m][..m - 1] == E[..m - 1] && B[..m][..m - 1] == B[..m - 1] && F[..m][..m - 1] == F[..m - 1];
      MixedAdds(beta, Sum(E[..m - 1]), E[m - 1], Sum(B[..m - 1]), B[m - 1]);
    } else {
      assert Sum(F[..0]) == 0.0 && Sum(E[..0]) == 0.0 && Sum(B[..0]) == 0.0;
    }
  }

  lemma MixedAdds(beta: real, x: real, x': real, y: real, y': real)
    ensures Mixed(beta, x, y) + Mixed(beta, x', y') == Mixed(beta, x + x', y + y')
  {
  }

  lemma {:induction false} StepKeeps(base: seq<real>, D: seq<real>, stages: seq<Stage>)
    requires |D| == |base| >= 1 && Admissible(|D|, stages) && Sum(D) == Sum(base)
    ensures Nonneg(D) && Nonneg(base) ==> Nonneg(Step(base, D, stages))
    ensures Sum(Step(base, D, stages)) == Sum(D)
    decreases |stages|
  {
    hide Staged, Nonneg;
    if stages != [] {
      assert stages[0] in stages;
      StagedKeeps(stages[0], base, D);
      StepKeeps(base, Staged(stages[0], base, D), stages[1..]);
    }
  }

  /** Any number of steps whose time steps obey the CFL bound keeps every density nonnegative and the
      total unchanged. */
  lemma {:induction false} RunKeeps(D: seq<real>, steps: seq<seq<Stage>>)
    requires |D| >= 1 && forall s <- steps :: Admissible(|D|, s)
    ensures Nonneg(D) ==> Nonneg(Run(D, steps))
    ensures Sum(Run(D, steps)) == Sum(D)
    decreases |steps|
  {
    hide Step, Nonneg;
    if steps != [] {
      assert steps[0] in steps;
      StepKeeps(D, D, steps[0]);
      RunKeeps(Step(D, D, steps[0]), steps[1..]);
    }
  }

  /** What a stage leaves in one cell: the average of the old density and the base, less beta * k times the
      difference of the fluxes through its two faces, each taken from the cells it separates. */
  lemma StageIs(s: Stage, base: seq<real>, D: seq<real>, i: nat)
    requires |s.u.lam| == |s.u.c| == |D| == |base| && i < |D|
    ensures var n, v, c := |D|, s.u.lam, s.u.c;
            var l, r := if i == 0 then n - 1 else i - 1, if i == n - 1 then 0 else i + 1;
            Staged(s, base, D)[i] == base[i] + s.beta * (D[i] - base[i])
              - s.beta * s.u.k * (LlfFlux(D[i], v[i], D[r], v[r], c[r]) - LlfFlux(D[l], v[l], D[i], v[i], c[i]))
  {
    hide LlfFlux, Balance, Mixed;
    var l, r := Previous(|D|, i), Next(|D|, i);
    assert Previous(|D|, r) == i;
    StageAlgebra(s.beta, s.u.k, D[i], base[i], Flux(s.u, D, r), Flux(s.u, D, i));
  }

  lemma StageAlgebra(beta: real, k: real, x: real, y: real, high: real, low: real)
    ensures Mixed(beta, Balance(k, x, high, low), y) == y + beta * (x - y) - beta * k * (high - low)
  {
  }

  /** A step applies its stages in order, each averaged against the density the step began with. */
  lemma {:induction false} StepAppends(base: seq<real>, D: seq<real>, stages: seq<Stage>, s: Stage)
    requires Admissible(|D|, stages + [s]) && |base| == |D|
    ensures Admissible(|D|, stages) && |s.u.lam| == |s.u.c| == |D|
    ensures Step(base, D, []) == D && Step(base, D, stages + [s]) == Staged(s, base, Step(base, D, stages))
    decreases |stages|
  {
    hide Staged;
    assert s in stages + [s] && forall t <- stages :: t in stages + [s];
    if stages != [] {
      assert (stages + [s])[0] == stages[0] && (stages + [s])[1..] == stages[1..] + [s] && stages[0] in stages;
      StepAppends(base, Staged(stages[0], base, D), stages[1..], s);
    } else {
      assert stages + [s] == [s];
      assert Step(base, Staged(s, base, D), [s][1..]) == Staged(s, base, D);
    }
  }

  /** A run applies its steps in order. */
  lemma {:induction false} RunAppends(D: seq<real>, steps: seq<seq<Stage>>, s: seq<Stage>)
    requires forall t <- steps + [s] :: Admissible(|D|, t)
    ensures s in steps + [s] && forall t <- steps :: t in steps + [s]
    ensures Run(D, []) == D && var E := Run(D, steps); Run(D, steps + [s]) == Step(E, E, s)
    decreases |steps|
  {
    hide Step, Admissible;
    assert s in steps + [s] && forall t <- steps :: t in steps + [s];
    if steps != [] {
      assert (steps + [s])[0] == steps[0] && (steps + [s])[1..] == steps[1..] + [s] && steps[0] in steps;
      RunAppends(Step(D, D, steps[0]), steps[1..], s);
    } else {
      assert steps + [s] == [s];
      assert Run(Step(D, D, s), [s][1..]) == Step(D, D, s);
    }
  }

  // ---------------------------------------------------------------------------------------------
  // Where the CFL bound comes from.

  type Width = x: real | x > 0.0 witness 1.0

  /** Signal speeds of one cell along one direction: its own, and those of its two faces. */
  datatype Speeds = Speeds(cell: real, low: real, high: real, dx: Width) {
    function Largest(): real { Max(cell, Max(low, high)) }
  }

  const TINY: real := 1e-50

  /** What one cell allows: one over the sum of speed over width. */
  function CrossingRate(dirs: seq<Speeds>): real {
    if dirs == [] then 0.0
    else CrossingRate(dirs[..|dirs| - 1]) + dirs[|dirs| - 1].Largest() / dirs[|dirs| - 1].dx
  }

  /** In one, two and three dimensions, with the fastest of the three signal speeds in each direction. */
  lemma CrossingRates(s: Speeds, t: Speeds, u: Speeds)
    ensures CrossingRate([s]) == Max(s.cell, Max(s.low, s.high)) / s.dx
    ensures CrossingRate([s, t]) == CrossingRate([s]) + Max(t.cell, Max(t.low, t.high)) / t.dx
    ensures CrossingRate([s, t, u]) == CrossingRate([s, t]) + Max(u.cell, Max(u.low, u.high)) / u.dx
  {
    assert [s][..0] == [] && [s, t][..1] == [s] && [s, t, u][..2] == [s, t];
  }

  ghost predicate Measured(cells: seq<seq<Speeds>>) {
    forall c <- cells :: (forall s <- c :: s.Largest() >= 0.0)
  }

  /** EstimateTimestepBlock: the reduction over all cells, times the CFL number. */
  method EstimateTimestep(cells: seq<seq<Speeds>>, cfl: real, huge: real) returns (dt: real)
    requires Measured(cells) && cfl > 0.0 && huge > 0.0
    ensures dt <= cfl * huge && Within(cells, cfl, dt)
    ensures dt == cfl * huge || exists i :: 0 <= i < |cells| && Prod(dt, CrossingRate(cells[i]) + TINY) == cfl
  {
    hide CrossingRate, Prod, Measured;
    var minDt := huge;
    ghost var at := -1;
    for i := 0 to |cells|
      invariant 0.0 < minDt <= huge
      invariant forall k :: 0 <= k < i ==> Prod(minDt, CrossingRate(cells[k]) + TINY) <= 1.0
      invariant -1 <= at < i && (at == -1 ==> minDt == huge)
      invariant at >= 0 ==> Prod(minDt, CrossingRate(cells[at]) + TINY) == 1.0
    {
      CellOk(cells, i);
      var ldt := Accumulate(cells[i]);
      RateNonneg(cells[i]);
      var limit := 1.0 / (ldt + TINY);
      LimitIs(ldt + TINY, limit);
      if limit < minDt {
        ghost var before := minDt;
        minDt := limit;
        at := i;
        forall k | 0 <= k < i ensures Prod(minDt, CrossingRate(cells[k]) + TINY) <= 1.0 {
          CellOk(cells, k);
          RateNonneg(cells[k]);
          Tighter(minDt, before, CrossingRate(cells[k]) + TINY);
        }
      } else {
        Tighter(minDt, limit, ldt + TINY);
      }
    }
    dt := cfl * minDt;
    forall i | 0 <= i < |cells| ensures Prod(dt, CrossingRate(cells[i]) + TINY) <= cfl
    {
      CellOk(cells, i);
      ScaleBound(cfl, minDt, CrossingRate(cells[i]) + TINY);
    }
    MulPos(cfl, minDt);
    MulMono(minDt, huge, cfl);
    if at >= 0 {
      CellOk(cells, at);
      ScaleBound(cfl, minDt, CrossingRate(cells[at]) + TINY);
    }
  }

  ghost predicate CellMeasured(cells: seq<seq<Speeds>>, k: nat)
    requires k < |cells|
  {
    forall s <- cells[k] :: s.Largest() >= 0.0
  }

  lemma CellOk(cells: seq<seq<Speeds>>, k: nat)
    requires k < |cells| && Measured(cells)
    ensures CellMeasured(cells, k)
  {
    assert cells[k] in cells;
  }

  method Accumulate(dirs: seq<Speeds>) returns (ldt: real)
    ensures ldt == CrossingRate(dirs)
  {
    ldt := 0.0;
    for d := 0 to |dirs|
      invariant ldt == CrossingRate(dirs[..d])
    {
      assert dirs[..d + 1][..d] == dirs[..d];
      var maxS := Max(dirs[d].cell, Max(dirs[d].low, dirs[d].high));
      ldt := ldt + maxS / dirs[d].dx;
    }
    assert dirs[..|dirs|] == dirs;
  }

  lemma {:induction false} RateNonneg(dirs: seq<Speeds>)
    requires forall s <- dirs :: s.Largest() >= 0.0
    ensures CrossingRate(dirs) >= 0.0
  {
    if dirs != [] {
      var s := dirs[|dirs| - 1];
      assert s in dirs;
      RateNonneg(dirs[..|dirs| - 1]);
      DivNonneg(s.Largest(), s.dx);
    }
  }

  lemma LimitIs(rate: real, limit: real)
    requires rate > 0.0 && limit == 1.0 / rate
    ensures limit > 0.0 && Prod(limit, rate) == 1.0
  {
    DivMul(1.0, rate);
    DivPos(1.0, rate);
  }

  lemma Tighter(a: real, b: real, rate: real)
    requires a <= b && rate >= 0.0 && Prod(b, rate) <= 1.0
    ensures Prod(a, rate) <= 1.0
  {
    MulMono(a, b, rate);
  }

  lemma ScaleBound(cfl: real, x: real, rate: real)
    requires cfl > 0.0
    ensures Prod(x, rate) <= 1.0 ==> Prod(cfl * x, rate) <= cfl
    ensures Prod(x, rate) == 1.0 ==> Prod(cfl * x, rate) == cfl
  {
    var p := x * rate;
    assert cfl * x * rate == cfl * p;
    if p <= 1.0 { MulMono(p, 1.0, cfl); }
  }

  /** A step within the bound of every cell, as EstimateTimestep returns it. */
  ghost predicate Within(cells: seq<seq<Speeds>>, cfl: real, dt: real) {
    dt > 0.0 && forall i :: 0 <= i < |cells| ==> Prod(dt, CrossingRate(cells[i]) + TINY) <= cfl
  }

  /** Direction d of a block holds a periodic line of n cells of width dx: neighbours report the same speed
      at the face they share. */
  ghost predicate Line(cells: seq<seq<Speeds>>, n: nat, d: nat, dx: Width) {
    && |cells| == n >= 1 && Measured(cells)
    && (forall i :: 0 <= i < n ==> d < |cells[i]| && cells[i][d].dx == dx)
    && (forall i :: 0 <= i < n ==> cells[i][d].high == cells[Next(n, i)][d].low)
  }

  /** The face speeds along that line. */
  function FaceSpeeds(cells: seq<seq<Speeds>>, d: nat): seq<real>
    requires forall i :: 0 <= i < |cells| ==> d < |cells[i]|
  {
    seq(|cells|, i requires 0 <= i < |cells| => cells[i][d].low)
  }

  /** One direction crosses no faster than all of them together. */
  lemma {:induction false} RateOfOne(dirs: seq<Speeds>, d: nat)
    requires d < |dirs| && forall s <- dirs :: s.Largest() >= 0.0
    ensures dirs[d].Largest() / dirs[d].dx <= CrossingRate(dirs)
  {
    hide Speeds.Largest;
    var front, last := dirs[..|dirs| - 1], dirs[|dirs| - 1];
    assert last in dirs && forall s <- front :: s in dirs;
    DivNonneg(last.Largest(), last.dx);
    RateNonneg(front);
    if d < |front| { RateOfOne(front, d); }
  }

  /** The estimated step satisfies the CFL condition of every update along every line of the block that has
      the face speeds it was estimated from. */
  lemma EstimateGivesCfl(cells: seq<seq<Speeds>>, n: nat, d: nat, dx: Width, lam: seq<real>, cfl: real, dt: real)
    requires Line(cells, n, d, dx) && Within(cells, cfl, dt) && 0.0 < cfl <= 1.0
    requires var u := Update(lam, FaceSpeeds(cells, d), dt / dx); u.Valid(n)
    ensures Update(lam, FaceSpeeds(cells, d), dt / dx).Cfl(n)
  {
    hide CrossingRate, Update.Valid;
    var u := Update(lam, FaceSpeeds(cells, d), dt / dx);
    forall i | 0 <= i < n ensures Prod(u.k, Max(u.c[i], u.c[Next(n, i)])) <= 1.0 {
      CellOk(cells, i);
      RateOfOne(cells[i], d);
      CellCfl(cells[i][d], CrossingRate(cells[i]), dt, cfl);
    }
  }

  lemma CellCfl(s: Speeds, rate: real, dt: real, cfl: real)
    requires s.Largest() / s.dx <= rate && dt > 0.0 && 0.0 < cfl <= 1.0 && Prod(dt, rate + TINY) <= cfl
    ensures Prod(dt / s.dx, Max(s.low, s.high)) <= 1.0
  {
    var L, k := s.Largest(), dt / s.dx;
    DivPos(dt, s.dx);
    DivMul(dt, s.dx);
    DivMul(L, s.dx);
    MulMono(L / s.dx, rate + TINY, dt);
    assert dt * (L / s.dx) == k * L by { assert k * s.dx * (L / s.dx) == k * (L / s.dx * s.dx); }
    MulMono(Max(s.low, s.high), L, k);
  }

  /** One stage together with the speeds its step was estimated from. */
  datatype Timed = Timed(beta: real, lam: seq<real>, cells: seq<seq<Speeds>>, dt: real) {
    ghost predicate Ok(n: nat, d: nat, dx: Width, cfl: real) {
      && 0.0 <= beta <= 1.0 && Line(cells, n, d, dx) && Within(cells, cfl, dt)
      && AsUpdate(d, dx).Valid(n)
    }

    function AsUpdate(d: nat, dx: Width): Update
      requires forall i :: 0 <= i < |cells| ==> d < |cells[i]|
    {
      Update(lam, FaceSpeeds(cells, d), dt / dx)
    }
  }

  ghost predicate Estimated(steps: seq<seq<Stage>>, timed: seq<seq<Timed>>, n: nat, d: nat, dx: Width, cfl: real) {
    && |steps| == |timed|
    && forall i :: 0 <= i < |steps| ==>
         |steps[i]| == |timed[i]| && forall j :: 0 <= j < |steps[i]| ==> StageOf(steps[i][j], timed[i][j], n, d, dx, cfl)
  }

  ghost predicate StageOf(s: Stage, t: Timed, n: nat, d: nat, dx: Width, cfl: real) {
    t.Ok(n, d, dx, cfl) && s == Stage(t.beta, t.AsUpdate(d, dx))
  }

  /** Whole runs: any number of steps and stages, each with a time step within the estimate of its own face
      speeds at a CFL number of at most one, keep every density nonnegative and the total unchanged. */
  lemma EstimatedRunKeeps(D: seq<real>, steps: seq<seq<Stage>>, timed: seq<seq<Timed>>, d: nat, dx: Width, cfl: real)
    requires |D| >= 1 && 0.0 < cfl <= 1.0 && Estimated(steps, timed, |D|, d, dx, cfl)
    ensures forall s <- steps :: Admissible(|D|, s)
    ensures Nonneg(D) ==> Nonneg(Run(D, steps))
    ensures Sum(Run(D, steps)) == Sum(D)
  {
    hide Timed.Ok, Nonneg, Sum, Update.Cfl, Update.Valid;
    forall s | s in steps ensures Admissible(|D|, s) {
      var i :| 0 <= i < |steps| && steps[i] == s;
      forall x | x in s ensures 0.0 <= x.beta <= 1.0 && x.u.Valid(|D|) && x.u.Cfl(|D|) {
        var j :| 0 <= j < |s| && s[j] == x;
        StageAdmissible(steps[i][j], timed[i][j], |D|, d, dx, cfl);
      }
    }
    RunKeeps(D, steps);
  }

  lemma StageAdmissible(s: Stage, t: Timed, n: nat, d: nat, dx: Width, cfl: real)
    requires StageOf(s, t, n, d, dx, cfl) && 0.0 < cfl <= 1.0
    ensures 0.0 <= s.beta <= 1.0 && s.u.Valid(n) && s.u.Cfl(n)
  {
    hide Update.Cfl, Update.Valid;
    EstimateGivesCfl(t.cells, n, d, dx, t.lam, cfl, t.dt);
  }
}
