/** Repair of cells whose inversion or source update failed: the masked neighbour average shared by
    fixup_c2p, fixup_radc2p and fixup_src, run in place and in parallel. */
module Repair {
  import opened Reals

  const SUCCESS: real := 1.0
  const FAIL: real := 0.0

  /** One cell of the pack: its failure flag and the variables the kernel repairs. */
  datatype Zone = Zone(flag: real, vals: seq<real>) {
    predicate Good() { flag == SUCCESS }
  }

  datatype Index = Index(k: int, j: int, i: int)

  type Grid = Index -> Zone

  /** A repaired variable: the value it gets without good neighbours, and the floor, if any, that is
      put under an average. */
  datatype Variable = Variable(fallback: real, floor: Floor)

  datatype Floor = NoFloor | AtLeast(bound: real)

  /** density, energy, three velocities, electron fraction. */
  const FLUID_C2P: seq<Variable> :=
    [Variable(100.0 * SMALL, AtLeast(100.0 * SMALL)), Variable(100.0 * SMALL, AtLeast(100.0 * SMALL)),
     Variable(0.0, NoFloor), Variable(0.0, NoFloor), Variable(0.0, NoFloor), Variable(0.5, NoFloor)]

  /** radiation energy J and flux H of one species. */
  const RADIATION: seq<Variable> :=
    [Variable(10.0 * SMALL, NoFloor), Variable(0.0, NoFloor), Variable(0.0, NoFloor), Variable(0.0, NoFloor)]

  /** density, energy, three velocities, electron fraction and the radiation of one species after a failed
      source update. */
  const SOURCE: seq<Variable> :=
    [Variable(10.0 * SMALL, NoFloor), Variable(10.0 * SMALL, NoFloor),
     Variable(0.0, NoFloor), Variable(0.0, NoFloor), Variable(0.0, NoFloor), Variable(0.5, NoFloor)] + RADIATION

  /** Positions in these lists. */
  const DENSITY: nat := 0
  const ENERGY: nat := 1
  const SOURCE_J: nat := 6

  /** What differs between the kernels: the variables, the dimension, the failure strategy, and the
      per-cell work done on the repaired values (velocity clamp, flux rescaling). */
  datatype Kernel = Kernel(vars: seq<Variable>, ndim: nat, interpolate: bool, post: (Index, seq<real>) -> seq<real>) {
    ghost predicate Valid() {
      1 <= ndim <= 3 && forall c, x :: |x| == |vars| ==> |post(c, x)| == |vars|
    }

    /** The per-cell work leaves variable v alone. */
    ghost predicate Keeps(v: nat) {
      Valid() && v < |vars| && forall c, x :: |x| == |vars| ==> post(c, x)[v] == x[v]
    }

    function Neighbours(c: Index): seq<Index> {
      [Index(c.k, c.j, c.i - 1), Index(c.k, c.j, c.i + 1)]
      + (if ndim > 1 then [Index(c.k, c.j - 1, c.i), Index(c.k, c.j + 1, c.i)] else [])
      + (if ndim == 3 then [Index(c.k - 1, c.j, c.i), Index(c.k + 1, c.j, c.i)] else [])
    }
  }

  /** Which cells these are: those that share a face with c in one of the dimensions of the problem, each
      once. */
  lemma FaceNeighbours(kn: Kernel, c: Index, d: Index)
    requires 1 <= kn.ndim <= 3
    ensures d in kn.Neighbours(c) <==>
            || (d.k == c.k && d.j == c.j && (d.i == c.i - 1 || d.i == c.i + 1))
            || (kn.ndim >= 2 && d.k == c.k && d.i == c.i && (d.j == c.j - 1 || d.j == c.j + 1))
            || (kn.ndim == 3 && d.j == c.j && d.i == c.i && (d.k == c.k - 1 || d.k == c.k + 1))
    ensures |kn.Neighbours(c)| == 2 * kn.ndim
    ensures forall x, y :: 0 <= x < y < |kn.Neighbours(c)| ==> kn.Neighbours(c)[x] != kn.Neighbours(c)[y]
  {
    var row := [Index(c.k, c.j, c.i - 1), Index(c.k, c.j, c.i + 1)];
    var column := if kn.ndim > 1 then [Index(c.k, c.j - 1, c.i), Index(c.k, c.j + 1, c.i)] else [];
    var stack := if kn.ndim == 3 then [Index(c.k - 1, c.j, c.i), Index(c.k + 1, c.j, c.i)] else [];
    assert kn.Neighbours(c) == row + column + stack;
    assert d in row + column + stack <==> d in row || d in column || d in stack;
    assert row[0] == Index(c.k, c.j, c.i - 1) && row[1] == Index(c.k, c.j, c.i + 1);
  }

  /** Every flag is one of the two and every cell carries all variables. */
  ghost predicate WellFormed(kn: Kernel, g: Grid) {
    forall c :: (g(c).flag == SUCCESS || g(c).flag == FAIL) && |g(c).vals| == |kn.vars|
  }

  // ---------------------------------------------------------------------------------------------
  // The reference: the mean of the good neighbours.

  function Sum(s: seq<real>): real {
    if s == [] then 0.0 else s[0] + Sum(s[1..])
  }

  function Mean(s: seq<real>): real
    requires s != []
  {
    Sum(s) / |s| as real
  }

  /** Variable v of those cells of ns that are good. */
  ghost function GoodValues(kn: Kernel, g: Grid, ns: seq<Index>, v: nat): seq<real>
    requires WellFormed(kn, g) && v < |kn.vars|
  {
    if ns == [] then []
    else (if g(ns[0]).Good() then [g(ns[0]).vals[v]] else []) + GoodValues(kn, g, ns[1..], v)
  }

  function Floored(x: real, f: Floor): real {
    match f case NoFloor => x case AtLeast(b) => Max(x, b)
  }

  ghost function Averaged(kn: Kernel, g: Grid, c: Index, v: nat): real
    requires WellFormed(kn, g) && v < |kn.vars|
  {
    var good := GoodValues(kn, g, kn.Neighbours(c), v);
    if good != [] && kn.interpolate then Floored(Mean(good), kn.vars[v].floor) else kn.vars[v].fallback
  }

  /** The whole grid after the repair, as a function of the grid before it. */
  ghost function Repaired(kn: Kernel, g: Grid, c: Index): Zone
    requires kn.Valid() && WellFormed(kn, g)
  {
    if g(c).Good() then g(c)
    else Zone(g(c).flag, kn.post(c, seq(|kn.vars|, v requires 0 <= v < |kn.vars| => Averaged(kn, g, c, v))))
  }

  // ---------------------------------------------------------------------------------------------
  // The masked sums of the kernels.

  function NumValid(g: Grid, ns: seq<Index>): real {
    if ns == [] then 0.0 else g(ns[0]).flag + NumValid(g, ns[1..])
  }

  /** A value times its flag. */
  function Masked(z: Zone, v: nat): real
    requires v < |z.vals|
  {
    z.flag * z.vals[v]
  }

  ghost function MaskedSum(kn: Kernel, g: Grid, ns: seq<Index>, v: nat): real
    requires WellFormed(kn, g) && v < |kn.vars|
  {
    if ns == [] then 0.0 else Masked(g(ns[0]), v) + MaskedSum(kn, g, ns[1..], v)
  }

  lemma {:induction false} MasksSelect(kn: Kernel, g: Grid, ns: seq<Index>, v: nat)
    requires WellFormed(kn, g) && v < |kn.vars|
    ensures NumValid(g, ns) == |GoodValues(kn, g, ns, v)| as real
    ensures MaskedSum(kn, g, ns, v) == Sum(GoodValues(kn, g, ns, v))
  {
    hide Masked;
    if ns != [] {
      MasksSelect(kn, g, ns[1..], v);
      var rest := GoodValues(kn, g, ns[1..], v);
      assert ([g(ns[0]).vals[v]] + rest)[1..] == rest && [] + rest == rest;
      MaskTerm(g(ns[0]), v);
    }
  }

  lemma MaskTerm(z: Zone, v: nat)
    requires v < |z.vals|
    ensures z.flag == SUCCESS ==> Masked(z, v) == z.vals[v]
    ensures z.flag == FAIL ==> Masked(z, v) == 0.0
  {
  }

  /** The average the kernels form from masks is the mean of the good neighbours, and the test against
      one half asks whether there is one. */
  lemma MaskedAverageIsMean(kn: Kernel, g: Grid, ns: seq<Index>, v: nat)
    requires WellFormed(kn, g) && v < |kn.vars|
    ensures NumValid(g, ns) > 0.5 <==> GoodValues(kn, g, ns, v) != []
    ensures NumValid(g, ns) > 0.5 ==>
              Prod(1.0 / NumValid(g, ns), MaskedSum(kn, g, ns, v)) == Mean(GoodValues(kn, g, ns, v))
  {
    MasksSelect(kn, g, ns, v);
    var good := GoodValues(kn, g, ns, v);
    if good != [] {
      var n := |good| as real;
      NormTimes(n, Sum(good));
    }
  }

  lemma NormTimes(n: real, s: real)
    requires n > 0.0
    ensures 1.0 / n * s == s / n
  {
    DivMul(1.0, n);
    DivIs(s, n, 1.0 / n * s);
    assert 1.0 / n * s * n == s * (1.0 / n * n);
  }

  // ---------------------------------------------------------------------------------------------
  // Schedule independence.

  /** Same flags everywhere and same values wherever the flag is good. */
  ghost predicate SameGood(g: Grid, h: Grid) {
    forall c :: g(c).flag == h(c).flag && (g(c).Good() ==> g(c) == h(c))
  }

  lemma {:induction false} GoodValuesDepend(kn: Kernel, g: Grid, h: Grid, ns: seq<Index>, v: nat)
    requires WellFormed(kn, g) && WellFormed(kn, h) && SameGood(g, h) && v < |kn.vars|
    ensures GoodValues(kn, g, ns, v) == GoodValues(kn, h, ns, v)
  {
    if ns != [] { GoodValuesDepend(kn, g, h, ns[1..], v); }
  }

  /** No cell depends on a cell that another thread may be writing: what a failed cell becomes is
      decided by flags and good cells, and the repair changes neither. */
  lemma RepairDependsOnGood(kn: Kernel, g: Grid, h: Grid, c: Index)
    requires kn.Valid() && WellFormed(kn, g) && WellFormed(kn, h) && SameGood(g, h)
    ensures Repaired(kn, g, c) == Repaired(kn, h, c)
  {
    hide GoodValues, Mean, Floored;
    if !g(c).Good() {
      forall v | 0 <= v < |kn.vars| ensures Averaged(kn, g, c, v) == Averaged(kn, h, c, v) {
        GoodValuesDepend(kn, g, h, kn.Neighbours(c), v);
      }
      assert seq(|kn.vars|, v requires 0 <= v < |kn.vars| => Averaged(kn, g, c, v))
          == seq(|kn.vars|, v requires 0 <= v < |kn.vars| => Averaged(kn, h, c, v));
    }
  }

  /** One thread, on whatever the other threads have left of the grid. */
  ghost function Visit(kn: Kernel, g: Grid, c: Index): Grid
    requires kn.Valid() && WellFormed(kn, g)
  {
    (d: Index) => if d == c then Repaired(kn, g, c) else g(d)
  }

  ghost function Visits(kn: Kernel, g: Grid, order: seq<Index>): (h: Grid)
    requires kn.Valid() && WellFormed(kn, g)
    ensures WellFormed(kn, h) && SameGood(g, h)
    decreases |order|
  {
    if order == [] then g
    else
      var h := Visits(kn, g, order[..|order| - 1]);
      Visit(kn, h, order[|order| - 1])
  }

  /** Visiting cells in place in any order, any of them more than once, is repairing the visited cells
      of the original grid all at once. */
  lemma {:induction false} AnyOrder(kn: Kernel, g: Grid, order: seq<Index>, c: Index)
    requires kn.Valid() && WellFormed(kn, g)
    ensures Visits(kn, g, order)(c) == if c in order then Repaired(kn, g, c) else g(c)
    decreases |order|
  {
    if order != [] {
      var front, last := order[..|order| - 1], order[|order| - 1];
      assert order == front + [last];
      AnyOrder(kn, g, front, c);
      RepairDependsOnGood(kn, g, Visits(kn, g, front), last);
    }
  }

  lemma ScheduleIndependent(kn: Kernel, g: Grid, a: seq<Index>, b: seq<Index>, c: Index)
    requires kn.Valid() && WellFormed(kn, g) && (c in a <==> c in b)
    ensures Visits(kn, g, a)(c) == Visits(kn, g, b)(c)
  {
    AnyOrder(kn, g, a, c);
    AnyOrder(kn, g, b, c);
  }

  // ---------------------------------------------------------------------------------------------
  // Bounds.

  lemma {:induction false} SumBounds(s: seq<real>, lo: real, hi: real)
    requires forall x <- s :: lo <= x <= hi
    ensures Prod(lo, |s| as real) <= Sum(s) <= Prod(hi, |s| as real)
  {
    if s != [] {
      assert forall x <- s[1..] :: x in s;
      SumBounds(s[1..], lo, hi);
      ProdStep(lo, |s| as real);
      ProdStep(hi, |s| as real);
      assert s[0] in s;
      hide Prod;
    }
  }

  lemma ProdStep(a: real, n: real)
    ensures Prod(a, n) == Prod(a, n - 1.0) + a
  {
  }

  lemma MeanBounds(s: seq<real>, lo: real, hi: real)
    requires s != [] && forall x <- s :: lo <= x <= hi
    ensures lo <= Mean(s) <= hi
  {
    SumBounds(s, lo, hi);
    DivLe(Sum(s), |s| as real, hi);
    DivLe(Sum(s), |s| as real, lo);
  }

  lemma {:induction false} GoodValuesFrom(kn: Kernel, g: Grid, ns: seq<Index>, v: nat, lo: real, hi: real)
    requires WellFormed(kn, g) && v < |kn.vars|
    requires forall c <- ns :: g(c).Good() ==> lo <= g(c).vals[v] <= hi
    ensures forall x <- GoodValues(kn, g, ns, v) :: lo <= x <= hi
  {
    if ns != [] { GoodValuesFrom(kn, g, ns[1..], v, lo, hi); }
  }

  /** An average without a floor lies within the range of the good neighbours. */
  lemma AverageInRange(kn: Kernel, g: Grid, c: Index, v: nat, lo: real, hi: real)
    requires WellFormed(kn, g) && v < |kn.vars| && kn.interpolate && kn.vars[v].floor.NoFloor?
    requires exists d <- kn.Neighbours(c) :: g(d).Good()
    requires forall d <- kn.Neighbours(c) :: g(d).Good() ==> lo <= g(d).vals[v] <= hi
    ensures lo <= Averaged(kn, g, c, v) <= hi
  {
    hide Mean;
    GoodValuesFrom(kn, g, kn.Neighbours(c), v, lo, hi);
    SomeGood(kn, g, kn.Neighbours(c), v);
    MeanBounds(GoodValues(kn, g, kn.Neighbours(c), v), lo, hi);
  }

  lemma {:induction false} SomeGood(kn: Kernel, g: Grid, ns: seq<Index>, v: nat)
    requires WellFormed(kn, g) && v < |kn.vars|
    ensures GoodValues(kn, g, ns, v) != [] <==> exists d <- ns :: g(d).Good()
  {
    if ns != [] {
      SomeGood(kn, g, ns[1..], v);
      assert ns == [ns[0]] + ns[1..];
    }
  }

  /** A variable whose fallback is positive, and which is positive in every good cell, is positive in
      every cell after the repair, as long as the per-cell work leaves it alone. */
  lemma PositiveAfterRepair(kn: Kernel, g: Grid, c: Index, v: nat)
    requires kn.Valid() && WellFormed(kn, g) && v < |kn.vars| && kn.vars[v].fallback > 0.0
    requires forall d :: g(d).Good() ==> g(d).vals[v] > 0.0
    requires kn.Keeps(v)
    ensures Repaired(kn, g, c).vals[v] > 0.0
  {
    hide Mean;
    if !g(c).Good() {
      var good := GoodValues(kn, g, kn.Neighbours(c), v);
      if good != [] && kn.interpolate {
        GoodPositive(kn, g, kn.Neighbours(c), v);
        MeanPositive(good);
      }
      assert Averaged(kn, g, c, v) > 0.0;
    }
  }

  /** Without a good neighbour, or with the floors as failure strategy, every variable gets its fallback: the
      small numbers of the kernels for densities and energies, no velocity and no flux, and Ye = 1/2. */
  lemma Fallbacks(kn: Kernel, g: Grid, c: Index)
    requires kn.Valid() && WellFormed(kn, g) && !g(c).Good()
    requires !kn.interpolate || forall d <- kn.Neighbours(c) :: !g(d).Good()
    requires forall x :: |x| == |kn.vars| ==> kn.post(c, x) == x
    ensures var vals := Repaired(kn, g, c).vals;
            && (kn.vars == FLUID_C2P ==> vals == [100.0 * SMALL, 100.0 * SMALL, 0.0, 0.0, 0.0, 0.5])
            && (kn.vars == RADIATION ==> vals == [10.0 * SMALL, 0.0, 0.0, 0.0])
            && (kn.vars == SOURCE ==>
                  vals == [10.0 * SMALL, 10.0 * SMALL, 0.0, 0.0, 0.0, 0.5, 10.0 * SMALL, 0.0, 0.0, 0.0])
  {
    hide GoodValues, Mean, Floored, Kernel.Neighbours, SMALL;
    var vals := Repaired(kn, g, c).vals;
    if |kn.vars| > 0 { SomeGood(kn, g, kn.Neighbours(c), 0); }
    forall v | 0 <= v < |kn.vars| ensures vals[v] == kn.vars[v].fallback {
      SomeGood(kn, g, kn.Neighbours(c), v);
    }
  }

  /** fixup_c2p: a repaired density or energy is at least 100 SMALL, whatever the neighbours hold; so where
      the good cells are positive, every cell is. */
  lemma FluidPositive(kn: Kernel, g: Grid, c: Index, v: nat)
    requires kn.vars == FLUID_C2P && v in {DENSITY, ENERGY} && kn.Keeps(v) && WellFormed(kn, g)
    ensures !g(c).Good() ==> Repaired(kn, g, c).vals[v] >= 100.0 * SMALL
    ensures (forall d :: g(d).Good() ==> g(d).vals[v] > 0.0) ==> Repaired(kn, g, c).vals[v] > 0.0
  {
    hide GoodValues, Mean;
    if forall d :: g(d).Good() ==> g(d).vals[v] > 0.0 { PositiveAfterRepair(kn, g, c, v); }
  }

  /** fixup_radc2p: the radiation energy J stays positive. */
  lemma RadiationPositive(kn: Kernel, g: Grid, c: Index)
    requires kn.vars == RADIATION && kn.Keeps(0) && WellFormed(kn, g)
    requires forall d :: g(d).Good() ==> g(d).vals[0] > 0.0
    ensures Repaired(kn, g, c).vals[0] > 0.0
  {
    hide Repaired;
    PositiveAfterRepair(kn, g, c, 0);
  }

  /** fixup_src: density, energy and J stay positive, although no floor is put under the averages. */
  lemma SourcePositive(kn: Kernel, g: Grid, c: Index, v: nat)
    requires kn.vars == SOURCE && v in {DENSITY, ENERGY, SOURCE_J} && kn.Keeps(v) && WellFormed(kn, g)
    requires forall d :: g(d).Good() ==> g(d).vals[v] > 0.0
    ensures Repaired(kn, g, c).vals[v] > 0.0
  {
    hide Repaired;
    PositiveAfterRepair(kn, g, c, v);
  }

  lemma {:induction false} GoodPositive(kn: Kernel, g: Grid, ns: seq<Index>, v: nat)
    requires WellFormed(kn, g) && v < |kn.vars| && forall d :: g(d).Good() ==> g(d).vals[v] > 0.0
    ensures forall x <- GoodValues(kn, g, ns, v) :: x > 0.0
  {
    if ns != [] { GoodPositive(kn, g, ns[1..], v); }
  }

  lemma MeanPositive(s: seq<real>)
    requires s != [] && forall x <- s :: x > 0.0
    ensures Mean(s) > 0.0
  {
    SumPositive(s);
    DivPos(Sum(s), |s| as real);
  }

  lemma {:induction false} SumPositive(s: seq<real>)
    requires s != [] && forall x <- s :: x > 0.0
    ensures Sum(s) > 0.0
  {
    assert s[0] in s;
    assert forall x <- s[1..] :: x in s;
    if |s| > 1 { SumPositive(s[1..]); }
  }

  // ---------------------------------------------------------------------------------------------
  // Ghost marking before the source repair.

  /** Interior index bounds. */
  datatype Box = Box(kLo: int, kHi: int, jLo: int, jHi: int, iLo: int, iHi: int) {
    predicate Has(c: Index) { kLo <= c.k <= kHi && jLo <= c.j <= jHi && iLo <= c.i <= iHi }
  }

  function Marked(b: Box, g: Grid): Grid {
    (c: Index) => if b.Has(c) then g(c) else Zone(FAIL, g(c).vals)
  }

  /** Interior cells, the bounds included, keep their flag; all others are marked as failed; no value changes. */
  lemma MarkedIs(b: Box, g: Grid, c: Index)
    ensures Marked(b, g)(c).vals == g(c).vals
    ensures b.kLo <= c.k <= b.kHi && b.jLo <= c.j <= b.jHi && b.iLo <= c.i <= b.iHi ==> Marked(b, g)(c).flag == g(c).flag
    ensures !(b.kLo <= c.k <= b.kHi && b.jLo <= c.j <= b.jHi && b.iLo <= c.i <= b.iHi) ==> Marked(b, g)(c).flag == FAIL
  {
  }

  /** After marking, no ghost value and no ghost flag can reach an interior cell. */
  lemma GhostsIgnored(kn: Kernel, b: Box, g: Grid, h: Grid, c: Index)
    requires kn.Valid() && WellFormed(kn, g) && WellFormed(kn, h)
    requires forall d :: b.Has(d) ==> g(d) == h(d)
    ensures WellFormed(kn, Marked(b, g)) && WellFormed(kn, Marked(b, h))
    ensures b.Has(c) ==> Repaired(kn, Marked(b, g), c) == Repaired(kn, Marked(b, h), c)
  {
    RepairDependsOnGood(kn, Marked(b, g), Marked(b, h), c);
  }

  // ---------------------------------------------------------------------------------------------
  // The kernel loop over an array.

  predicate InArray(a: array3<Zone>, c: Index) {
    0 <= c.k < a.Length0 && 0 <= c.j < a.Length1 && 0 <= c.i < a.Length2
  }

  ghost predicate Holds(a: array3<Zone>, g: Grid)
    reads a
  {
    forall k, j, i :: 0 <= k < a.Length0 && 0 <= j < a.Length1 && 0 <= i < a.Length2 ==> a[k, j, i] == g(Index(k, j, i))
  }

  /** The fixup lambda: flags times values, accumulated dimension by dimension. */
  method MaskedAccumulate(kn: Kernel, a: array3<Zone>, c: Index, v: nat, ghost g: Grid) returns (x: real)
    requires kn.Valid() && WellFormed(kn, g) && Holds(a, g) && v < |kn.vars|
    requires forall d <- kn.Neighbours(c) :: InArray(a, d)
    ensures x == MaskedSum(kn, g, kn.Neighbours(c), v)
  {
    hide Masked, MaskedSum, NumValid;
    var ns := kn.Neighbours(c);
    assert InArray(a, ns[0]) && InArray(a, ns[1]);
    assert a[c.k, c.j, c.i - 1] == g(ns[0]) && a[c.k, c.j, c.i + 1] == g(ns[1]);
    x := Masked(a[c.k, c.j, c.i - 1], v)
         + Masked(a[c.k, c.j, c.i + 1], v);
    if kn.ndim > 1 {
      assert InArray(a, ns[2]) && InArray(a, ns[3]);
      assert a[c.k, c.j - 1, c.i] == g(ns[2]) && a[c.k, c.j + 1, c.i] == g(ns[3]);
      x := x + (Masked(a[c.k, c.j - 1, c.i], v)
                + Masked(a[c.k, c.j + 1, c.i], v));
      if kn.ndim == 3 {
        assert InArray(a, ns[4]) && InArray(a, ns[5]);
        assert a[c.k - 1, c.j, c.i] == g(ns[4]) && a[c.k + 1, c.j, c.i] == g(ns[5]);
        x := x + (Masked(a[c.k - 1, c.j, c.i], v)
                  + Masked(a[c.k + 1, c.j, c.i], v));
      }
    }
    MaskedUnfold(kn, g, ns, v);
  }

  /** The recursive sum over at most six neighbours, written out. */
  lemma MaskedUnfold(kn: Kernel, g: Grid, ns: seq<Index>, v: nat)
    requires WellFormed(kn, g) && v < |kn.vars| && |ns| in {2, 4, 6}
    ensures MaskedSum(kn, g, ns, v)
            == Masked(g(ns[0]), v) + Masked(g(ns[1]), v)
               + (if |ns| >= 4 then Masked(g(ns[2]), v) + Masked(g(ns[3]), v) else 0.0)
               + (if |ns| >= 6 then Masked(g(ns[4]), v) + Masked(g(ns[5]), v) else 0.0)
  {
    hide MaskedSum, Masked, NumValid;
    NoneMasked(kn, g, v);
    var n1, n2 := ns[1..], ns[2..];
    assert n1[1..] == n2;
    Peel(kn, g, ns, v);
    Peel(kn, g, n1, v);
    if |ns| == 2 {
      assert n2 == [];
    } else {
      var n3, n4 := ns[3..], ns[4..];
      assert n2[1..] == n3 && n3[1..] == n4;
      Peel(kn, g, n2, v);
      Peel(kn, g, n3, v);
      if |ns| == 4 {
        assert n4 == [];
      } else {
        var n5 := ns[5..];
        assert n4[1..] == n5 && n5[1..] == [];
        Peel(kn, g, n4, v);
        Peel(kn, g, n5, v);
      }
    }
  }

  lemma Peel(kn: Kernel, g: Grid, ns: seq<Index>, v: nat)
    requires WellFormed(kn, g) && v < |kn.vars| && ns != []
    ensures MaskedSum(kn, g, ns, v) == Masked(g(ns[0]), v) + MaskedSum(kn, g, ns[1..], v)
  {
  }

  lemma NoneMasked(kn: Kernel, g: Grid, v: nat)
    requires WellFormed(kn, g) && v < |kn.vars|
    ensures MaskedSum(kn, g, [], v) == 0.0
  {
  }

  /** One iteration of the kernel: a good cell is left alone, a failed one is averaged or reset. */
  method RepairCell(kn: Kernel, a: array3<Zone>, c: Index, ghost g: Grid)
    requires kn.Valid() && WellFormed(kn, g) && Holds(a, g)
    requires InArray(a, c) && forall d <- kn.Neighbours(c) :: InArray(a, d)
    modifies a
    ensures Holds(a, Visit(kn, g, c))
  {
    hide Repaired, Averaged, MaskedSum, NumValid, Kernel.Neighbours, Prod;
    var zone := a[c.k, c.j, c.i];
    assert zone == g(c);
    if zone.flag == FAIL {
      var numValid := CountValid(kn, a, c, g);
      var norm := if numValid > 0.5 then 1.0 / numValid else 0.0;
      var vals: seq<real> := [];
      for v := 0 to |kn.vars|
        invariant |vals| == v && Holds(a, g)
        invariant forall w :: 0 <= w < v ==> vals[w] == Averaged(kn, g, c, w)
      {
        var x := kn.vars[v].fallback;
        if numValid > 0.5 && kn.interpolate {
          x := MaskedAccumulate(kn, a, c, v, g);
          x := Prod(norm, x);
          if kn.vars[v].floor.AtLeast? { x := Max(x, kn.vars[v].floor.bound); }
        }
        AveragedIs(kn, g, c, v, x);
        vals := vals + [x];
      }
      RepairedIs(kn, g, c, vals);
      a[c.k, c.j, c.i] := Zone(zone.flag, kn.post(c, vals));
    } else {
      GoodStays(kn, g, c);
    }
  }

  method CountValid(kn: Kernel, a: array3<Zone>, c: Index, ghost g: Grid) returns (n: real)
    requires kn.Valid() && WellFormed(kn, g) && Holds(a, g)
    requires forall d <- kn.Neighbours(c) :: InArray(a, d)
    ensures n == NumValid(g, kn.Neighbours(c))
  {
    hide NumValid;
    var ns := kn.Neighbours(c);
    assert InArray(a, ns[0]) && InArray(a, ns[1]);
    assert a[c.k, c.j, c.i - 1] == g(ns[0]) && a[c.k, c.j, c.i + 1] == g(ns[1]);
    n := a[c.k, c.j, c.i - 1].flag + a[c.k, c.j, c.i + 1].flag;
    if kn.ndim > 1 {
      assert InArray(a, ns[2]) && InArray(a, ns[3]);
      assert a[c.k, c.j - 1, c.i] == g(ns[2]) && a[c.k, c.j + 1, c.i] == g(ns[3]);
      n := n + (a[c.k, c.j - 1, c.i].flag + a[c.k, c.j + 1, c.i].flag);
    }
    if kn.ndim == 3 {
      assert InArray(a, ns[4]) && InArray(a, ns[5]);
      assert a[c.k - 1, c.j, c.i] == g(ns[4]) && a[c.k + 1, c.j, c.i] == g(ns[5]);
      n := n + (a[c.k - 1, c.j, c.i].flag + a[c.k + 1, c.j, c.i].flag);
    }
    CountUnfold(g, ns);
  }

  lemma CountUnfold(g: Grid, ns: seq<Index>)
    requires |ns| in {2, 4, 6}
    ensures NumValid(g, ns)
            == g(ns[0]).flag + g(ns[1]).flag + (if |ns| >= 4 then g(ns[2]).flag + g(ns[3]).flag else 0.0)
               + (if |ns| >= 6 then g(ns[4]).flag + g(ns[5]).flag else 0.0)
  {
    var n1, n2 := ns[1..], ns[2..];
    assert n1[1..] == n2;
    assert NumValid(g, ns) == g(ns[0]).flag + g(ns[1]).flag + NumValid(g, n2);
    if |ns| >= 4 {
      var n3, n4 := ns[3..], ns[4..];
      assert n2[1..] == n3 && n3[1..] == n4;
      assert NumValid(g, n2) == g(ns[2]).flag + g(ns[3]).flag + NumValid(g, n4);
      if |ns| == 6 {
        var n5 := ns[5..];
        assert n4[1..] == n5 && n5[1..] == [];
      }
    }
  }

  lemma AveragedIs(kn: Kernel, g: Grid, c: Index, v: nat, x: real)
    requires WellFormed(kn, g) && v < |kn.vars|
    requires var n := NumValid(g, kn.Neighbours(c));
             x == if n > 0.5 && kn.interpolate
                  then Floored(Prod(1.0 / n, MaskedSum(kn, g, kn.Neighbours(c), v)), kn.vars[v].floor)
                  else kn.vars[v].fallback
    ensures x == Averaged(kn, g, c, v)
  {
    hide NumValid, MaskedSum, GoodValues, Mean, Floored, Kernel.Neighbours, Prod, WellFormed;
    MaskedAverageIsMean(kn, g, kn.Neighbours(c), v);
  }

  lemma RepairedIs(kn: Kernel, g: Grid, c: Index, vals: seq<real>)
    requires kn.Valid() && WellFormed(kn, g) && g(c).flag == FAIL
    requires |vals| == |kn.vars| && forall v :: 0 <= v < |vals| ==> vals[v] == Averaged(kn, g, c, v)
    ensures Repaired(kn, g, c) == Zone(g(c).flag, kn.post(c, vals))
  {
    hide Averaged;
    assert vals == seq(|kn.vars|, v requires 0 <= v < |kn.vars| => Averaged(kn, g, c, v));
  }

  lemma GoodStays(kn: Kernel, g: Grid, c: Index)
    requires kn.Valid() && WellFormed(kn, g) && g(c).flag != FAIL
    ensures Repaired(kn, g, c) == g(c)
  {
  }

  /** The parallel loop under an arbitrary schedule: every scheduled cell ends as the reference says,
      computed from the grid as it was before the loop; no other cell changes. */
  method RepairAll(kn: Kernel, a: array3<Zone>, order: seq<Index>, ghost g: Grid)
    requires kn.Valid() && WellFormed(kn, g) && Holds(a, g)
    requires forall c <- order :: InArray(a, c) && forall d <- kn.Neighbours(c) :: InArray(a, d)
    modifies a
    ensures forall k, j, i :: 0 <= k < a.Length0 && 0 <= j < a.Length1 && 0 <= i < a.Length2 ==>
              a[k, j, i] == if Index(k, j, i) in order then Repaired(kn, g, Index(k, j, i)) else g(Index(k, j, i))
  {
    hide Repaired, Kernel.Neighbours;
    for n := 0 to |order|
      invariant Holds(a, Visits(kn, g, order[..n]))
    {
      assert order[n] in order;
      assert order[..n + 1][..n] == order[..n];
      RepairCell(kn, a, order[n], Visits(kn, g, order[..n]));
    }
    assert order[..|order|] == order;
    forall k, j, i | 0 <= k < a.Length0 && 0 <= j < a.Length1 && 0 <= i < a.Length2
      ensures a[k, j, i] == if Index(k, j, i) in order then Repaired(kn, g, Index(k, j, i)) else g(Index(k, j, i))
    {
      AnyOrder(kn, g, order, Index(k, j, i));
    }
  }

  /** Source repair, first pass: every ghost cell counts as failed. */
  method MarkGhosts(b: Box, a: array3<Zone>, ghost g: Grid)
    requires Holds(a, g)
    modifies a
    ensures Holds(a, Marked(b, g))
  {
    forall k, j, i | 0 <= k < a.Length0 && 0 <= j < a.Length1 && 0 <= i < a.Length2 {
      a[k, j, i] := if b.Has(Index(k, j, i)) then a[k, j, i] else Zone(FAIL, a[k, j, i].vals);
    }
  }
}
