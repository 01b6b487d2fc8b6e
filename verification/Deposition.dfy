/** Deposition of three-dimensional cells onto the radial grid of the monopole solver, and the division
    by the deposited volumes. The radial grid starts at r = 0. */
module Deposition {
  import opened Reals

  predicate InBounds(a: real, r: real, dr: real) {
    r - 0.5 * dr <= a < r + 0.5 * dr
  }

  // ---------------------------------------------------------------------------------------------
  // The overlap of one radial cell with one 3D cell.

  /** The fraction of the big interval that the small one covers. */
  function Overlap(rsmall: real, drsmall: real, rbig: real, drbig: real): real
    requires drbig > 0.0
  {
    Max(0.0, Min(rsmall + 0.5 * drsmall, rbig + 0.5 * drbig) - Max(rsmall - 0.5 * drsmall, rbig - 0.5 * drbig)) / drbig
  }

  /** The small interval sticks out on both sides, the case that no mask catches. */
  predicate Covers(rsmall: real, drsmall: real, rbig: real, drbig: real) {
    rsmall - 0.5 * drsmall < rbig - 0.5 * drbig && rbig + 0.5 * drbig <= rsmall + 0.5 * drsmall
  }

  /** GetVolIntersectHelper: the masked sum is the overlap, except that a covering interval gives zero. */
  method GetVolIntersect(rsmall: real, drsmall: real, rbig: real, drbig: real) returns (vol: real)
    requires drsmall > 0.0 && drbig > 0.0
    ensures vol == if Covers(rsmall, drsmall, rbig, drbig) then 0.0 else Overlap(rsmall, drsmall, rbig, drbig)
  {
    var leftIn := InBounds(rsmall - 0.5 * drsmall, rbig, drbig);
    var rightIn := InBounds(rsmall + 0.5 * drsmall, rbig, drbig);
    vol := if leftIn && rightIn then drsmall / drbig else 0.0;
    if rightIn && !leftIn { vol := vol + (rsmall + 0.5 * drsmall - (rbig - 0.5 * drbig)) / drbig; }
    if leftIn && !rightIn { vol := vol + (rbig + 0.5 * drbig - (rsmall - 0.5 * drsmall)) / drbig; }
  }

  /** So the masked form is right exactly when the small interval does not cover the big one, in
      particular whenever it is no wider; when it does cover, all of the big interval is lost. */
  lemma MaskedExact(rsmall: real, drsmall: real, rbig: real, drbig: real)
    requires drsmall > 0.0 && drbig > 0.0
    ensures Covers(rsmall, drsmall, rbig, drbig) ==> Overlap(rsmall, drsmall, rbig, drbig) == 1.0 && drsmall > drbig
  {
    DivIs(drbig, drbig, 1.0);
  }

  // ---------------------------------------------------------------------------------------------
  // Weights of one 3D cell over the radial grid.

  /** n points a distance dx apart, point i at i * dx; index() stops at top. */
  datatype Grid = Grid(n: nat, dx: real, top: nat) {
    predicate Valid() { n >= 2 && dx > 0.0 && n - 2 <= top <= n - 1 }

    function X(i: int): real { i as real * dx }

    /** Lower edge of radial cell i; the upper edge of cell i is Edge(i + 1). */
    function Edge(i: int): real { X(i) - 0.5 * dx }

    /** The grid point at or below x, kept on the grid. */
    function Index(x: real): (i: nat)
      requires Valid()
      ensures i <= top
    {
      var f := (x / dx).Floor;
      if f < 0 then 0 else if f > top then top else f
    }
  }

  /** One 3D cell: centre and width in radius, volume and the four matter variables. */
  datatype Cell = Cell(r: real, dr: real, dv: real, m: Vars) {
    predicate Inside(g: Grid) {
      dr > 0.0 && g.Edge(0) <= r - 0.5 * dr && r + 0.5 * dr <= g.Edge(g.n)
    }
  }

  datatype Vars = Vars(rho: real, jr: real, trcS: real, srr: real)

  function Left(g: Grid, c: Cell): nat
    requires g.Valid()
  {
    var i := g.Index(c.r - c.dr) - 1;
    if i > 0 then i else 0
  }

  function Right(g: Grid, c: Cell): nat
    requires g.Valid()
  {
    var i := g.Index(c.r + c.dr) + 1;
    if i < g.n - 1 then i else g.n - 1
  }

  /** The index range: from one point below that of the lower end, a full width below the centre, to one above
      that of the upper end, kept on the grid. */
  lemma RangeIs(g: Grid, c: Cell)
    requires g.Valid()
    ensures Left(g, c) as real == Max(0.0, g.Index(c.r - c.dr) as real - 1.0)
    ensures Right(g, c) as real == Min(g.Index(c.r + c.dr) as real + 1.0, g.n as real - 1.0)
  {
    hide Grid.Index;
  }

  /** The index of a position on the grid is that of the last point at or below it. */
  lemma IndexIs(g: Grid, x: real)
    requires g.Valid()
    ensures 0.0 <= x && x < g.X(g.top + 1) ==> g.X(g.Index(x)) <= x < g.X(g.Index(x) + 1)
    ensures x < 0.0 ==> g.Index(x) == 0
    ensures x >= g.X(g.top + 1) ==> g.Index(x) == g.top
  {
    var q := x / g.dx;
    DivMul(x, g.dx);
    var n := q.Floor;
    Scaled(q, g.dx, x, n);
    Scaled(q, g.dx, x, n + 1);
    Scaled(q, g.dx, x, 0);
    Scaled(q, g.dx, x, g.top + 1);
  }

  lemma Scaled(q: real, dx: real, x: real, n: int)
    requires dx > 0.0 && q * dx == x
    ensures n as real <= q <==> n as real * dx <= x
    ensures q < n as real <==> x < n as real * dx
  {
    if n as real <= q { MulMono(n as real, q, dx); } else { MulMonoStrict(q, n as real, dx); }
  }

  function Weight(g: Grid, c: Cell, i: int): real
    requires c.dr > 0.0
  {
    Overlap(g.X(i), g.dx, c.r, c.dr)
  }

  function WeightSum(g: Grid, c: Cell, lo: int, hi: int): real
    requires c.dr > 0.0 && lo <= hi
    decreases hi - lo
  {
    if lo == hi then 0.0 else WeightSum(g, c, lo, hi - 1) + Weight(g, c, hi - 1)
  }

  /** Radial cell i sticks out of the 3D cell on both sides. */
  predicate CoversAt(g: Grid, c: Cell, i: int) { Covers(g.X(i), g.dx, c.r, c.dr) }

  /** The weight that the kernel uses. */
  function Masked(g: Grid, c: Cell, i: int): real
    requires c.dr > 0.0
  {
    if CoversAt(g, c, i) then 0.0 else Weight(g, c, i)
  }

  function MaskedSum(g: Grid, c: Cell, lo: int, hi: int): real
    requires c.dr > 0.0 && lo <= hi
    decreases hi - lo
  {
    if lo == hi then 0.0 else MaskedSum(g, c, lo, hi - 1) + Masked(g, c, hi - 1)
  }

  /** Some radial cell in the index range covers the 3D cell. */
  predicate Covered(g: Grid, c: Cell)
    requires g.Valid()
  {
    exists i :: Left(g, c) <= i <= Right(g, c) && CoversAt(g, c, i)
  }

  function Clamp(c: Cell, t: real): real {
    Min(Max(t, c.r - 0.5 * c.dr), c.r + 0.5 * c.dr)
  }

  lemma WeightTelescopes(g: Grid, c: Cell, i: int)
    requires c.dr > 0.0 && g.dx > 0.0
    ensures Weight(g, c, i) * c.dr == Clamp(c, g.Edge(i + 1)) - Clamp(c, g.Edge(i))
  {
    hide Overlap;
    Distribute(i as real, 1.0, g.dx);
    assert g.Edge(i + 1) == g.X(i) + 0.5 * g.dx;
    OverlapTelescopes(g.X(i), g.dx, c);
  }

  lemma OverlapTelescopes(x: real, dx: real, c: Cell)
    requires c.dr > 0.0 && dx > 0.0
    ensures Overlap(x, dx, c.r, c.dr) * c.dr == Clamp(c, x + 0.5 * dx) - Clamp(c, x - 0.5 * dx)
  {
    var top := Max(0.0, Min(x + 0.5 * dx, c.r + 0.5 * c.dr) - Max(x - 0.5 * dx, c.r - 0.5 * c.dr));
    DivMul(top, c.dr);
    assert Overlap(x, dx, c.r, c.dr) == top / c.dr;
    hide Overlap;
  }

  lemma {:induction false} SumTelescopes(g: Grid, c: Cell, lo: int, hi: int)
    requires c.dr > 0.0 && g.dx > 0.0 && lo <= hi
    ensures WeightSum(g, c, lo, hi) * c.dr == Clamp(c, g.Edge(hi)) - Clamp(c, g.Edge(lo))
    decreases hi - lo
  {
    hide Clamp, Weight, Grid.Edge;
    if lo < hi {
      SumTelescopes(g, c, lo, hi - 1);
      WeightTelescopes(g, c, hi - 1);
      Distribute(WeightSum(g, c, lo, hi - 1), Weight(g, c, hi - 1), c.dr);
    }
  }

  lemma Distribute(x: real, y: real, z: real)
    ensures (x + y) * z == x * z + y * z
  {
  }

  lemma EdgesOrdered(g: Grid, i: int, j: int)
    requires g.dx > 0.0 && i <= j
    ensures g.Edge(i) <= g.Edge(j)
  {
    MulMono(i as real, j as real, g.dx);
  }

  /** The index range is never empty and stays on the grid, wherever the cell lies. */
  lemma RangeOrdered(g: Grid, c: Cell)
    requires g.Valid() && c.dr > 0.0
    ensures Left(g, c) <= Right(g, c) < g.n
  {
    var x, y := (c.r - c.dr) / g.dx, (c.r + c.dr) / g.dx;
    DivLe(c.r - c.dr, g.dx, y);
    DivMul(c.r + c.dr, g.dx);
    assert x.Floor <= y.Floor;
  }

  /** It reaches from the lower edge of the cell, or of the grid, to the upper one. */
  lemma RangeReaches(g: Grid, c: Cell)
    requires g.Valid() && c.dr > 0.0
    ensures g.Edge(Left(g, c)) <= c.r - 0.5 * c.dr || Left(g, c) == 0
    ensures c.r + 0.5 * c.dr <= g.Edge(Right(g, c) + 1) || Right(g, c) == g.n - 1
  {
    LeftReaches(g, c);
    RightReaches(g, c);
  }

  lemma LeftReaches(g: Grid, c: Cell)
    requires g.Valid() && c.dr > 0.0
    ensures g.Edge(Left(g, c)) <= c.r - 0.5 * c.dr || Left(g, c) == 0
  {
    var lo := Left(g, c);
    if lo > 0 {
      var x := (c.r - c.dr) / g.dx;
      DivMul(c.r - c.dr, g.dx);
      assert lo as real <= x;
      LowerEdge(lo as real, x, g.dx, c.r, c.dr);
      EdgeIs(g, lo);
    }
  }

  lemma LowerEdge(h: real, x: real, dx: real, r: real, dr: real)
    requires h <= x && dx > 0.0 && dr > 0.0 && x * dx == r - dr
    ensures h * dx - 0.5 * dx <= r - 0.5 * dr
  {
    MulMono(h, x, dx);
  }

  lemma EdgeIs(g: Grid, i: int)
    ensures g.Edge(i) == i as real * g.dx - 0.5 * g.dx
    ensures g.Edge(i + 1) == (i as real + 1.0) * g.dx - 0.5 * g.dx
  {
  }

  lemma RightReaches(g: Grid, c: Cell)
    requires g.Valid() && c.dr > 0.0
    ensures c.r + 0.5 * c.dr <= g.Edge(Right(g, c) + 1) || Right(g, c) == g.n - 1
  {
    var hi := Right(g, c);
    if hi < g.n - 1 {
      var y := (c.r + c.dr) / g.dx;
      DivMul(c.r + c.dr, g.dx);
      assert y <= hi as real;
      UpperEdge(y, hi as real, g.dx, c.r, c.dr);
      EdgeIs(g, hi);
    }
  }

  lemma UpperEdge(y: real, h: real, dx: real, r: real, dr: real)
    requires y <= h && dx > 0.0 && dr > 0.0 && y * dx == r + dr
    ensures r + 0.5 * dr <= (h + 1.0) * dx - 0.5 * dx
  {
    MulMono(y, h, dx);
    Distribute(h, 1.0, dx);
  }

  /** The part of a cell that lies on the radial grid, as a fraction of its width. */
  function Fraction(g: Grid, c: Cell): real
    requires c.dr > 0.0
  {
    (Clamp(c, g.Edge(g.n)) - Clamp(c, g.Edge(0))) / c.dr
  }

  lemma FractionRange(g: Grid, c: Cell)
    requires g.Valid() && c.dr > 0.0
    ensures 0.0 <= Fraction(g, c) <= 1.0
    ensures Fraction(g, c) == 1.0 <==> c.Inside(g)
  {
    hide Grid.Edge;
    EdgesOrdered(g, 0, g.n);
    var x := Clamp(c, g.Edge(g.n)) - Clamp(c, g.Edge(0));
    DivNonneg(x, c.dr);
    DivLe(x, c.dr, 1.0);
    DivIs(x, c.dr, 1.0);
  }

  /** The weights of a cell sum to its fraction on the grid, and nothing outside its index range
      contributes: a wider range sums to the same. */
  lemma WeightsSum(g: Grid, c: Cell, lo: int, hi: int)
    requires g.Valid() && c.dr > 0.0 && 0 <= lo <= Left(g, c) && Right(g, c) < hi <= g.n
    ensures lo <= hi && WeightSum(g, c, lo, hi) == Fraction(g, c)
  {
    hide Grid.Edge, Left, Right, WeightSum, Clamp;
    RangeOrdered(g, c);
    RangeReaches(g, c);
    EdgesOrdered(g, 0, lo);
    EdgesOrdered(g, lo, Left(g, c));
    EdgesOrdered(g, Right(g, c) + 1, hi);
    EdgesOrdered(g, hi, g.n);
    ClampEnds(c, g.Edge(0), g.Edge(lo), g.Edge(hi), g.Edge(g.n));
    SumTelescopes(g, c, lo, hi);
    var s := WeightSum(g, c, lo, hi);
    DivIs(Clamp(c, g.Edge(g.n)) - Clamp(c, g.Edge(0)), c.dr, s);
  }

  lemma ClampEnds(c: Cell, first: real, lo: real, hi: real, last: real)
    requires c.dr > 0.0 && first <= lo && hi <= last
    ensures lo == first || lo <= c.r - 0.5 * c.dr ==> Clamp(c, lo) == Clamp(c, first)
    ensures hi == last || c.r + 0.5 * c.dr <= hi ==> Clamp(c, hi) == Clamp(c, last)
  {
  }

  lemma WeightNonneg(g: Grid, c: Cell, i: int)
    requires c.dr > 0.0
    ensures Weight(g, c, i) >= 0.0 && Masked(g, c, i) >= 0.0
  {
    var x := g.X(i);
    DivNonneg(Max(0.0, Min(x + 0.5 * g.dx, c.r + 0.5 * c.dr) - Max(x - 0.5 * g.dx, c.r - 0.5 * c.dr)), c.dr);
  }

  /** When radial cell k covers the 3D cell no other one meets it. */
  lemma CoveredElsewhere(g: Grid, c: Cell, k: int, i: int)
    requires g.dx > 0.0 && c.dr > 0.0 && CoversAt(g, c, k)
    ensures Masked(g, c, i) == 0.0
  {
    hide Overlap;
    if i < k {
      EdgesOrdered(g, i + 1, k);
      EdgeIs(g, i);
      Apart(g.X(i), g.dx, c);
    } else if i > k {
      EdgesOrdered(g, k + 1, i);
      EdgeIs(g, k);
      Apart(g.X(i), g.dx, c);
    }
  }

  lemma Apart(x: real, dx: real, c: Cell)
    requires c.dr > 0.0 && dx > 0.0 && (x + 0.5 * dx <= c.r - 0.5 * c.dr || c.r + 0.5 * c.dr <= x - 0.5 * dx)
    ensures Overlap(x, dx, c.r, c.dr) == 0.0
  {
    DivIs(0.0, c.dr, 0.0);
  }

  lemma {:induction false} CoveredSum(g: Grid, c: Cell, k: int, lo: int, hi: int)
    requires g.dx > 0.0 && c.dr > 0.0 && CoversAt(g, c, k) && lo <= hi
    ensures MaskedSum(g, c, lo, hi) == 0.0
    decreases hi - lo
  {
    hide Masked, CoversAt;
    if lo < hi {
      CoveredSum(g, c, k, lo, hi - 1);
      CoveredElsewhere(g, c, k, hi - 1);
    }
  }

  lemma {:induction false} UncoveredSum(g: Grid, c: Cell, lo: int, hi: int)
    requires c.dr > 0.0 && lo <= hi && forall i :: lo <= i < hi ==> !CoversAt(g, c, i)
    ensures MaskedSum(g, c, lo, hi) == WeightSum(g, c, lo, hi)
    decreases hi - lo
  {
    hide Weight, CoversAt;
    if lo < hi { UncoveredSum(g, c, lo, hi - 1); }
  }

  /** What the kernel's weights of one cell sum to: all that lies on the grid, or nothing when a radial
      cell covers the cell. */
  lemma MaskedTotal(g: Grid, c: Cell)
    requires g.Valid() && c.dr > 0.0
    ensures Left(g, c) <= Right(g, c) && MaskedSum(g, c, Left(g, c), Right(g, c) + 1) == Deposited(g, c)
  {
    hide Left, Right, CoversAt, MaskedSum, WeightSum, Fraction;
    RangeOrdered(g, c);
    var lo, hi := Left(g, c), Right(g, c) + 1;
    if Covered(g, c) {
      var k :| Left(g, c) <= k <= Right(g, c) && CoversAt(g, c, k);
      CoveredSum(g, c, k, lo, hi);
    } else {
      UncoveredSum(g, c, lo, hi);
      WeightsSum(g, c, lo, hi);
    }
  }

  function Deposited(g: Grid, c: Cell): real
    requires g.Valid() && c.dr > 0.0
  {
    if Covered(g, c) then 0.0 else Fraction(g, c)
  }

  /** A radial grid as fine as the 3D one covers nothing. */
  lemma FineGridUncovered(g: Grid, c: Cell)
    requires g.Valid() && c.dr > 0.0 && g.dx <= c.dr
    ensures !Covered(g, c)
  {
  }

  // ---------------------------------------------------------------------------------------------
  // The atomic adds.

  /** One pass of the inner loop: weight is added to vols(bin), m * weight to matter(., bin). */
  datatype Deposit = Deposit(bin: nat, weight: real, m: Vars)

  datatype Quantity = Volume | Rho | Jr | TrcS | Srr

  function Value(m: Vars, q: Quantity): real {
    match q case Volume => 1.0 case Rho => m.rho case Jr => m.jr case TrcS => m.trcS case Srr => m.srr
  }

  function Amount(d: Deposit, q: Quantity): real { Value(d.m, q) * d.weight }

  /** What the deposits add to one bin. */
  function Tally(ds: seq<Deposit>, q: Quantity, bin: nat): real {
    if ds == [] then 0.0
    else Tally(ds[..|ds| - 1], q, bin) + (if ds[|ds| - 1].bin == bin then Amount(ds[|ds| - 1], q) else 0.0)
  }

  function Total(ds: seq<Deposit>, q: Quantity): real {
    if ds == [] then 0.0 else Total(ds[..|ds| - 1], q) + Amount(ds[|ds| - 1], q)
  }

  /** Sum of the first n bins. */
  function BinSum(ds: seq<Deposit>, q: Quantity, n: nat): real {
    if n == 0 then 0.0 else BinSum(ds, q, n - 1) + Tally(ds, q, n - 1)
  }

  lemma {:induction false} BinSumStep(ds: seq<Deposit>, q: Quantity, n: nat)
    requires ds != []
    ensures BinSum(ds, q, n) == BinSum(ds[..|ds| - 1], q, n)
                                + (if ds[|ds| - 1].bin < n then Amount(ds[|ds| - 1], q) else 0.0)
  {
    hide Amount;
    if n > 0 { BinSumStep(ds, q, n - 1); }
  }

  /** Nothing is lost between the bins. */
  lemma {:induction false} BinsHoldTotal(ds: seq<Deposit>, q: Quantity, n: nat)
    requires forall d <- ds :: d.bin < n
    ensures BinSum(ds, q, n) == Total(ds, q)
  {
    hide Amount;
    if ds == [] {
      NoDeposits(q, n);
    } else {
      assert ds[|ds| - 1] in ds;
      BinsHoldTotal(ds[..|ds| - 1], q, n);
      BinSumStep(ds, q, n);
    }
  }

  lemma {:induction false} NoDeposits(q: Quantity, n: nat)
    ensures BinSum([], q, n) == 0.0
  {
    if n > 0 { NoDeposits(q, n - 1); }
  }

  lemma {:induction false} TallyConcat(a: seq<Deposit>, b: seq<Deposit>, q: Quantity, bin: nat)
    ensures Tally(a + b, q, bin) == Tally(a, q, bin) + Tally(b, q, bin)
    ensures Total(a + b, q) == Total(a, q) + Total(b, q)
    decreases |b|
  {
    hide Amount;
    if b == [] {
      assert a + b == a;
    } else {
      TallyConcat(a, b[..|b| - 1], q, bin);
      assert (a + b)[..|a + b| - 1] == a + b[..|b| - 1];
    }
  }

  /** Atomic adds commute: any two schedules of the same adds leave the same bins. */
  lemma {:induction false} TallyAnyOrder(a: seq<Deposit>, b: seq<Deposit>, q: Quantity, bin: nat)
    requires multiset(a) == multiset(b)
    ensures Tally(a, q, bin) == Tally(b, q, bin)
    decreases |a|
  {
    hide Tally, Total, Amount;
    if a == [] {
      assert |multiset(b)| == |multiset(a)| == 0;
    } else {
      var d := a[|a| - 1];
      assert d in multiset(b);
      var k :| 0 <= k < |b| && b[k] == d;
      var front, back := b[..k], b[k + 1..];
      assert b == front + [d] + back;
      assert a == a[..|a| - 1] + [d];
      assert multiset(front + back) == multiset(b) - multiset{d};
      assert multiset(a[..|a| - 1]) == multiset(a) - multiset{d};
      TallyAnyOrder(a[..|a| - 1], front + back, q, bin);
      TallyConcat(a[..|a| - 1], [d], q, bin);
      TallyConcat(front + [d], back, q, bin);
      TallyConcat(front, [d], q, bin);
      TallyConcat(front, back, q, bin);
    }
  }

  /** The deposits of one cell, over its index range. */
  function CellDeposits(g: Grid, c: Cell, lo: nat, hi: nat): (ds: seq<Deposit>)
    requires c.dr > 0.0 && lo <= hi
    ensures |ds| == hi - lo && forall d <- ds :: d.bin < hi
    decreases hi - lo
  {
    if lo == hi then [] else CellDeposits(g, c, lo, hi - 1) + [Deposit(hi - 1, Prod(Masked(g, c, hi - 1), c.dv), c.m)]
  }

  /** Cells of positive width. */
  predicate Widths(cells: seq<Cell>) { forall c <- cells :: c.dr > 0.0 }

  /** The deposits of all cells, cell after cell. */
  function AllDeposits(g: Grid, cells: seq<Cell>): seq<Deposit>
    requires g.Valid() && Widths(cells)
  {
    if cells == [] then []
    else
      var c := cells[|cells| - 1];
      RangeOrdered(g, c);
      AllDeposits(g, cells[..|cells| - 1]) + CellDeposits(g, c, Left(g, c), Right(g, c) + 1)
  }

  lemma {:induction false} CellTotal(g: Grid, c: Cell, lo: nat, hi: nat, q: Quantity)
    requires c.dr > 0.0 && lo <= hi
    ensures Total(CellDeposits(g, c, lo, hi), q) == Value(c.m, q) * (MaskedSum(g, c, lo, hi) * c.dv)
    decreases hi - lo
  {
    hide *;
    if lo == hi {
      CellEmpty(g, c, lo, q);
    } else {
      CellTotal(g, c, lo, hi - 1, q);
      CellLast(g, c, lo, hi, q);
      DepositAlgebra(Value(c.m, q), MaskedSum(g, c, lo, hi - 1), Masked(g, c, hi - 1), c.dv);
    }
  }

  lemma CellEmpty(g: Grid, c: Cell, lo: nat, q: Quantity)
    requires c.dr > 0.0
    ensures Total(CellDeposits(g, c, lo, lo), q) == 0.0 && MaskedSum(g, c, lo, lo) == 0.0
  {
  }

  lemma CellLast(g: Grid, c: Cell, lo: nat, hi: nat, q: Quantity)
    requires c.dr > 0.0 && lo < hi
    ensures Total(CellDeposits(g, c, lo, hi), q)
            == Total(CellDeposits(g, c, lo, hi - 1), q) + Value(c.m, q) * (Masked(g, c, hi - 1) * c.dv)
    ensures MaskedSum(g, c, lo, hi) == MaskedSum(g, c, lo, hi - 1) + Masked(g, c, hi - 1)
  {
    hide Masked, Value, Total, Amount;
    var ds := CellDeposits(g, c, lo, hi);
    assert ds[..|ds| - 1] == CellDeposits(g, c, lo, hi - 1);
    TotalLast(ds, q);
    AmountOf(ds[|ds| - 1], q, Masked(g, c, hi - 1), c.dv);
  }

  lemma TotalLast(ds: seq<Deposit>, q: Quantity)
    requires ds != []
    ensures Total(ds, q) == Total(ds[..|ds| - 1], q) + Amount(ds[|ds| - 1], q)
  {
    hide Amount;
  }

  lemma AmountOf(d: Deposit, q: Quantity, w: real, dv: real)
    requires d.weight == Prod(w, dv)
    ensures Amount(d, q) == Value(d.m, q) * (w * dv)
  {
    hide Value;
  }

  lemma DepositAlgebra(v: real, s: real, w: real, dv: real)
    ensures v * (s * dv) + v * (w * dv) == v * ((s + w) * dv)
  {
  }

  /** The sum over the 3D cells that the radial grid should reproduce. */
  function CellSum(cells: seq<Cell>, q: Quantity): real {
    if cells == [] then 0.0
    else CellSum(cells[..|cells| - 1], q) + Value(cells[|cells| - 1].m, q) * cells[|cells| - 1].dv
  }

  /** The sum that it does reproduce. */
  function DepositedSum(g: Grid, cells: seq<Cell>, q: Quantity): real
    requires g.Valid() && Widths(cells)
  {
    if cells == [] then 0.0
    else
      var c := cells[|cells| - 1];
      DepositedSum(g, cells[..|cells| - 1], q) + Value(c.m, q) * (Deposited(g, c) * c.dv)
  }

  lemma {:induction false} AllTotal(g: Grid, cells: seq<Cell>, q: Quantity)
    requires g.Valid() && Widths(cells)
    ensures Total(AllDeposits(g, cells), q) == DepositedSum(g, cells, q)
    ensures forall d <- AllDeposits(g, cells) :: d.bin < g.n
  {
    hide *;
    if cells == [] {
      AllNone(g, q);
    } else {
      var c, front := cells[|cells| - 1], cells[..|cells| - 1];
      LastWidth(cells);
      AllTotal(g, front, q);
      RangeOrdered(g, c);
      var lo, hi := Left(g, c), Right(g, c) + 1;
      AllLast(g, cells, q);
      TallyConcat(AllDeposits(g, front), CellDeposits(g, c, lo, hi), q, 0);
      CellTotal(g, c, lo, hi, q);
      MaskedTotal(g, c);
    }
  }

  lemma LastWidth(cells: seq<Cell>)
    requires Widths(cells) && cells != []
    ensures cells[|cells| - 1].dr > 0.0 && Widths(cells[..|cells| - 1])
  {
  }

  lemma AllNone(g: Grid, q: Quantity)
    requires g.Valid()
    ensures Widths([]) && AllDeposits(g, []) == [] && Total([], q) == DepositedSum(g, [], q) == 0.0
  {
  }

  lemma AllLast(g: Grid, cells: seq<Cell>, q: Quantity)
    requires g.Valid() && cells != [] && Widths(cells)
    ensures var c, front := cells[|cells| - 1], cells[..|cells| - 1];
            && c.dr > 0.0 && Left(g, c) <= Right(g, c) && Widths(front)
            && AllDeposits(g, cells) == AllDeposits(g, front) + CellDeposits(g, c, Left(g, c), Right(g, c) + 1)
            && DepositedSum(g, cells, q) == DepositedSum(g, front, q) + Value(c.m, q) * (Deposited(g, c) * c.dv)
  {
    hide Value, Left, Right, CellDeposits, Deposited;
    RangeOrdered(g, cells[|cells| - 1]);
  }

  /** However the atomic adds are scheduled over cells and bins, what the radial grid holds in the end is the
      part of every cell that lies on the grid, without the cells that some radial cell covers. */
  lemma BinsHoldDeposited(g: Grid, cells: seq<Cell>, schedule: seq<Deposit>, q: Quantity)
    requires g.Valid() && Widths(cells) && multiset(schedule) == multiset(AllDeposits(g, cells))
    ensures BinSum(schedule, q, g.n) == DepositedSum(g, cells, q)
  {
    hide BinSum, DepositedSum, Total, AllDeposits;
    var ds := AllDeposits(g, cells);
    AllTotal(g, cells, q);
    BinsHoldTotal(ds, q, g.n);
    SameBins(schedule, ds, q, g.n);
  }

  /** Everything about a cell reaches the grid. */
  predicate Whole(g: Grid, c: Cell)
    requires g.Valid()
  {
    c.Inside(g) && !Covered(g, c)
  }

  /** Conservation. If every cell lies on the grid and none is covered, the volume and every matter variable
      summed over the radial grid equal the sums over the 3D cells, under every schedule. Otherwise volume
      is lost. */
  lemma DepositionConserves(g: Grid, cells: seq<Cell>, schedule: seq<Deposit>)
    requires g.Valid() && Widths(cells) && multiset(schedule) == multiset(AllDeposits(g, cells))
    requires forall c <- cells :: c.dv > 0.0
    ensures BinSum(schedule, Volume, g.n) == CellSum(cells, Volume) <==> forall c <- cells :: Whole(g, c)
    ensures BinSum(schedule, Volume, g.n) <= CellSum(cells, Volume)
    ensures (forall c <- cells :: Whole(g, c)) ==> forall q :: BinSum(schedule, q, g.n) == CellSum(cells, q)
  {
    hide BinSum, DepositedSum, CellSum, AllDeposits, Whole;
    BinsHoldDeposited(g, cells, schedule, Volume);
    VolumeLost(g, cells);
    if forall c <- cells :: Whole(g, c) {
      forall q ensures BinSum(schedule, q, g.n) == CellSum(cells, q) {
        BinsHoldDeposited(g, cells, schedule, q);
        AllWhole(g, cells, q);
      }
    }
  }

  lemma DepositedRange(g: Grid, c: Cell)
    requires g.Valid() && c.dr > 0.0
    ensures 0.0 <= Deposited(g, c) <= 1.0
    ensures Deposited(g, c) == 1.0 <==> Whole(g, c)
  {
    hide Fraction, Covered, Cell.Inside;
    FractionRange(g, c);
  }

  lemma {:induction false} AllWhole(g: Grid, cells: seq<Cell>, q: Quantity)
    requires g.Valid() && Widths(cells) && forall c <- cells :: Whole(g, c)
    ensures DepositedSum(g, cells, q) == CellSum(cells, q)
  {
    hide Whole, Deposited, Value;
    if cells != [] {
      var c, front := cells[|cells| - 1], cells[..|cells| - 1];
      assert c in cells;
      assert forall d <- front :: d in cells;
      AllWhole(g, front, q);
      DepositedRange(g, c);
      WholeCell(Value(c.m, q), Deposited(g, c), c.dv);
    }
  }

  lemma WholeCell(v: real, s: real, dv: real)
    requires s == 1.0
    ensures v * (s * dv) == v * dv
  {
  }

  lemma {:induction false} VolumeLost(g: Grid, cells: seq<Cell>)
    requires g.Valid() && Widths(cells) && forall c <- cells :: c.dv > 0.0
    ensures DepositedSum(g, cells, Volume) <= CellSum(cells, Volume)
    ensures DepositedSum(g, cells, Volume) == CellSum(cells, Volume) ==> forall c <- cells :: Whole(g, c)
    ensures (forall c <- cells :: Whole(g, c)) ==> DepositedSum(g, cells, Volume) == CellSum(cells, Volume)
  {
    hide Whole, Deposited, DepositedSum, CellSum;
    if cells == [] {
      NoVolume(g);
    } else {
      var c, front := cells[|cells| - 1], cells[..|cells| - 1];
      assert c in cells && cells == front + [c];
      VolumeLost(g, front);
      DepositedRange(g, c);
      PartOf(Deposited(g, c), c.dv);
      LastVolume(g, cells);
    }
  }

  lemma NoVolume(g: Grid)
    requires g.Valid()
    ensures Widths([]) && DepositedSum(g, [], Volume) == 0.0 == CellSum([], Volume)
  {
  }

  lemma LastVolume(g: Grid, cells: seq<Cell>)
    requires g.Valid() && Widths(cells) && cells != []
    ensures var c, front := cells[|cells| - 1], cells[..|cells| - 1];
            && c.dr > 0.0 && Widths(front)
            && DepositedSum(g, cells, Volume) == DepositedSum(g, front, Volume) + Prod(Deposited(g, c), c.dv)
            && CellSum(cells, Volume) == CellSum(front, Volume) + c.dv
  {
    hide Deposited;
    LastWidth(cells);
  }

  lemma PartOf(f: real, dv: real)
    requires 0.0 <= f <= 1.0 && dv > 0.0
    ensures Prod(f, dv) <= dv && (Prod(f, dv) == dv <==> f == 1.0)
  {
    if f < 1.0 { MulMonoStrict(f, 1.0, dv); }
  }

  /** A cell at r = 1 of width 1/2, on a grid with dx = 1: its radial cell covers it and all of it is lost. */
  lemma CoarseGridLosesCell(dv: real, m: Vars, schedule: seq<Deposit>, q: Quantity)
    requires dv > 0.0
    requires multiset(schedule) == multiset(AllDeposits(Grid(4, 1.0, 3), [Cell(1.0, 0.5, dv, m)]))
    ensures Cell(1.0, 0.5, dv, m).Inside(Grid(4, 1.0, 3))
    ensures BinSum(schedule, q, 4) == 0.0
    ensures CellSum([Cell(1.0, 0.5, dv, m)], Volume) == dv
  {
    hide BinSum, Left, Right, AllDeposits;
    var g, c := Grid(4, 1.0, 3), Cell(1.0, 0.5, dv, m);
    BinsHoldDeposited(g, [c], schedule, q);
    RangeOrdered(g, c);
    LostRange(dv, m);
    assert CoversAt(g, c, 1);
    assert [c][..0] == [];
    assert DepositedSum(g, [], q) == 0.0 && CellSum([], Volume) == 0.0;
    NothingOf(Value(m, q), dv);
  }

  lemma NothingOf(v: real, dv: real)
    ensures v * (0.0 * dv) == 0.0
  {
  }

  lemma LostRange(dv: real, m: Vars)
    ensures Left(Grid(4, 1.0, 3), Cell(1.0, 0.5, dv, m)) == 0 && Right(Grid(4, 1.0, 3), Cell(1.0, 0.5, dv, m)) == 2
  {
    assert (1.0 - 0.5) / 1.0 == 0.5 && (1.0 + 0.5) / 1.0 == 1.5;
    assert (0.5).Floor == 0 && (1.5).Floor == 1;
  }

  lemma {:induction false} SameBins(a: seq<Deposit>, b: seq<Deposit>, q: Quantity, n: nat)
    requires multiset(a) == multiset(b)
    ensures BinSum(a, q, n) == BinSum(b, q, n)
  {
    hide Tally;
    if n > 0 {
      SameBins(a, b, q, n - 1);
      TallyAnyOrder(a, b, q, n - 1);
    }
  }

  /** The inner loop for one cell: the adds it issues, one for each radial cell in its range. */
  method CellAdds(g: Grid, c: Cell) returns (ds: seq<Deposit>)
    requires g.Valid() && c.dr > 0.0
    ensures Left(g, c) <= Right(g, c) && ds == CellDeposits(g, c, Left(g, c), Right(g, c) + 1)
  {
    hide Masked, Overlap, Covers, Left, Right, CellDeposits, Grid.Index, Grid.Edge, Grid.X, Prod;
    RangeOrdered(g, c);
    NoCells(g, c, Left(g, c));
    ds := [];
    var i1dright := Right(g, c);
    var i1d := Left(g, c);
    while i1d <= i1dright
      invariant Left(g, c) <= i1d <= i1dright + 1
      invariant ds == CellDeposits(g, c, Left(g, c), i1d)
    {
      var overlap := GetVolIntersect(g.X(i1d), g.dx, c.r, c.dr);
      MaskedIs(g, c, i1d);
      CellSnoc(g, c, Left(g, c), i1d);
      ds := ds + [Deposit(i1d, Prod(overlap, c.dv), c.m)];
      i1d := i1d + 1;
    }
  }

  lemma NoCells(g: Grid, c: Cell, lo: nat)
    requires c.dr > 0.0
    ensures CellDeposits(g, c, lo, lo) == []
  {
  }

  lemma CellSnoc(g: Grid, c: Cell, lo: nat, i: nat)
    requires c.dr > 0.0 && lo <= i
    ensures CellDeposits(g, c, lo, i + 1) == CellDeposits(g, c, lo, i) + [Deposit(i, Prod(Masked(g, c, i), c.dv), c.m)]
  {
    hide Masked, Prod;
  }

  lemma MaskedIs(g: Grid, c: Cell, i: int)
    requires c.dr > 0.0
    ensures Masked(g, c, i) == if Covers(g.X(i), g.dx, c.r, c.dr) then 0.0 else Overlap(g.X(i), g.dx, c.r, c.dr)
  {
    hide Covers, Overlap;
  }

  /** NMAT: the rows of the matter array. */
  const NMAT: nat := 4

  function Variable(v: nat): Quantity
    requires v < NMAT
  {
    if v == 0 then Rho else if v == 1 then Jr else if v == 2 then TrcS else Srr
  }

  /** Zeroes the 1D arrays and performs the adds in the order given. */
  method ApplyAdds(schedule: seq<Deposit>, vols: array<real>, matter: array2<real>)
    requires matter.Length0 == NMAT && matter.Length1 == vols.Length
    requires forall d <- schedule :: d.bin < vols.Length
    modifies vols, matter
    ensures forall i :: 0 <= i < vols.Length ==> vols[i] == Tally(schedule, Volume, i)
    ensures forall v, i :: 0 <= v < NMAT && 0 <= i < vols.Length ==> matter[v, i] == Tally(schedule, Variable(v), i)
    ensures forall i :: 0 <= i < vols.Length ==> vols[i] == VolumeArrived(schedule, i)
    ensures forall i :: 0 <= i < vols.Length ==>
              Vars(matter[0, i], matter[1, i], matter[2, i], matter[3, i]) == Arrived(schedule, i)
  {
    hide Value, Amount, Tally, Variable, Arrived, VolumeArrived;
    forall i | 0 <= i < vols.Length { vols[i] := 0.0; }
    forall v, i | 0 <= v < NMAT && 0 <= i < vols.Length { matter[v, i] := 0.0; }
    TallyNone();
    for k := 0 to |schedule|
      invariant forall i :: 0 <= i < vols.Length ==> vols[i] == Tally(schedule[..k], Volume, i)
      invariant forall v, i :: 0 <= v < NMAT && 0 <= i < vols.Length ==>
                  matter[v, i] == Tally(schedule[..k], Variable(v), i)
    {
      var d := schedule[k];
      TallySnoc(schedule, k);
      assert d in schedule;
      UnitValue(d);
      vols[d.bin] := vols[d.bin] + d.weight;
      forall v | 0 <= v < NMAT {
        matter[v, d.bin] := matter[v, d.bin] + Amount(d, Variable(v));
      }
    }
    assert schedule[..|schedule|] == schedule;
    Rows();
    forall i | 0 <= i < vols.Length
      ensures vols[i] == VolumeArrived(schedule, i)
      ensures Vars(matter[0, i], matter[1, i], matter[2, i], matter[3, i]) == Arrived(schedule, i)
    {
      ArrivedTallies(schedule, i);
    }
  }

  lemma Rows()
    ensures NMAT == 4 && Variable(0) == Rho && Variable(1) == Jr && Variable(2) == TrcS && Variable(3) == Srr
  {
  }

  lemma TallyNone()
    ensures forall q, bin: nat :: Tally([], q, bin) == 0.0
  {
  }

  lemma TallySnoc(ds: seq<Deposit>, k: nat)
    requires k < |ds|
    ensures forall q, bin: nat :: Tally(ds[..k + 1], q, bin)
                                  == Tally(ds[..k], q, bin) + (if ds[k].bin == bin then Amount(ds[k], q) else 0.0)
  {
    assert ds[..k + 1][..k] == ds[..k];
  }

  lemma UnitValue(d: Deposit)
    ensures Amount(d, Volume) == d.weight
  {
  }

  // ---------------------------------------------------------------------------------------------
  // The same, variable by variable: rho, J_R, tr S and S_RR each have a row of their own.

  /** The four variables times a weight, added to a. */
  function Plus(a: Vars, w: real, m: Vars): Vars {
    Vars(a.rho + Prod(m.rho, w), a.jr + Prod(m.jr, w), a.trcS + Prod(m.trcS, w), a.srr + Prod(m.srr, w))
  }

  const NOTHING := Vars(0.0, 0.0, 0.0, 0.0)

  /** What reaches one bin. */
  function Arrived(ds: seq<Deposit>, bin: nat): Vars {
    if ds == [] then NOTHING
    else
      var d := ds[|ds| - 1];
      if d.bin == bin then Plus(Arrived(ds[..|ds| - 1], bin), d.weight, d.m) else Arrived(ds[..|ds| - 1], bin)
  }

  /** The volume that reaches it. */
  function VolumeArrived(ds: seq<Deposit>, bin: nat): real {
    if ds == [] then 0.0
    else VolumeArrived(ds[..|ds| - 1], bin) + (if ds[|ds| - 1].bin == bin then ds[|ds| - 1].weight else 0.0)
  }

  lemma {:induction false} ArrivedTallies(ds: seq<Deposit>, bin: nat)
    ensures Arrived(ds, bin) == Vars(Tally(ds, Rho, bin), Tally(ds, Jr, bin), Tally(ds, TrcS, bin), Tally(ds, Srr, bin))
    ensures VolumeArrived(ds, bin) == Tally(ds, Volume, bin)
  {
    hide Amount, Plus, Value;
    if ds != [] {
      var d := ds[|ds| - 1];
      ArrivedTallies(ds[..|ds| - 1], bin);
      UnitValue(d);
      AmountFields(Arrived(ds[..|ds| - 1], bin), d);
    }
  }

  lemma AmountFields(a: Vars, d: Deposit)
    ensures Plus(a, d.weight, d.m)
            == Vars(a.rho + Amount(d, Rho), a.jr + Amount(d, Jr), a.trcS + Amount(d, TrcS), a.srr + Amount(d, Srr))
  {
    hide Prod, Amount;
    AmountIs(d, Rho);
    AmountIs(d, Jr);
    AmountIs(d, TrcS);
    AmountIs(d, Srr);
  }

  /** One cell puts into every bin of its range its variables times the volume that overlaps, and nothing
      anywhere else. */
  lemma {:induction false} CellInBin(g: Grid, c: Cell, lo: nat, hi: nat, bin: nat)
    requires c.dr > 0.0 && lo <= hi
    ensures var ds, w := CellDeposits(g, c, lo, hi), Prod(Masked(g, c, bin), c.dv);
            if lo <= bin < hi then Arrived(ds, bin) == Plus(NOTHING, w, c.m) && VolumeArrived(ds, bin) == w
            else Arrived(ds, bin) == NOTHING && VolumeArrived(ds, bin) == 0.0
    decreases hi - lo
  {
    hide Masked, Prod, Plus, CellDeposits, Arrived, VolumeArrived;
    if lo == hi {
      NoCells(g, c, lo);
      NoneArrived(bin);
    } else {
      CellInBin(g, c, lo, hi - 1, bin);
      CellSnoc(g, c, lo, hi - 1);
      ArrivedSnoc(CellDeposits(g, c, lo, hi - 1), Deposit(hi - 1, Prod(Masked(g, c, hi - 1), c.dv), c.m), bin);
    }
  }

  lemma NoneArrived(bin: nat)
    ensures Arrived([], bin) == NOTHING && VolumeArrived([], bin) == 0.0
  {
  }

  lemma ArrivedSnoc(ds: seq<Deposit>, d: Deposit, bin: nat)
    ensures Arrived(ds + [d], bin) == if d.bin == bin then Plus(Arrived(ds, bin), d.weight, d.m) else Arrived(ds, bin)
    ensures VolumeArrived(ds + [d], bin) == VolumeArrived(ds, bin) + (if d.bin == bin then d.weight else 0.0)
  {
    hide Plus;
    assert (ds + [d])[..|ds + [d]| - 1] == ds;
  }

  /** The sums over all bins, and over all cells weighted with their volume. */
  function GridTotals(ds: seq<Deposit>, n: nat): Vars {
    if n == 0 then NOTHING else Plus(GridTotals(ds, n - 1), 1.0, Arrived(ds, n - 1))
  }

  function CellTotals(cells: seq<Cell>): Vars {
    if cells == [] then NOTHING
    else Plus(CellTotals(cells[..|cells| - 1]), cells[|cells| - 1].dv, cells[|cells| - 1].m)
  }

  lemma {:induction false} GridTotalsAre(ds: seq<Deposit>, n: nat)
    ensures GridTotals(ds, n) == Vars(BinSum(ds, Rho, n), BinSum(ds, Jr, n), BinSum(ds, TrcS, n), BinSum(ds, Srr, n))
  {
    hide Arrived, Tally, Plus;
    if n > 0 {
      GridTotalsAre(ds, n - 1);
      ArrivedTallies(ds, n - 1);
      PlusOnce(GridTotals(ds, n - 1), Arrived(ds, n - 1));
    }
  }

  lemma PlusOnce(a: Vars, m: Vars)
    ensures Plus(a, 1.0, m) == Vars(a.rho + m.rho, a.jr + m.jr, a.trcS + m.trcS, a.srr + m.srr)
  {
  }

  lemma {:induction false} CellTotalsAre(cells: seq<Cell>)
    ensures CellTotals(cells) == Vars(CellSum(cells, Rho), CellSum(cells, Jr), CellSum(cells, TrcS), CellSum(cells, Srr))
  {
    hide Plus, Value;
    if cells != [] {
      CellTotalsAre(cells[..|cells| - 1]);
      VolumeFields(CellTotals(cells[..|cells| - 1]), cells[|cells| - 1]);
    }
  }

  lemma VolumeFields(a: Vars, c: Cell)
    ensures Plus(a, c.dv, c.m) == Vars(a.rho + Value(c.m, Rho) * c.dv, a.jr + Value(c.m, Jr) * c.dv,
                                       a.trcS + Value(c.m, TrcS) * c.dv, a.srr + Value(c.m, Srr) * c.dv)
  {
    hide Prod;
    ProdOf(c.m, Rho, c.dv);
    ProdOf(c.m, Jr, c.dv);
    ProdOf(c.m, TrcS, c.dv);
    ProdOf(c.m, Srr, c.dv);
  }

  lemma ProdOf(m: Vars, q: Quantity, w: real)
    ensures Value(m, q) * w == Prod(Value(m, q), w)
  {
  }

  /** Each of the four variables is conserved when every cell is whole. */
  lemma EachConserved(g: Grid, cells: seq<Cell>, schedule: seq<Deposit>)
    requires g.Valid() && Widths(cells) && multiset(schedule) == multiset(AllDeposits(g, cells))
    requires forall c <- cells :: c.dv > 0.0 && Whole(g, c)
    ensures GridTotals(schedule, g.n) == CellTotals(cells)
  {
    hide BinSum, CellSum, Whole, AllDeposits, GridTotals, CellTotals;
    DepositionConserves(g, cells, schedule);
    GridTotalsAre(schedule, g.n);
    CellTotalsAre(cells);
  }

  // ---------------------------------------------------------------------------------------------
  // Division by the deposited volume.

  predicate RadialOnly(v: nat) { v == 1 || v == 3 }

  /** Divides every bin by its volume, averages onto the faces, and clears the radial components of
      the innermost cell; the first interior face still sees them. */
  method DivideVols(cells: array2<real>, faces: array2<real>, vols: array<real>)
    requires cells.Length0 == faces.Length0 == NMAT && cells.Length1 == faces.Length1 == vols.Length >= 1
    requires cells != faces
    modifies cells, faces
    ensures forall v, i :: 0 <= v < NMAT && 0 <= i < vols.Length ==>
              cells[v, i] == if i == 0 && RadialOnly(v) then 0.0 else Ratio(old(cells[v, i]), Abs(vols[i]))
    ensures forall v, i :: 0 <= v < NMAT && 0 < i < vols.Length ==>
              faces[v, i] == 0.5 * (Ratio(old(cells[v, i]), Abs(vols[i]))
                                    + Ratio(old(cells[v, i - 1]), Abs(vols[i - 1])))
    ensures forall v :: 0 <= v < NMAT ==> faces[v, 0] == cells[v, 0]
    ensures cells[1, 0] == 0.0 == cells[3, 0]
    ensures cells[0, 0] == Ratio(old(cells[0, 0]), Abs(vols[0])) && cells[2, 0] == Ratio(old(cells[2, 0]), Abs(vols[0]))
  {
    hide Ratio;
    var n := vols.Length;
    for i := 0 to n
      invariant forall v, k :: 0 <= v < NMAT && 0 <= k < i ==> cells[v, k] == Ratio(old(cells[v, k]), Abs(vols[k]))
      invariant forall v, k :: 0 <= v < NMAT && i <= k < n ==> cells[v, k] == old(cells[v, k])
    {
      forall v | 0 <= v < NMAT { cells[v, i] := Ratio(cells[v, i], Abs(vols[i])); }
    }
    for i := 1 to n
      invariant forall v, k :: 0 <= v < NMAT && 0 <= k < n ==> cells[v, k] == Ratio(old(cells[v, k]), Abs(vols[k]))
      invariant forall v, k :: 0 <= v < NMAT && 0 < k < i ==> faces[v, k] == 0.5 * (cells[v, k] + cells[v, k - 1])
    {
      forall v | 0 <= v < NMAT { faces[v, i] := 0.5 * (cells[v, i] + cells[v, i - 1]); }
    }
    cells[1, 0] := 0.0;
    cells[3, 0] := 0.0;
    forall v | 0 <= v < NMAT { faces[v, 0] := cells[v, 0]; }
  }

  ghost predicate Bounded(d: Deposit, q: Quantity, lo: real, hi: real) {
    d.weight >= 0.0 && lo <= Value(d.m, q) <= hi
  }

  lemma {:induction false} TallyBounds(ds: seq<Deposit>, q: Quantity, bin: nat, lo: real, hi: real)
    requires forall d <- ds :: Bounded(d, q, lo, hi)
    ensures var V := Tally(ds, Volume, bin);
            V >= 0.0 && Prod(lo, V) <= Tally(ds, q, bin) <= Prod(hi, V)
  {
    hide Value, Amount, Tally;
    TallyNone();
    if ds != [] {
      var d, rest := ds[|ds| - 1], ds[..|ds| - 1];
      assert d in ds;
      assert ds[..|ds| - 1 + 1] == ds;
      TallySnoc(ds, |ds| - 1);
      TallyBounds(rest, q, bin, lo, hi);
      UnitValue(d);
      TallyBoundStep(Value(d.m, q), lo, hi, Tally(rest, q, bin), Tally(rest, Volume, bin), d.weight);
      assert Amount(d, q) == Prod(Value(d.m, q), d.weight) by { AmountIs(d, q); }
      if d.bin == bin {
        assert Tally(ds, q, bin) == Tally(rest, q, bin) + Prod(Value(d.m, q), d.weight);
        assert Tally(ds, Volume, bin) == Tally(rest, Volume, bin) + d.weight;
      }
    } else {
      assert Prod(lo, 0.0) == 0.0 == Prod(hi, 0.0);
    }
  }

  lemma AmountIs(d: Deposit, q: Quantity)
    ensures Amount(d, q) == Prod(Value(d.m, q), d.weight)
  {
  }

  lemma TallyBoundStep(x: real, lo: real, hi: real, T: real, V: real, w: real)
    requires lo <= x <= hi && w >= 0.0 && Prod(lo, V) <= T <= Prod(hi, V)
    ensures Prod(lo, V + w) <= T + Prod(x, w) <= Prod(hi, V + w)
  {
    hide *;
    TermMono(lo, x, w);
    TermMono(x, hi, w);
    BoundStep(lo, V, w);
    BoundStep(hi, V, w);
  }

  lemma BoundStep(c: real, V: real, w: real)
    ensures Prod(c, V + w) == Prod(c, V) + Prod(c, w)
  {
    Distribute(V, w, c);
  }

  lemma TermMono(a: real, b: real, w: real)
    requires a <= b && w >= 0.0
    ensures Prod(a, w) <= Prod(b, w)
  {
    MulMono(a, b, w);
  }

  lemma {:induction false} AllBounded(g: Grid, cells: seq<Cell>, q: Quantity, lo: real, hi: real)
    requires g.Valid() && Widths(cells) && forall c <- cells :: c.dv >= 0.0 && lo <= Value(c.m, q) <= hi
    ensures forall d <- AllDeposits(g, cells) :: Bounded(d, q, lo, hi)
  {
    hide Value, Left, Right;
    if cells != [] {
      var c := cells[|cells| - 1];
      assert c in cells;
      AllBounded(g, cells[..|cells| - 1], q, lo, hi);
      RangeOrdered(g, c);
      CellBounded(g, c, Left(g, c), Right(g, c) + 1, q, lo, hi);
    }
  }

  lemma {:induction false} CellBounded(g: Grid, c: Cell, a: nat, b: nat, q: Quantity, lo: real, hi: real)
    requires c.dr > 0.0 && c.dv >= 0.0 && lo <= Value(c.m, q) <= hi && a <= b
    ensures forall d <- CellDeposits(g, c, a, b) :: Bounded(d, q, lo, hi)
    decreases b - a
  {
    if a < b {
      CellBounded(g, c, a, b - 1, q, lo, hi);
      WeightNonneg(g, c, b - 1);
      MulNonneg(Masked(g, c, b - 1), c.dv);
    }
  }

  /** What the deposition and the division give in one bin is a mean of the matter that reached it, so
      it lies within the range of the 3D cells, under any schedule; an empty bin reads zero. */
  lemma BinIsMean(g: Grid, cells: seq<Cell>, schedule: seq<Deposit>, q: Quantity, bin: nat, lo: real, hi: real)
    requires g.Valid() && Widths(cells) && forall c <- cells :: c.dv >= 0.0 && lo <= Value(c.m, q) <= hi
    requires multiset(schedule) == multiset(AllDeposits(g, cells))
    ensures var V, T := Tally(schedule, Volume, bin), Tally(schedule, q, bin);
            if V == 0.0 then Ratio(T, Abs(V)) == 0.0 else lo <= Ratio(T, Abs(V)) <= hi
  {
    AllBounded(g, cells, q, lo, hi);
    forall d <- schedule ensures Bounded(d, q, lo, hi) {
      assert d in multiset(AllDeposits(g, cells));
    }
    TallyBounds(schedule, q, bin, lo, hi);
    MeanInRange(Tally(schedule, q, bin), Tally(schedule, Volume, bin), lo, hi);
  }

  /** Every variable lies within its own bounds. */
  predicate InRange(lo: Vars, m: Vars, hi: Vars) {
    lo.rho <= m.rho <= hi.rho && lo.jr <= m.jr <= hi.jr && lo.trcS <= m.trcS <= hi.trcS && lo.srr <= m.srr <= hi.srr
  }

  /** So in every bin that received volume, each of the four variables lies within its own range over the
      cells. */
  lemma RowsAreMeans(g: Grid, cells: seq<Cell>, schedule: seq<Deposit>, bin: nat, lo: Vars, hi: Vars)
    requires g.Valid() && Widths(cells) && forall c <- cells :: c.dv >= 0.0 && InRange(lo, c.m, hi)
    requires multiset(schedule) == multiset(AllDeposits(g, cells)) && VolumeArrived(schedule, bin) != 0.0
    ensures var V, s := Abs(VolumeArrived(schedule, bin)), Arrived(schedule, bin);
            InRange(lo, Vars(Ratio(s.rho, V), Ratio(s.jr, V), Ratio(s.trcS, V), Ratio(s.srr, V)), hi)
  {
    hide Arrived, VolumeArrived, Tally, AllDeposits, Ratio;
    ArrivedTallies(schedule, bin);
    BinIsMean(g, cells, schedule, Rho, bin, lo.rho, hi.rho);
    BinIsMean(g, cells, schedule, Jr, bin, lo.jr, hi.jr);
    BinIsMean(g, cells, schedule, TrcS, bin, lo.trcS, hi.trcS);
    BinIsMean(g, cells, schedule, Srr, bin, lo.srr, hi.srr);
  }

  lemma MeanInRange(T: real, V: real, lo: real, hi: real)
    requires V >= 0.0 && Prod(lo, V) <= T <= Prod(hi, V)
    ensures if V == 0.0 then Ratio(T, Abs(V)) == 0.0 else lo <= Ratio(T, Abs(V)) <= hi
  {
    if V > 0.0 {
      DivLe(T, V, hi);
      DivLe(T, V, lo);
    }
  }
}
