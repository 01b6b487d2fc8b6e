/** The accretion rate diagnostic: pillbox divergences summed over the cells inside a radius are the
    flux through the faces that separate those cells from the others. */
module History {
  import opened Reals

  datatype Cell = Cell(k: int, j: int, i: int) {
    /** The next cell in direction 1, 2 or 3. */
    function Up(dir: nat): Cell {
      if dir == 1 then Cell(k, j, i + 1) else if dir == 2 then Cell(k, j + 1, i) else Cell(k + 1, j, i)
    }

    function Down(dir: nat): Cell {
      if dir == 1 then Cell(k, j, i - 1) else if dir == 2 then Cell(k, j - 1, i) else Cell(k - 1, j, i)
    }
  }

  /** Flux through the low face of a cell. */
  type FaceFlux = (nat, Cell) -> real

  datatype Areas = Areas(a1: real, a2: real, a3: real) {
    function Of(dir: nat): real { if dir == 1 then a1 else if dir == 2 then a2 else a3 }
  }

  // ---------------------------------------------------------------------------------------------
  // Sums over finite sets.

  ghost function Sum(f: Cell -> real, s: set<Cell>): real {
    if s == {} then 0.0
    else
      var c :| c in s;
      f(c) + Sum(f, s - {c})
  }

  /** Any element may be taken out first. */
  lemma {:induction false} SumRemove(f: Cell -> real, s: set<Cell>, c: Cell)
    requires c in s
    ensures Sum(f, s) == f(c) + Sum(f, s - {c})
    decreases |s|
  {
    var d :| d in s && Sum(f, s) == f(d) + Sum(f, s - {d});
    if d != c {
      SumRemove(f, s - {d}, c);
      SumRemove(f, s - {c}, d);
      assert s - {d} - {c} == s - {c} - {d};
    }
  }

  lemma {:induction false} SumUnion(f: Cell -> real, s: set<Cell>, t: set<Cell>)
    requires s !! t
    ensures Sum(f, s + t) == Sum(f, s) + Sum(f, t)
    decreases |s|
  {
    if s == {} {
      assert s + t == t;
    } else {
      var c :| c in s;
      SumRemove(f, s, c);
      SumRemove(f, s + t, c);
      assert s + t - {c} == (s - {c}) + t;
      SumUnion(f, s - {c}, t);
    }
  }

  /** The common part of two sets cancels in the difference of their sums. */
  lemma SumDifference(f: Cell -> real, s: set<Cell>, t: set<Cell>)
    ensures Sum(f, s) - Sum(f, t) == Sum(f, s - t) - Sum(f, t - s)
  {
    SumUnion(f, s - t, s * t);
    SumUnion(f, t - s, s * t);
    assert (s - t) + s * t == s && (t - s) + s * t == t;
  }

  function Shifted(s: set<Cell>, dir: nat): set<Cell> { set c | c in s :: c.Up(dir) }

  lemma {:induction false} SumShifted(f: Cell -> real, g: Cell -> real, s: set<Cell>, dir: nat)
    requires forall c :: g(c) == f(c.Up(dir))
    ensures Sum(g, s) == Sum(f, Shifted(s, dir))
    decreases |s|
  {
    if s == {} {
      assert Shifted(s, dir) == {};
    } else {
      hide Sum, Cell.Up;
      var c :| c in s;
      SumRemove(g, s, c);
      SumShifted(f, g, s - {c}, dir);
      assert c.Up(dir) in Shifted(s, dir);
      SumRemove(f, Shifted(s, dir), c.Up(dir));
      ShiftedRemove(s, c, dir);
    }
  }

  lemma ShiftedRemove(s: set<Cell>, c: Cell, dir: nat)
    requires c in s
    ensures Shifted(s, dir) - {c.Up(dir)} == Shifted(s - {c}, dir)
  {
    forall x | x in Shifted(s, dir) - {c.Up(dir)} ensures x in Shifted(s - {c}, dir) {
      assert x.Down(dir) in s && x.Down(dir) != c && x.Down(dir).Up(dir) == x;
    }
    forall x | x in Shifted(s - {c}, dir) ensures x in Shifted(s, dir) - {c.Up(dir)} {
      assert x.Down(dir) in s - {c} && x.Down(dir).Up(dir) == x;
      assert c.Up(dir).Down(dir) == c;
    }
  }

  lemma {:induction false} SumLinear(h: Cell -> real, f: Cell -> real, g: Cell -> real, a: real, s: set<Cell>)
    requires forall c :: h(c) == Prod(f(c) - g(c), a)
    ensures Sum(h, s) == Prod(Sum(f, s) - Sum(g, s), a)
    decreases |s|
  {
    if s == {} {
    } else {
      var c :| c in s;
      SumRemove(h, s, c);
      SumRemove(f, s, c);
      SumRemove(g, s, c);
      SumLinear(h, f, g, a, s - {c});
      Distribute(f(c) - g(c), Sum(f, s - {c}) - Sum(g, s - {c}), a);
      hide Prod;
    }
  }

  lemma Distribute(x: real, y: real, a: real)
    ensures Prod(x, a) + Prod(y, a) == Prod(x + y, a)
  {
  }

  lemma {:induction false} SumAdds(h: Cell -> real, f: Cell -> real, g: Cell -> real, s: set<Cell>)
    requires forall c :: h(c) == f(c) + g(c)
    ensures Sum(h, s) == Sum(f, s) + Sum(g, s)
    decreases |s|
  {
    if s != {} {
      var c :| c in s;
      SumRemove(h, s, c);
      SumRemove(f, s, c);
      SumRemove(g, s, c);
      SumAdds(h, f, g, s - {c});
    }
  }

  // ---------------------------------------------------------------------------------------------
  // The discrete Gauss theorem.

  function Pillbox(flux: FaceFlux, areas: Areas, c: Cell, dir: nat): real {
    Prod(flux(dir, c.Up(dir)) - flux(dir, c), areas.Of(dir))
  }

  /** ComputeDivInPillbox: accumulated dimension by dimension. */
  method ComputeDivInPillbox(ndim: nat, flux: FaceFlux, areas: Areas, c: Cell) returns (div: real)
    requires 1 <= ndim <= 3
    ensures div == Divergence(ndim, flux, areas, c)
  {
    assert Divergence(1, flux, areas, c) == Pillbox(flux, areas, c, 1);
    assert Divergence(2, flux, areas, c) == Divergence(1, flux, areas, c) + Pillbox(flux, areas, c, 2);
    assert Divergence(3, flux, areas, c) == Divergence(2, flux, areas, c) + Pillbox(flux, areas, c, 3);
    hide Divergence;
    div := (flux(1, Cell(c.k, c.j, c.i + 1)) - flux(1, c)) * areas.a1;
    if ndim >= 2 {
      div := div + (flux(2, Cell(c.k, c.j + 1, c.i)) - flux(2, c)) * areas.a2;
    }
    if ndim >= 3 {
      div := div + (flux(3, Cell(c.k + 1, c.j, c.i)) - flux(3, c)) * areas.a3;
    }
  }

  function Divergence(ndim: nat, flux: FaceFlux, areas: Areas, c: Cell): real {
    if ndim == 0 then 0.0 else Divergence(ndim - 1, flux, areas, c) + Pillbox(flux, areas, c, ndim)
  }

  /** Faces f with a member below and a non-member above, and the other way round. */
  function Leaving(s: set<Cell>, dir: nat): set<Cell> { Shifted(s, dir) - s }

  function Entering(s: set<Cell>, dir: nat): set<Cell> { s - Shifted(s, dir) }

  /** Which faces these are: the cell at the face and the one below it are on different sides. */
  lemma BoundaryFaces(s: set<Cell>, dir: nat, f: Cell)
    ensures f in Leaving(s, dir) <==> f.Down(dir) in s && f !in s
    ensures f in Entering(s, dir) <==> f in s && f.Down(dir) !in s
  {
    assert f.Down(dir).Up(dir) == f;
    forall c | c in s && c.Up(dir) == f ensures c == f.Down(dir) { }
  }

  /** Net outflow through the faces that separate members from non-members. */
  ghost function NetOutflow(ndim: nat, flux: FaceFlux, areas: Areas, s: set<Cell>): real {
    if ndim == 0 then 0.0
    else
      NetOutflow(ndim - 1, flux, areas, s) + Net(flux, areas, s, ndim)
  }

  /** The part of it in one direction. */
  ghost function Net(flux: FaceFlux, areas: Areas, s: set<Cell>, dir: nat): real {
    Prod(Sum(Along(flux, dir), Leaving(s, dir)) - Sum(Along(flux, dir), Entering(s, dir)), areas.Of(dir))
  }

  function Along(flux: FaceFlux, dir: nat): Cell -> real { (c: Cell) => flux(dir, c) }

  function Pillboxes(flux: FaceFlux, areas: Areas, dir: nat): Cell -> real {
    (c: Cell) => Pillbox(flux, areas, c, dir)
  }

  function Divergences(ndim: nat, flux: FaceFlux, areas: Areas): Cell -> real {
    (c: Cell) => Divergence(ndim, flux, areas, c)
  }

  lemma LeavingIs(s: set<Cell>, dir: nat)
    ensures Leaving(s, dir) == Shifted(s, dir) - s && Entering(s, dir) == s - Shifted(s, dir)
  {
  }

  lemma OneDirection(flux: FaceFlux, areas: Areas, s: set<Cell>, dir: nat)
    ensures Sum(Pillboxes(flux, areas, dir), s) == Net(flux, areas, s, dir)
  {
    hide Sum, Prod, Leaving, Entering, Shifted;
    LeavingIs(s, dir);
    var f := Along(flux, dir);
    var g: Cell -> real := (c: Cell) => flux(dir, c.Up(dir));
    SumLinear(Pillboxes(flux, areas, dir), g, f, areas.Of(dir), s);
    SumShifted(f, g, s, dir);
    SumDifference(f, Shifted(s, dir), s);
  }

  /** Over any finite set of cells, in one, two or three dimensions. */
  lemma {:induction false} Gauss(ndim: nat, flux: FaceFlux, areas: Areas, s: set<Cell>)
    ensures Sum(Divergences(ndim, flux, areas), s) == NetOutflow(ndim, flux, areas, s)
  {
    if ndim == 0 {
      ZeroSum(Divergences(ndim, flux, areas), s);
    } else {
      Gauss(ndim - 1, flux, areas, s);
      OneDirection(flux, areas, s, ndim);
      SumAdds(Divergences(ndim, flux, areas), Divergences(ndim - 1, flux, areas), Pillboxes(flux, areas, ndim), s);
    }
  }

  lemma {:induction false} ZeroSum(h: Cell -> real, s: set<Cell>)
    requires forall c :: h(c) == 0.0
    ensures Sum(h, s) == 0.0
    decreases |s|
  {
    if s != {} {
      var c :| c in s;
      SumRemove(h, s, c);
      ZeroSum(h, s - {c});
    }
  }

  lemma EmptySum(f: Cell -> real)
    ensures Sum(f, {}) == 0.0
  {
  }

  // ---------------------------------------------------------------------------------------------
  // CalculateMdot.

  /** What the gain branch looks at. These fields and doGainParam below are the source's inputs to a switch
      that stays off; the result depends on none of them. */
  datatype Gain = Gain(active: bool, reducer: bool, insidePns: real, netHeat: real)

  function Members(order: seq<Cell>, radius: Cell -> real, rc: real): set<Cell> {
    set c | c in order && radius(c) <= rc
  }

  /** The reduction, over the cells of the mesh in any order. Without gain it is minus the net outflow
      from the cells inside rc. With gain it is always zero: the parameter that would switch the gain
      calculation on is read and discarded. */
  method CalculateMdot(ndim: nat, flux: FaceFlux, areas: Areas, order: seq<Cell>, radius: Cell -> real, rc: real,
                       gain: bool, heating: Cell -> real, rad: Gain, doGainParam: bool)
    returns (mdot: real)
    requires 1 <= ndim <= 3
    requires forall x, y :: 0 <= x < y < |order| ==> order[x] != order[y]
    ensures mdot == if gain then 0.0 else -NetOutflow(ndim, flux, areas, Members(order, radius, rc))
  {
    hide Divergence, NetOutflow;
    var doGainCalc := false;
    if rad.active {
      var ignored := doGainParam;
    }
    var doGain := false;
    if rad.active && doGainCalc {
      doGain := rad.reducer;
    }
    mdot := 0.0;
    ghost var f := Divergences(ndim, flux, areas);
    EmptySum(f);
    assert Members(order[..0], radius, rc) == {};
    for n := 0 to |order|
      invariant !doGain && (gain ==> mdot == 0.0)
      invariant !gain ==> mdot == -Sum(f, Members(order[..n], radius, rc))
    {
      var c := order[n];
      ghost var before := Members(order[..n], radius, rc);
      var counted := radius(c) <= rc && (gain ==> doGain && (radius(c) < rad.insidePns || heating(c) > rad.netHeat));
      if counted {
        var div := ComputeDivInPillbox(ndim, flux, areas, c);
        mdot := mdot - div;
      }
      if radius(c) <= rc {
        assert Members(order[..n + 1], radius, rc) == before + {c};
        SumRemove(f, before + {c}, c);
        assert before + {c} - {c} == before;
      } else {
        assert Members(order[..n + 1], radius, rc) == before;
      }
    }
    assert order[..|order|] == order;
    Gauss(ndim, flux, areas, Members(order, radius, rc));
  }
}
