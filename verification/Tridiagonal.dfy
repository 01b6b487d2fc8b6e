/** The in-place forward and back substitution of LinearSolveForAlpha, for any tridiagonal system. */
module Tridiagonal {
  import opened Reals

  /** Bands of a tridiagonal matrix and the right hand side, one entry a row. */
  datatype System = System(l: seq<real>, d: seq<real>, u: seq<real>, b: seq<real>) {
    predicate Shaped() { |l| == |d| == |u| == |b| && |d| >= 2 }

    /** Row i of M x. */
    function Row(x: seq<real>, i: nat): real
      requires Shaped() && |x| == |d| && i < |d|
    {
      (if i > 0 then l[i] * x[i - 1] else 0.0) + d[i] * x[i] + (if i + 1 < |d| then u[i] * x[i + 1] else 0.0)
    }

    ghost predicate Solves(x: seq<real>)
      requires Shaped()
    {
      |x| == |d| && forall i :: 0 <= i < |d| ==> Row(x, i) == b[i]
    }

    /** The pivot of row i after forward substitution. */
    function Pivot(i: nat): real
      requires Shaped() && i < |d|
      decreases i, 1
    {
      if i == 0 then d[0] else d[i] - Multiplier(i) * u[i - 1]
    }

    /** The right hand side of row i after forward substitution. */
    function Reduced(i: nat): real
      requires Shaped() && i < |d|
      decreases i, 1
    {
      if i == 0 then b[0] else b[i] - Multiplier(i) * Reduced(i - 1)
    }

    function Multiplier(i: nat): real
      requires Shaped() && 0 < i < |d|
      decreases i, 0
    {
      if Pivot(i - 1) == 0.0 then 0.0 else l[i] / Pivot(i - 1)
    }

    ghost predicate Regular()
      requires Shaped()
    {
      forall i :: 0 <= i < |d| ==> Pivot(i) != 0.0
    }

    /** Row i of the reduced, upper bidiagonal system. */
    function UpperRow(x: seq<real>, i: nat): real
      requires Shaped() && |x| == |d| && i < |d|
    {
      Pivot(i) * x[i] + (if i + 1 < |d| then u[i] * x[i + 1] else 0.0)
    }
  }

  /** Forward substitution keeps the solutions: rows 0..i of M x = b hold exactly when rows 0..i of
      the reduced system hold. */
  lemma {:induction false} ForwardEquivalence(s: System, x: seq<real>, i: nat)
    requires s.Shaped() && s.Regular() && |x| == |s.d| && i < |s.d|
    ensures (forall k :: 0 <= k <= i ==> s.Row(x, k) == s.b[k]) <==>
            (forall k :: 0 <= k <= i ==> s.UpperRow(x, k) == s.Reduced(k))
  {
    if i == 0 {
      FirstRow(s, x);
    } else {
      hide *;
      ForwardEquivalence(s, x, i - 1);
      assert s.Pivot(i - 1) != 0.0 by { assert s.Regular(); RegularAt(s, i - 1); }
      if s.UpperRow(x, i - 1) == s.Reduced(i - 1) {
        RowReduction(s, x, i);
      }
    }
  }

  lemma FirstRow(s: System, x: seq<real>)
    requires s.Shaped() && |x| == |s.d|
    ensures s.Row(x, 0) == s.UpperRow(x, 0) && s.b[0] == s.Reduced(0) && s.d[0] == s.Pivot(0)
  {
  }

  lemma RegularAt(s: System, i: nat)
    requires s.Shaped() && s.Regular() && i < |s.d|
    ensures s.Pivot(i) != 0.0
  {
  }

  lemma RowReduction(s: System, x: seq<real>, i: nat)
    requires s.Shaped() && |x| == |s.d| && 0 < i < |s.d| && s.Pivot(i - 1) != 0.0
    requires s.UpperRow(x, i - 1) == s.Reduced(i - 1)
    ensures s.Row(x, i) - s.b[i] == s.UpperRow(x, i) - s.Reduced(i)
  {
    var p := s.Pivot(i - 1);
    DivMul(s.l[i], p);
    var w := s.Multiplier(i);
    ReductionAlgebra(w, p, s.l[i], s.u[i - 1], s.d[i], x[i - 1], x[i], s.Reduced(i - 1));
  }

  lemma ReductionAlgebra(w: real, p: real, l: real, u: real, d: real, y: real, x: real, r: real)
    requires w * p == l && p * y + u * x == r
    ensures l * y + d * x == (d - w * u) * x + w * r
  {
    calc {
      w * r;
      w * (p * y + u * x);
      w * (p * y) + w * (u * x);
      (w * p) * y + (w * u) * x;
    }
    assert (d - w * u) * x == d * x - (w * u) * x;
  }

  /** With nonzero pivots the system has at most one solution. */
  lemma {:induction false} Unique(s: System, x: seq<real>, y: seq<real>, i: nat)
    requires s.Shaped() && s.Regular() && |x| == |y| == |s.d| && i < |s.d|
    requires forall k :: 0 <= k < |s.d| ==> s.UpperRow(x, k) == s.Reduced(k) && s.UpperRow(y, k) == s.Reduced(k)
    ensures forall k :: i <= k < |s.d| ==> x[k] == y[k]
    decreases |s.d| - i
  {
    hide *;
    if i + 1 < |s.d| {
      Unique(s, x, y, i + 1);
    }
    RegularAt(s, i);
    SameEntry(s, x, y, i);
  }

  lemma SameEntry(s: System, x: seq<real>, y: seq<real>, i: nat)
    requires s.Shaped() && |x| == |y| == |s.d| && i < |s.d| && s.Pivot(i) != 0.0
    requires s.UpperRow(x, i) == s.Reduced(i) == s.UpperRow(y, i) && (i + 1 < |s.d| ==> x[i + 1] == y[i + 1])
    ensures x[i] == y[i]
  {
    hide System.Pivot, System.Reduced;
    UniqueEntry(s.Pivot(i), x[i], y[i], if i + 1 < |s.d| then s.u[i] * x[i + 1] else 0.0, s.Reduced(i));
  }

  lemma UniqueEntry(p: real, x: real, y: real, c: real, r: real)
    requires p != 0.0 && p * x + c == r && p * y + c == r
    ensures x == y
  {
    assert p * (x - y) == 0.0;
  }

  /** A solution of the reduced system is the one solution of the system. */
  lemma UpperSolves(s: System, x: seq<real>)
    requires s.Shaped() && s.Regular() && |x| == |s.d|
    requires forall k :: 0 <= k < |s.d| ==> s.UpperRow(x, k) == s.Reduced(k)
    ensures s.Solves(x) && forall y :: s.Solves(y) ==> y == x
  {
    hide System.Row, System.UpperRow, System.Pivot, System.Reduced, System.Regular;
    var n := |s.d|;
    ForwardEquivalence(s, x, n - 1);
    forall y | s.Solves(y) ensures y == x {
      ForwardEquivalence(s, y, n - 1);
      Unique(s, y, x, 0);
    }
  }

  lemma ForwardStep(s: System, i: nat, w: real)
    requires s.Shaped() && 0 < i < |s.d| && s.Pivot(i - 1) != 0.0 && w == s.l[i] / s.Pivot(i - 1)
    ensures s.Pivot(i) == s.d[i] - w * s.u[i - 1] && s.Reduced(i) == s.b[i] - w * s.Reduced(i - 1)
  {
  }

  lemma BackStep(s: System, x: seq<real>, i: nat, rhs: real, piv: real, up: real, next: real)
    requires s.Shaped() && |x| == |s.d| && i < |s.d| && piv == s.Pivot(i) != 0.0 && rhs == s.Reduced(i)
    requires if i + 1 < |s.d| then up == s.u[i] && next == x[i + 1] else up == 0.0
    requires x[i] == (rhs - up * next) / piv
    ensures s.UpperRow(x, i) == s.Reduced(i)
  {
    hide System.Pivot, System.Reduced;
    DivMul(rhs - up * next, piv);
  }

  lemma UpperLocal(s: System, x: seq<real>, y: seq<real>, i: nat)
    requires s.Shaped() && |x| == |y| == |s.d| && i < |s.d| && x[i..] == y[i..]
    ensures s.UpperRow(x, i) == s.UpperRow(y, i)
  {
    assert x[i] == x[i..][0] && y[i] == y[i..][0];
    if i + 1 < |s.d| {
      assert x[i + 1] == x[i..][1] && y[i + 1] == y[i..][1];
    }
  }

  /** The two sweeps, overwriting d, b and alpha: alpha becomes the one solution of the system that
      was stored on entry. */
  method Solve(l: array<real>, d: array<real>, u: array<real>, b: array<real>, alpha: array<real>)
    requires l.Length == d.Length == u.Length == b.Length == alpha.Length >= 2
    requires d != l && d != u && d != b && d != alpha && b != l && b != u && b != alpha && alpha != l && alpha != u
    requires System(l[..], d[..], u[..], b[..]).Regular()
    modifies d, b, alpha
    ensures var s := old(System(l[..], d[..], u[..], b[..]));
            s.Solves(alpha[..]) && forall y :: s.Solves(y) ==> y == alpha[..]
  {
    hide System.Row, System.UpperRow, System.Pivot, System.Reduced, System.Regular, System.Solves;
    var n := d.Length;
    ghost var s := System(l[..], d[..], u[..], b[..]);
    FirstRow(s, s.b);
    for i := 1 to n
      invariant l[..] == s.l && u[..] == s.u
      invariant forall k :: 0 <= k < i ==> d[k] == s.Pivot(k) && b[k] == s.Reduced(k)
      invariant forall k :: i <= k < n ==> d[k] == s.d[k] && b[k] == s.b[k]
    {
      RegularAt(s, i - 1);
      var w := l[i] / d[i - 1];
      ForwardStep(s, i, w);
      d[i] := d[i] - w * u[i - 1];
      b[i] := b[i] - w * b[i - 1];
    }
    RegularAt(s, n - 1);
    alpha[n - 1] := b[n - 1] / d[n - 1];
    BackStep(s, alpha[..], n - 1, b[n - 1], d[n - 1], 0.0, 0.0);
    var i := n - 2;
    while i >= 0
      invariant -1 <= i <= n - 2
      invariant l[..] == s.l && u[..] == s.u
      invariant forall k :: 0 <= k < n ==> d[k] == s.Pivot(k) && b[k] == s.Reduced(k)
      invariant forall k :: i < k < n ==> s.UpperRow(alpha[..], k) == s.Reduced(k)
    {
      RegularAt(s, i);
      ghost var before := alpha[..];
      ghost var up, next := u[i], alpha[i + 1];
      alpha[i] := (b[i] - u[i] * alpha[i + 1]) / d[i];
      BackStep(s, alpha[..], i, b[i], d[i], up, next);
      forall k | i < k < n ensures s.UpperRow(alpha[..], k) == s.Reduced(k) {
        UpperLocal(s, before, alpha[..], k);
      }
      i := i - 1;
    }
    UpperSolves(s, alpha[..]);
  }
}
