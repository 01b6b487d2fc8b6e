/** The packed geometry cache: symmetric tensors share slots, derivatives are interleaved, and what is
    read back is what was written. One cell of the pack; slots are numbered as the pack numbers them. */
module GeometryCache {
  import opened Reals

  type Tensor1 = int -> real
  type Tensor2 = (int, int) -> real
  type Tensor3 = (int, int, int) -> real

  const NDFULL: int := 4
  const NDSPACE: int := 3

  ghost predicate Symmetric(t: Tensor2, n: int) {
    forall a, b :: 0 <= a < n && 0 <= b < n ==> t(a, b) == t(b, a)
  }

  ghost predicate SymmetricPair(t: Tensor3) {
    forall a, b, s :: 0 <= a < NDFULL && 0 <= b < NDFULL && 0 <= s < NDFULL ==> t(a, b, s) == t(b, a, s)
  }

  // ---------------------------------------------------------------------------------------------
  // Slots.

  /** The table of Flatten2. */
  function Flatten2(m: int, n: int): int
    requires 0 <= m < NDFULL && 0 <= n < NDFULL
  {
    if m == 0 then (if n == 0 then 0 else if n == 1 then 1 else if n == 2 then 3 else 6)
    else if m == 1 then (if n == 0 then 1 else if n == 1 then 2 else if n == 2 then 4 else 7)
    else if m == 2 then (if n == 0 then 3 else if n == 1 then 4 else if n == 2 then 5 else 8)
    else (if n == 0 then 6 else if n == 1 then 7 else if n == 2 then 8 else 9)
  }

  function SymSize(size: int): int { size * size - size * (size - 1) / 2 }

  /** The table is a packing: order of the indices does not matter, nothing else shares a slot, the
      slots of a size-n tensor are exactly 0 .. SymSize(n) - 1. */
  lemma Flatten2Packs(m: int, n: int, p: int, q: int)
    requires 0 <= m < NDFULL && 0 <= n < NDFULL && 0 <= p < NDFULL && 0 <= q < NDFULL
    ensures Flatten2(m, n) == Flatten2(n, m)
    ensures Flatten2(m, n) == Flatten2(p, q) ==> (m == p && n == q) || (m == q && n == p)
    ensures 0 <= Flatten2(m, n) < SymSize(NDFULL) == 10
    ensures m < NDSPACE && n < NDSPACE <==> Flatten2(m, n) < SymSize(NDSPACE)
  {
  }

  /** First slots of the cached variables. */
  datatype Layout = Layout(alpha: int, bcon: int, gcov: int, gamcon: int, detgam: int, dalpha: int, dg: int)

  /** Derivative directions that are stored: all four, or only the spatial ones. */
  function NvarDeriv(timeDependent: bool): int { if timeDependent then NDFULL else NDSPACE }

  function Offset(timeDependent: bool): int { if timeDependent then 0 else 1 }

  predicate Apart(a: int, n: int, b: int, m: int) { a + n <= b || b + m <= a }

  /** Both orders of two indices share a slot below SymSize. */
  lemma Slots(size: int)
    requires size == NDFULL || size == NDSPACE
    ensures forall mu, nu :: 0 <= mu < size && 0 <= nu < size ==>
              0 <= Flatten2(mu, nu) < SymSize(size) && Flatten2(mu, nu) == Flatten2(nu, mu)
  {
    forall mu, nu | 0 <= mu < size && 0 <= nu < size
      ensures 0 <= Flatten2(mu, nu) < SymSize(size) && Flatten2(mu, nu) == Flatten2(nu, mu)
    {
      Flatten2Packs(mu, nu, mu, nu);
    }
  }

  /** In the upper triangle no other entry does. */
  lemma OwnSlot(size: int, mu: int, nu: int)
    requires (size == NDFULL || size == NDSPACE) && 0 <= mu <= nu < size
    ensures forall m, n :: 0 <= m <= mu && m <= n < size && Flatten2(m, n) == Flatten2(mu, nu) ==> m == mu && n == nu
  {
    forall m, n | 0 <= m <= mu && m <= n < size && Flatten2(m, n) == Flatten2(mu, nu) ensures m == mu && n == nu {
      Flatten2Packs(m, n, mu, nu);
    }
  }

  /** The pack holds the symmetric tensor t from slot base on, readable in either index order. */
  ghost predicate Stored(p: seq<real>, base: int, size: int, t: Tensor2)
    requires size == NDFULL || size == NDSPACE
  {
    && 0 <= base && base + SymSize(size) <= |p|
    && forall mu, nu :: 0 <= mu < size && 0 <= nu < size ==>
         0 <= Flatten2(mu, nu) < SymSize(size) && p[base + Flatten2(mu, nu)] == t(mu, nu)
  }

  /** Only the n slots from base on differ. */
  ghost predicate SameOutside(p: seq<real>, q: seq<real>, base: int, n: int) {
    |p| == |q| && forall s :: 0 <= s < |p| && !(base <= s < base + n) ==> q[s] == p[s]
  }

  lemma StoredKept(p: seq<real>, q: seq<real>, base: int, size: int, t: Tensor2, other: int, n: int)
    requires size == NDFULL || size == NDSPACE
    requires Stored(p, base, size, t) && SameOutside(p, q, other, n) && Apart(base, SymSize(size), other, n)
    ensures Stored(q, base, size, t)
  {
    hide Flatten2, SymSize;
  }

  lemma ScalarsKept(x: Layout, p: seq<real>, q: seq<real>, base: int, n: int)
    requires SameOutside(p, q, base, n) && 0 <= x.alpha < |p| && 0 <= x.detgam < |p| && 0 <= x.bcon && x.bcon + 3 <= |p|
    requires Apart(x.alpha, 1, base, n) && Apart(x.detgam, 1, base, n) && Apart(x.bcon, 3, base, n)
    ensures |q| == |p| && q[x.alpha] == p[x.alpha] && q[x.detgam] == p[x.detgam]
    ensures q[x.bcon] == p[x.bcon] && q[x.bcon + 1] == p[x.bcon + 1] && q[x.bcon + 2] == p[x.bcon + 2]
  {
  }

  /** The variables of one cell do not overlap and lie in the pack. */
  predicate Fits(x: Layout, td: bool, length: int) {
    var nd := NvarDeriv(td);
    && 0 <= x.alpha < length && 0 <= x.detgam < length
    && 0 <= x.bcon && x.bcon + 3 <= length && 0 <= x.gcov && x.gcov + 10 <= length
    && 0 <= x.gamcon && x.gamcon + 6 <= length
    && 0 <= x.dalpha && x.dalpha + nd <= length && 0 <= x.dg && x.dg + 10 * nd <= length
    && Apart(x.alpha, 1, x.detgam, 1) && Apart(x.alpha, 1, x.bcon, 3) && Apart(x.alpha, 1, x.gcov, 10)
    && Apart(x.alpha, 1, x.gamcon, 6) && Apart(x.alpha, 1, x.dalpha, nd) && Apart(x.alpha, 1, x.dg, 10 * nd)
    && Apart(x.detgam, 1, x.bcon, 3) && Apart(x.detgam, 1, x.gcov, 10) && Apart(x.detgam, 1, x.gamcon, 6)
    && Apart(x.detgam, 1, x.dalpha, nd) && Apart(x.detgam, 1, x.dg, 10 * nd)
    && Apart(x.bcon, 3, x.gcov, 10) && Apart(x.bcon, 3, x.gamcon, 6)
    && Apart(x.bcon, 3, x.dalpha, nd) && Apart(x.bcon, 3, x.dg, 10 * nd)
    && Apart(x.gcov, 10, x.gamcon, 6) && Apart(x.gcov, 10, x.dalpha, nd) && Apart(x.gcov, 10, x.dg, 10 * nd)
    && Apart(x.gamcon, 6, x.dalpha, nd) && Apart(x.gamcon, 6, x.dg, 10 * nd)
    && Apart(x.dalpha, nd, x.dg, 10 * nd)
  }

  /** What the variables without derivatives need of the layout. */
  lemma LayoutFacts(x: Layout, td: bool, length: int)
    requires Fits(x, td, length)
    ensures 0 <= x.alpha < length && 0 <= x.detgam < length && 0 <= x.bcon && x.bcon + 3 <= length
    ensures 0 <= x.gcov && x.gcov + 10 <= length && 0 <= x.gamcon && x.gamcon + 6 <= length
    ensures Apart(x.alpha, 1, x.detgam, 1) && Apart(x.alpha, 1, x.bcon, 3) && Apart(x.alpha, 1, x.gcov, 10)
    ensures Apart(x.alpha, 1, x.gamcon, 6) && Apart(x.detgam, 1, x.bcon, 3) && Apart(x.detgam, 1, x.gcov, 10)
    ensures Apart(x.detgam, 1, x.gamcon, 6) && Apart(x.bcon, 3, x.gcov, 10) && Apart(x.bcon, 3, x.gamcon, 6)
    ensures Apart(x.gcov, 10, x.gamcon, 6)
  {
    hide Apart;
  }

  /** The slot of dg[mu][nu][sigma]. */
  function DgSlot(x: Layout, td: bool, mu: int, nu: int, sigma: int): int
    requires 0 <= mu < NDFULL && 0 <= nu < NDFULL
  {
    x.dg + NvarDeriv(td) * Flatten2(mu, nu) + sigma - Offset(td)
  }

  /** The derivatives of the ten components take no more room than four, or three, slots each. */
  lemma DgSlotRange(x: Layout, td: bool, mu: int, nu: int, sigma: int)
    requires 0 <= mu < NDFULL && 0 <= nu < NDFULL && Offset(td) <= sigma < NDFULL
    ensures x.dg <= DgSlot(x, td, mu, nu, sigma) < x.dg + 10 * NvarDeriv(td) == x.dg + (if td then 40 else 30)
  {
    Flatten2Packs(mu, nu, mu, nu);
  }

  /** Distinct derivatives have distinct slots. */
  lemma DgSlotInjective(x: Layout, td: bool, mu: int, nu: int, sigma: int, p: int, q: int, tau: int)
    requires 0 <= mu < NDFULL && 0 <= nu < NDFULL && Offset(td) <= sigma < NDFULL
    requires 0 <= p < NDFULL && 0 <= q < NDFULL && Offset(td) <= tau < NDFULL
    requires DgSlot(x, td, mu, nu, sigma) == DgSlot(x, td, p, q, tau)
    ensures sigma == tau && ((mu == p && nu == q) || (mu == q && nu == p))
  {
    var f, g := Flatten2(mu, nu), Flatten2(p, q);
    assert f == g && sigma == tau by {
      hide Flatten2;
      if td {
        assert 4 * f + sigma == 4 * g + tau;
      } else {
        assert 3 * f + sigma - 1 == 3 * g + tau - 1;
      }
    }
    Flatten2Packs(mu, nu, p, q);
  }

  // ---------------------------------------------------------------------------------------------
  // One cell of the cache.

  class Cache {
    const x: Layout
    const timeDependent: bool
    const pack: array<real>

    constructor (x: Layout, timeDependent: bool, pack: array<real>)
      ensures this.x == x && this.timeDependent == timeDependent && this.pack == pack
    {
      this.x, this.timeDependent, this.pack := x, timeDependent, pack;
    }

    predicate Valid() { Fits(x, timeDependent, pack.Length) }

    function Lapse(): real
      requires Valid()
      reads pack
    {
      pack[x.alpha]
    }

    function DetGamma(): real
      requires Valid()
      reads pack
    {
      pack[x.detgam]
    }

    function ContravariantShift(d: int): real
      requires Valid() && 0 <= d < NDSPACE
      reads pack
    {
      pack[x.bcon + d]
    }

    function SpacetimeMetric(mu: int, nu: int): real
      requires Valid() && 0 <= mu < NDFULL && 0 <= nu < NDFULL
      reads pack
    {
      Flatten2Packs(mu, nu, mu, nu);
      pack[x.gcov + Flatten2(mu, nu)]
    }

    /** The spatial metric is read from the same slots, one index up. */
    function Metric(m: int, n: int): real
      requires Valid() && 0 <= m < NDSPACE && 0 <= n < NDSPACE
      reads pack
    {
      Flatten2Packs(m + 1, n + 1, m, n);
      pack[x.gcov + Flatten2(m + 1, n + 1)]
    }

    function MetricInverse(m: int, n: int): real
      requires Valid() && 0 <= m < NDSPACE && 0 <= n < NDSPACE
      reads pack
    {
      Flatten2Packs(m, n, m, n);
      pack[x.gamcon + Flatten2(m, n)]
    }

    /** Time derivatives read as zero unless they are stored. */
    function MetricDerivative(mu: int, nu: int, sigma: int): real
      requires Valid() && 0 <= mu < NDFULL && 0 <= nu < NDFULL && 0 <= sigma < NDFULL
      reads pack
    {
      if sigma < Offset(timeDependent) then 0.0
      else
        DgSlotRange(x, timeDependent, mu, nu, sigma);
        pack[DgSlot(x, timeDependent, mu, nu, sigma)]
    }

    function GradLnAlpha(d: int): real
      requires Valid() && 0 <= d < NDFULL
      reads pack
    {
      if d < Offset(timeDependent) then 0.0 else pack[x.dalpha + d - Offset(timeDependent)]
    }

    /** Everything but the derivatives. */
    method Set(alpha: real, detgam: real, beta: Tensor1, gcov: Tensor2, gamcon: Tensor2)
      requires Valid() && Symmetric(gcov, NDFULL) && Symmetric(gamcon, NDSPACE)
      modifies pack
      ensures Lapse() == alpha && DetGamma() == detgam
      ensures forall d :: 0 <= d < NDSPACE ==> ContravariantShift(d) == beta(d)
      ensures forall mu, nu :: 0 <= mu < NDFULL && 0 <= nu < NDFULL ==> SpacetimeMetric(mu, nu) == gcov(mu, nu)
      ensures forall m, n :: 0 <= m < NDSPACE && 0 <= n < NDSPACE ==>
                Metric(m, n) == gcov(m + 1, n + 1) && MetricInverse(m, n) == gamcon(m, n)
    {
      hide Flatten2, Fits, Symmetric, Stored, SameOutside;
      LayoutFacts(x, timeDependent, pack.Length);
      SetScalars(alpha, detgam, beta);
      ghost var p0 := pack[..];
      SetSymmetric(x.gcov, NDFULL, gcov);
      ghost var p1 := pack[..];
      SetSymmetric(x.gamcon, NDSPACE, gamcon);
      StoredKept(p1, pack[..], x.gcov, NDFULL, gcov, x.gamcon, 6);
      ScalarsKept(x, p0, p1, x.gcov, 10);
      ScalarsKept(x, p1, pack[..], x.gamcon, 6);
      ReadMetrics(gcov, gamcon);
    }

    lemma ReadMetrics(gcov: Tensor2, gamcon: Tensor2)
      requires Valid() && Stored(pack[..], x.gcov, NDFULL, gcov) && Stored(pack[..], x.gamcon, NDSPACE, gamcon)
      ensures forall mu, nu :: 0 <= mu < NDFULL && 0 <= nu < NDFULL ==> SpacetimeMetric(mu, nu) == gcov(mu, nu)
      ensures forall m, n :: 0 <= m < NDSPACE && 0 <= n < NDSPACE ==>
                Metric(m, n) == gcov(m + 1, n + 1) && MetricInverse(m, n) == gamcon(m, n)
    {
      hide Flatten2, Fits;
    }

    /** Lapse, determinant and shift. */
    method SetScalars(alpha: real, detgam: real, beta: Tensor1)
      requires Valid()
      modifies pack
      ensures Lapse() == alpha && DetGamma() == detgam
      ensures forall d :: 0 <= d < NDSPACE ==> ContravariantShift(d) == beta(d)
    {
      hide Fits;
      LayoutFacts(x, timeDependent, pack.Length);
      pack[x.alpha] := alpha;
      pack[x.detgam] := detgam;
      for d := 0 to NDSPACE
        invariant pack[x.alpha] == alpha && pack[x.detgam] == detgam
        invariant forall e :: 0 <= e < d ==> pack[x.bcon + e] == beta(e)
      {
        pack[x.bcon + d] := beta(d);
      }
    }

    /** The double loop over the upper triangle. Every entry can then be read in either order, and no
        other slot changes. */
    method SetSymmetric(base: int, size: int, t: Tensor2)
      requires size == NDFULL || size == NDSPACE
      requires 0 <= base && base + SymSize(size) <= pack.Length && Symmetric(t, size)
      modifies pack
      ensures Stored(pack[..], base, size, t) && SameOutside(old(pack[..]), pack[..], base, SymSize(size))
    {
      hide Flatten2, SymSize;
      Slots(size);
      for mu := 0 to size
        invariant forall m, n :: 0 <= m < mu && m <= n < size ==> pack[base + Flatten2(m, n)] == t(m, n)
        invariant forall s :: 0 <= s < pack.Length && !(base <= s < base + SymSize(size)) ==> pack[s] == old(pack[s])
      {
        for nu := mu to size
          invariant forall m, n :: 0 <= m < mu && m <= n < size ==> pack[base + Flatten2(m, n)] == t(m, n)
          invariant forall n :: mu <= n < nu ==> pack[base + Flatten2(mu, n)] == t(mu, n)
          invariant forall s :: 0 <= s < pack.Length && !(base <= s < base + SymSize(size)) ==> pack[s] == old(pack[s])
        {
          OwnSlot(size, mu, nu);
          pack[base + Flatten2(mu, nu)] := t(mu, nu);
        }
      }
    }

    /** All components of the metric derivative in one direction. The other directions, and all other
        variables, keep their slots. */
    method SetDirection(sigma: int, t: Tensor2)
      requires Valid() && Offset(timeDependent) <= sigma < NDFULL && Symmetric(t, NDFULL)
      modifies pack
      ensures forall mu, nu :: 0 <= mu < NDFULL && 0 <= nu < NDFULL ==> MetricDerivative(mu, nu, sigma) == t(mu, nu)
      ensures forall mu, nu, tau :: 0 <= mu < NDFULL && 0 <= nu < NDFULL && 0 <= tau < NDFULL && tau != sigma ==>
                MetricDerivative(mu, nu, tau) == old(MetricDerivative(mu, nu, tau))
      ensures forall s :: 0 <= s < pack.Length && !(x.dg <= s < x.dg + 10 * NvarDeriv(timeDependent)) ==>
                pack[s] == old(pack[s])
    {
      for mu := 0 to NDFULL
        invariant forall m, n :: 0 <= m < mu && m <= n < NDFULL ==> MetricDerivative(m, n, sigma) == t(m, n)
        invariant forall m, n, tau :: 0 <= m < NDFULL && 0 <= n < NDFULL && 0 <= tau < NDFULL && tau != sigma ==>
                    MetricDerivative(m, n, tau) == old(MetricDerivative(m, n, tau))
        invariant forall s :: 0 <= s < pack.Length && !(x.dg <= s < x.dg + 10 * NvarDeriv(timeDependent)) ==>
                    pack[s] == old(pack[s])
      {
        for nu := mu to NDFULL
          invariant forall m, n :: 0 <= m < mu && m <= n < NDFULL ==> MetricDerivative(m, n, sigma) == t(m, n)
          invariant forall n :: mu <= n < nu ==> MetricDerivative(mu, n, sigma) == t(mu, n)
          invariant forall m, n, tau :: 0 <= m < NDFULL && 0 <= n < NDFULL && 0 <= tau < NDFULL && tau != sigma ==>
                      MetricDerivative(m, n, tau) == old(MetricDerivative(m, n, tau))
          invariant forall s :: 0 <= s < pack.Length && !(x.dg <= s < x.dg + 10 * NvarDeriv(timeDependent)) ==>
                      pack[s] == old(pack[s])
        {
          SetDg(mu, nu, sigma, t(mu, nu));
        }
      }
      forall mu, nu | 0 <= mu < NDFULL && 0 <= nu < NDFULL ensures MetricDerivative(mu, nu, sigma) == t(mu, nu) {
        DgSymmetric(mu, nu, sigma);
      }
    }

    lemma DgSymmetric(mu: int, nu: int, sigma: int)
      requires Valid() && 0 <= mu < NDFULL && 0 <= nu < NDFULL && 0 <= sigma < NDFULL
      ensures MetricDerivative(mu, nu, sigma) == MetricDerivative(nu, mu, sigma)
    {
      Flatten2Packs(mu, nu, nu, mu);
    }

    /** One slot. */
    method SetDg(mu: int, nu: int, sigma: int, value: real)
      requires Valid() && 0 <= mu < NDFULL && 0 <= nu < NDFULL && Offset(timeDependent) <= sigma < NDFULL
      modifies pack
      ensures forall m, n, tau :: 0 <= m < NDFULL && 0 <= n < NDFULL && 0 <= tau < NDFULL ==>
                MetricDerivative(m, n, tau)
                == if tau == sigma && ((m == mu && n == nu) || (m == nu && n == mu)) then value
                   else old(MetricDerivative(m, n, tau))
      ensures forall s :: 0 <= s < pack.Length && !(x.dg <= s < x.dg + 10 * NvarDeriv(timeDependent)) ==>
                pack[s] == old(pack[s])
    {
      DgSlotRange(x, timeDependent, mu, nu, sigma);
      var slot := DgSlot(x, timeDependent, mu, nu, sigma);
      pack[slot] := value;
      hide DgSlot;
      forall m, n, tau | 0 <= m < NDFULL && 0 <= n < NDFULL && 0 <= tau < NDFULL
        ensures MetricDerivative(m, n, tau)
                == if tau == sigma && ((m == mu && n == nu) || (m == nu && n == mu)) then value
                   else old(MetricDerivative(m, n, tau))
      {
        if tau >= Offset(timeDependent) {
          DgSlotRange(x, timeDependent, m, n, tau);
          if DgSlot(x, timeDependent, m, n, tau) == slot {
            DgSlotInjective(x, timeDependent, m, n, tau, mu, nu, sigma);
          } else if m == nu && n == mu && tau == sigma {
            DgSlotSwap(x, timeDependent, m, n, tau);
          }
        }
      }
    }

    /** The analytic derivatives: those in the stored directions. */
    method SetDerivs(da: Tensor1, dg: Tensor3)
      requires Valid() && SymmetricPair(dg)
      modifies pack
      ensures forall d :: 0 <= d < NDFULL ==> GradLnAlpha(d) == if d < Offset(timeDependent) then 0.0 else da(d)
      ensures forall mu, nu, sigma :: 0 <= mu < NDFULL && 0 <= nu < NDFULL && 0 <= sigma < NDFULL ==>
                MetricDerivative(mu, nu, sigma) == if sigma < Offset(timeDependent) then 0.0 else dg(mu, nu, sigma)
      ensures UnchangedBut(old(pack[..]), pack[..])
    {
      var offset := Offset(timeDependent);
      for d := offset to NDFULL
        invariant forall e :: offset <= e < d ==> GradLnAlpha(e) == da(e)
        invariant UnchangedBut(old(pack[..]), pack[..])
      {
        pack[x.dalpha + d - offset] := da(d);
      }
      for sigma := offset to NDFULL
        invariant forall d :: 0 <= d < NDFULL ==> GradLnAlpha(d) == if d < offset then 0.0 else da(d)
        invariant forall mu, nu, tau :: 0 <= mu < NDFULL && 0 <= nu < NDFULL && offset <= tau < sigma ==>
                    MetricDerivative(mu, nu, tau) == dg(mu, nu, tau)
        invariant UnchangedBut(old(pack[..]), pack[..])
      {
        SetDirection(sigma, (mu, nu) => dg(mu, nu, sigma));
      }
    }

    /** Only derivative slots differ. */
    ghost predicate UnchangedBut(before: seq<real>, after: seq<real>)
      requires |before| == |after| == pack.Length
    {
      var nd := NvarDeriv(timeDependent);
      forall s :: 0 <= s < |before| && !(x.dg <= s < x.dg + 10 * nd) && !(x.dalpha <= s < x.dalpha + nd) ==>
        after[s] == before[s]
    }

    /** The finite-difference pass, from face values of the lapse and the metric: it overwrites exactly
        the spatial derivatives and leaves stored time derivatives and everything else as they were. */
    method SetDerivsFd(alpha: real, alphaP: Tensor1, alphaM: Tensor1, gP: Tensor3, gM: Tensor3, dx: Tensor1)
      requires Valid() && forall d :: 0 <= d < NDSPACE ==> Symmetric(Face(gP, d), NDFULL) && Symmetric(Face(gM, d), NDFULL)
      modifies pack
      ensures forall d :: 0 <= d < NDSPACE ==> GradLnAlpha(d + 1) == Ratio(alphaP(d) - alphaM(d), Prod(alpha, dx(d)))
      ensures forall mu, nu, d :: 0 <= mu < NDFULL && 0 <= nu < NDFULL && 0 <= d < NDSPACE ==>
                MetricDerivative(mu, nu, d + 1) == Ratio(gP(d, mu, nu) - gM(d, mu, nu), dx(d))
      ensures GradLnAlpha(0) == old(GradLnAlpha(0))
      ensures forall mu, nu :: 0 <= mu < NDFULL && 0 <= nu < NDFULL ==>
                MetricDerivative(mu, nu, 0) == old(MetricDerivative(mu, nu, 0))
      ensures UnchangedBut(old(pack[..]), pack[..])
    {
      hide Ratio, Prod, Cache.MetricDerivative, Cache.GradLnAlpha, Cache.UnchangedBut, Offset, Fits;
      ghost var start := pack[..];
      Unchanged(start);
      for d := 0 to NDSPACE
        invariant forall e :: 0 <= e < d ==> GradLnAlpha(e + 1) == Ratio(alphaP(e) - alphaM(e), Prod(alpha, dx(e)))
        invariant forall mu, nu, e :: 0 <= mu < NDFULL && 0 <= nu < NDFULL && 0 <= e < d ==>
                    MetricDerivative(mu, nu, e + 1) == Ratio(gP(e, mu, nu) - gM(e, mu, nu), dx(e))
        invariant GradLnAlpha(0) == old(GradLnAlpha(0))
        invariant forall mu, nu :: 0 <= mu < NDFULL && 0 <= nu < NDFULL ==>
                    MetricDerivative(mu, nu, 0) == old(MetricDerivative(mu, nu, 0))
        invariant UnchangedBut(start, pack[..])
      {
        var da := Ratio(alphaP(d) - alphaM(d), Prod(alpha, dx(d)));
        var t: Tensor2 := (mu, nu) => Ratio(gP(d, mu, nu) - gM(d, mu, nu), dx(d));
        forall a, b | 0 <= a < NDFULL && 0 <= b < NDFULL ensures t(a, b) == t(b, a) {
          assert Face(gP, d)(a, b) == Face(gP, d)(b, a) && Face(gM, d)(a, b) == Face(gM, d)(b, a);
        }
        ghost var before := pack[..];
        SetFdDirection(d, da, t);
        UnchangedTwice(start, before, pack[..]);
      }
    }

    lemma Unchanged(before: seq<real>)
      requires |before| == pack.Length
      ensures UnchangedBut(before, before)
    {
    }

    lemma UnchangedTwice(a: seq<real>, b: seq<real>, c: seq<real>)
      requires |a| == |b| == |c| == pack.Length && UnchangedBut(a, b) && UnchangedBut(b, c)
      ensures UnchangedBut(a, c)
    {
    }

    /** Direction d of the finite differences: lapse and metric slots of the spatial derivative d. */
    method SetFdDirection(d: int, da: real, t: Tensor2)
      requires Valid() && 0 <= d < NDSPACE && Symmetric(t, NDFULL)
      modifies pack
      ensures forall e :: 0 <= e < NDFULL ==> GradLnAlpha(e) == if e == d + 1 then da else old(GradLnAlpha(e))
      ensures forall mu, nu, tau :: 0 <= mu < NDFULL && 0 <= nu < NDFULL && 0 <= tau < NDFULL ==>
                MetricDerivative(mu, nu, tau) == if tau == d + 1 then t(mu, nu) else old(MetricDerivative(mu, nu, tau))
      ensures UnchangedBut(old(pack[..]), pack[..])
    {
      hide DgSlot, Flatten2;
      pack[x.dalpha + d + (if timeDependent then 1 else 0)] := da;
      DgSlotsInRange();
      assert forall mu, nu, tau :: 0 <= mu < NDFULL && 0 <= nu < NDFULL && 0 <= tau < NDFULL ==>
          MetricDerivative(mu, nu, tau) == old(MetricDerivative(mu, nu, tau));
      SetDirection(d + 1, t);
    }

    lemma DgSlotsInRange()
      ensures forall mu, nu, tau :: 0 <= mu < NDFULL && 0 <= nu < NDFULL && Offset(timeDependent) <= tau < NDFULL ==>
                x.dg <= DgSlot(x, timeDependent, mu, nu, tau) < x.dg + 10 * NvarDeriv(timeDependent)
    {
      forall mu, nu, tau | 0 <= mu < NDFULL && 0 <= nu < NDFULL && Offset(timeDependent) <= tau < NDFULL
        ensures x.dg <= DgSlot(x, timeDependent, mu, nu, tau) < x.dg + 10 * NvarDeriv(timeDependent)
      {
        DgSlotRange(x, timeDependent, mu, nu, tau);
      }
    }
  }

  function Face(g: Tensor3, d: int): Tensor2 { (mu, nu) => g(d, mu, nu) }

  lemma DgSlotSwap(x: Layout, td: bool, mu: int, nu: int, sigma: int)
    requires 0 <= mu < NDFULL && 0 <= nu < NDFULL
    ensures DgSlot(x, td, mu, nu, sigma) == DgSlot(x, td, nu, mu, sigma)
  {
    Flatten2Packs(mu, nu, mu, nu);
  }

  // ---------------------------------------------------------------------------------------------
  // Connection coefficients from the cached derivatives.

  /** SetConnectionCoeffFromMetricDerivs: lowered first index. */
  function Connection(dg: Tensor3, a: int, b: int, c: int): real {
    0.5 * (dg(b, a, c) + dg(c, a, b) - dg(b, c, a))
  }

  /** The coefficients are torsion free and reproduce the metric derivative. */
  lemma ConnectionCompatible(dg: Tensor3, a: int, b: int, c: int)
    requires SymmetricPair(dg) && 0 <= a < NDFULL && 0 <= b < NDFULL && 0 <= c < NDFULL
    ensures Connection(dg, a, b, c) == Connection(dg, a, c, b)
    ensures Connection(dg, a, b, c) + Connection(dg, b, a, c) == dg(a, b, c)
  {
  }

  /** Nothing else does both: any torsion-free, metric-compatible coefficients are these. */
  lemma ConnectionUnique(dg: Tensor3, G: Tensor3, a: int, b: int, c: int)
    requires SymmetricPair(dg) && 0 <= a < NDFULL && 0 <= b < NDFULL && 0 <= c < NDFULL
    requires forall p, q, r :: 0 <= p < NDFULL && 0 <= q < NDFULL && 0 <= r < NDFULL ==> G(p, q, r) == G(p, r, q)
    requires forall p, q, r :: 0 <= p < NDFULL && 0 <= q < NDFULL && 0 <= r < NDFULL ==>
               G(p, q, r) + G(q, p, r) == dg(p, q, r)
    ensures G(a, b, c) == Connection(dg, a, b, c)
  {
    assert dg(b, a, c) == G(b, a, c) + G(a, b, c);
    assert dg(c, a, b) == G(c, a, b) + G(a, c, b);
    assert dg(b, c, a) == G(b, c, a) + G(c, b, a);
  }
}
