/** The bracketing root finders of root_find.hpp. A function is any partial map that is
    defined on the bracket; nothing about continuity is used. */
module RootFind {
  import opened Reals

  /** Root(x): the value returned. Unbracketed: the source aborts or reports failure.
      NotANumber: both ends of the bracket are roots, so the first interpolation is 0/0. */
  datatype Outcome = Root(x: real) | Unbracketed | NotANumber

  /** f takes both signs (or a zero) at the ends of [lo, hi]. */
  ghost predicate SignChange(f: real --> real, lo: real, hi: real)
    requires f.requires(lo) && f.requires(hi)
  {
    (f(lo) <= 0.0 <= f(hi)) || (f(hi) <= 0.0 <= f(lo))
  }

  /** The source's test for an unbracketed root: ya * yb > 0. */
  predicate SameSign(ya: real, yb: real)
    ensures SameSign(ya, yb) <==> (ya > 0.0 && yb > 0.0) || (ya < 0.0 && yb < 0.0)
  {
    SignOfProduct(ya, yb);
    ya * yb > 0.0
  }

  /** The final bracket that a returned value is the midpoint of. */
  ghost predicate Encloses(f: real --> real, a: real, b: real, lo: real, hi: real, x: real) {
    && a <= lo <= hi <= b && x == 0.5 * (lo + hi)
    && f.requires(lo) && f.requires(hi) && SignChange(f, lo, hi)
  }

  function Pow2(n: nat): (r: real)
    ensures r >= 1.0
  {
    if n == 0 then 1.0 else 2.0 * Pow2(n - 1)
  }

  lemma {:induction false} Pow2Exceeds(n: nat)
    ensures Pow2(n) >= n as real + 1.0
  {
    if n > 0 {
      Pow2Exceeds(n - 1);
    }
  }

  /** ceil(log2(x)) for x > 1: the least n with x <= 2^n. */
  function CeilLog2(x: real): (n: nat)
    requires x > 1.0
    ensures n > 0 && Pow2(n - 1) < x <= Pow2(n)
    decreases x.Floor
  {
    if x <= 2.0 then 1 else
      assert (x / 2.0).Floor < x.Floor by {
        var k := x.Floor;
        assert x < k as real + 1.0;
        assert x / 2.0 < k as real;
      }
      1 + CeilLog2(x / 2.0)
  }

  /** The bracket after refine_bracket has tried the guess. */
  datatype Bracket = Bracket(a: real, b: real, ya: real, yb: real)

  function Refine(f: real --> real, guess: real, a: real, b: real): (r: Bracket)
    requires a <= b && forall x :: a <= x <= b ==> f.requires(x)
    ensures a <= r.a <= r.b <= b && r.ya == f(r.a) && r.yb == f(r.b)
    ensures SameSign(r.ya, r.yb) <==>
            SameSign(f(a), f(b)) && (a <= guess <= b ==> SameSign(f(guess), f(b)))
  {
    if a <= guess && b >= guess then
      if SameSign(f(guess), f(b)) then
        Bracket(a, guess, f(a), f(guess))
      else
        Bracket(guess, b, f(guess), f(b))
    else
      Bracket(a, b, f(a), f(b))
  }

  lemma RefineOutside(f: real --> real, guess: real, a: real, b: real)
    requires a <= b && (forall x :: a <= x <= b ==> f.requires(x))
    requires guess < a || b < guess
    ensures Refine(f, guess, a, b) == Bracket(a, b, f(a), f(b))
  {
  }

  lemma SignOfProduct(p: real, q: real)
    ensures p * q > 0.0 <==> (p > 0.0 && q > 0.0) || (p < 0.0 && q < 0.0)
    ensures p * q == 0.0 <==> p == 0.0 || q == 0.0
  {
    if p > 0.0 && q > 0.0 { MulPos(p, q); }
    else if p < 0.0 && q < 0.0 { MulPos(-p, -q); }
    else if p > 0.0 && q < 0.0 { MulPos(p, -q); }
    else if p < 0.0 && q > 0.0 { MulPos(-p, q); }
  }

  /** The false-position point lies in the bracket; it can only fall on an end that is a root. */
  function FalsePosition(a: real, b: real, ya: real, yb: real): (c: real)
    requires a < b && ya != yb && (ya <= 0.0 <= yb || ya == 0.0)
    ensures a <= c <= b
    ensures c == a <==> ya == 0.0
    ensures c == b <==> yb == 0.0
  {
    FalsePositionInside(a, b, ya, yb);
    (a * yb - b * ya) / (yb - ya)
  }

  lemma FalsePositionInside(a: real, b: real, ya: real, yb: real)
    requires a < b && ya != yb && (ya <= 0.0 <= yb || ya == 0.0)
    ensures var c := (a * yb - b * ya) / (yb - ya);
            a <= c <= b && (c == a <==> ya == 0.0) && (c == b <==> yb == 0.0)
  {
    var d := yb - ya;
    var c := (a * yb - b * ya) / d;
    assert c * d == a * yb - b * ya;
    assert (c - a) * d == (b - a) * (-ya);
    assert (b - c) * d == (b - a) * yb;
    SignOfProduct(c - a, d);
    SignOfProduct(b - c, d);
    SignOfProduct(b - a, -ya);
    SignOfProduct(b - a, yb);
  }

  /** It is where the chord through both ends vanishes. */
  lemma ChordZero(a: real, b: real, ya: real, yb: real)
    requires a < b && ya != yb && (ya <= 0.0 <= yb || ya == 0.0)
    ensures var c := FalsePosition(a, b, ya, yb); Prod(ya, b - c) + Prod(yb, c - a) == 0.0
  {
    var d, c := yb - ya, FalsePosition(a, b, ya, yb);
    DivMul(a * yb - b * ya, d);
    assert c * d == a * yb - b * ya;
  }

  /** sign * y, where sign orients the function so that it is negative at the left end. */
  function Orient(sign: real, y: real): (r: real)
    requires sign == 1.0 || sign == -1.0
    ensures r == if sign == 1.0 then y else -y
  {
    sign * y
  }

  /** A stored end value y has the sign of s * f(end), even after it was halved. */
  ghost predicate Tracks(s: real, fx: real, y: real)
    requires s == 1.0 || s == -1.0
  {
    && (y < 0.0 <==> Orient(s, fx) < 0.0)
    && (y > 0.0 <==> Orient(s, fx) > 0.0)
  }

  // ---------------------------------------------------------------------------------------------
  // Illinois false position.

  /** The loop's variables: an oriented bracket, and how often in a row the high and the low end moved. */
  datatype Illinois = Illinois(a: real, b: real, ya: real, yb: real, b1: nat, b2: nat)

  /** Another pass is possible whenever one is due. */
  ghost predicate FalsiState(f: real --> real, t: Illinois, tol: real, limit: nat) {
    && tol >= 0.0 && t.a <= t.b && (forall x :: t.a <= x <= t.b ==> f.requires(x))
    && (t.b - t.a > 2.0 * tol && limit > 0 ==> t.ya != t.yb && (t.ya <= 0.0 <= t.yb || t.ya == 0.0))
  }

  /** One pass: an end that is a root ends the search; otherwise the trial point replaces the end of its
      sign, and an end that stays a second time in a row has its stored value halved. */
  function FalsiStep(f: real --> real, sign: real, t: Illinois, tol: real, limit: nat): (u: Illinois)
    requires FalsiState(f, t, tol, limit) && t.b - t.a > 2.0 * tol && limit > 0
    requires sign == 1.0 || sign == -1.0
    ensures FalsiState(f, u, tol, limit - 1) && t.a <= u.a <= u.b <= t.b
  {
    var c := FalsePosition(t.a, t.b, t.ya, t.yb);
    if c == t.a then t.(b := t.a)
    else if c == t.b then t.(a := t.b)
    else
      var yc := Orient(sign, f(c));
      if yc > 0.0 then t.(b := c, yb := yc, b1 := t.b1 + 1, ya := Halved(t.ya, t.b1 > 0), b2 := 0)
      else if yc < 0.0 then t.(a := c, ya := yc, b2 := t.b2 + 1, yb := Halved(t.yb, t.b2 > 0), b1 := 0)
      else t.(a := c, b := c)
  }

  /** What a pass stores, with y the oriented value at the zero c of the chord: c replaces the end of its
      sign, with y as its value; the other end keeps its value if it is the first pass it stays, and half of
      it from the second pass in a row on; a root at c, or a root at an end, closes the bracket. */
  lemma FalsiStores(f: real --> real, sign: real, t: Illinois, tol: real, limit: nat)
    requires FalsiState(f, t, tol, limit) && t.b - t.a > 2.0 * tol && limit > 0
    requires sign == 1.0 || sign == -1.0
    ensures t.a <= FalsePosition(t.a, t.b, t.ya, t.yb) <= t.b
    ensures var c, u := FalsePosition(t.a, t.b, t.ya, t.yb), FalsiStep(f, sign, t, tol, limit);
            var y := sign * f(c);
            if t.ya == 0.0 then u.a == u.b == t.a
            else if t.yb == 0.0 then u.a == u.b == t.b
            else if y > 0.0 then
              && u.a == t.a && u.b == c && u.yb == y && u.b1 == t.b1 + 1 && u.b2 == 0
              && (if t.b1 > 0 then 2.0 * u.ya == t.ya else u.ya == t.ya)
            else if y < 0.0 then
              && u.a == c && u.b == t.b && u.ya == y && u.b2 == t.b2 + 1 && u.b1 == 0
              && (if t.b2 > 0 then 2.0 * u.yb == t.yb else u.yb == t.yb)
            else u.a == u.b == c
  {
    hide FalsePosition;
  }

  function Halved(y: real, stale: bool): (r: real)
    ensures (r < 0.0 <==> y < 0.0) && (r > 0.0 <==> y > 0.0)
  {
    y * (if stale then 0.5 else 1.0)
  }

  /** The state the loop stops in. */
  function FalsiRun(f: real --> real, sign: real, t: Illinois, tol: real, limit: nat): (u: Illinois)
    requires FalsiState(f, t, tol, limit) && (sign == 1.0 || sign == -1.0)
    ensures t.a <= u.a <= u.b <= t.b
    decreases limit
  {
    if t.b - t.a > 2.0 * tol && limit > 0 then FalsiRun(f, sign, FalsiStep(f, sign, t, tol, limit), tol, limit - 1)
    else t
  }

  /** How many passes that takes. */
  function FalsiPasses(f: real --> real, sign: real, t: Illinois, tol: real, limit: nat): (n: nat)
    requires FalsiState(f, t, tol, limit) && (sign == 1.0 || sign == -1.0)
    ensures n <= limit
    ensures n < limit ==> var u := FalsiRun(f, sign, t, tol, limit); u.b - u.a <= 2.0 * tol
    decreases limit
  {
    if t.b - t.a > 2.0 * tol && limit > 0 then
      1 + FalsiPasses(f, sign, FalsiStep(f, sign, t, tol, limit), tol, limit - 1)
    else 0
  }

  /** What the loop starts from. */
  function SignOf(ya: real): real { if ya < 0.0 then 1.0 else -1.0 }

  function FalsiStart(g: Bracket): Illinois {
    Illinois(g.a, g.b, Orient(SignOf(g.ya), g.ya), Orient(SignOf(g.ya), g.yb), 0, 0)
  }

  /** Both ends are roots and a pass is due: the first interpolation is 0/0. */
  predicate ZeroOverZero(g: Bracket, tol: real, limit: nat) {
    g.ya == 0.0 && g.yb == 0.0 && g.b - g.a > 2.0 * tol && limit > 0
  }

  /** regula_falsi as a function, with at most `limit` passes. */
  function FalsiResult(f: real --> real, a: real, b: real, tol: real, limit: nat, guess: real): Outcome
    requires a <= b && tol >= 0.0 && forall x :: a <= x <= b ==> f.requires(x)
  {
    var g := Refine(f, guess, a, b);
    if SameSign(g.ya, g.yb) then Unbracketed
    else if ZeroOverZero(g, tol, limit) then NotANumber
    else
      var u := FalsiEnd(f, g, tol, limit);
      Root(0.5 * (u.a + u.b))
  }

  /** A bracket the loop can run on. */
  ghost predicate Bracketed(f: real --> real, g: Bracket, tol: real, limit: nat) {
    && g.a <= g.b && tol >= 0.0 && (forall x :: g.a <= x <= g.b ==> f.requires(x))
    && g.ya == f(g.a) && g.yb == f(g.b) && !SameSign(g.ya, g.yb) && !ZeroOverZero(g, tol, limit)
  }

  /** The bracket it ends with, and the passes it makes. */
  function FalsiEnd(f: real --> real, g: Bracket, tol: real, limit: nat): (u: Illinois)
    requires Bracketed(f, g, tol, limit)
    ensures g.a <= u.a <= u.b <= g.b
  {
    FalsiStarts(f, g, tol, limit);
    FalsiRun(f, SignOf(g.ya), FalsiStart(g), tol, limit)
  }

  function PassesMade(f: real --> real, g: Bracket, tol: real, limit: nat): (n: nat)
    requires Bracketed(f, g, tol, limit)
    ensures n <= limit
  {
    FalsiStarts(f, g, tol, limit);
    FalsiPasses(f, SignOf(g.ya), FalsiStart(g), tol, limit)
  }

  /** The search ends at [lo, hi], which still holds a sign change, after as many passes as it takes to
      bring the bracket down to twice the tolerance, or after all it may make. */
  lemma FalsiSearch(f: real --> real, g: Bracket, tol: real, limit: nat)
    requires Bracketed(f, g, tol, limit)
    ensures var u := FalsiEnd(f, g, tol, limit);
            && f.requires(u.a) && f.requires(u.b) && SignChange(f, u.a, u.b)
            && (u.b - u.a <= 2.0 * tol || PassesMade(f, g, tol, limit) == limit)
  {
    hide FalsiRun, FalsiPasses, FalsiHolds;
    FalsiStarts(f, g, tol, limit);
    FalsiRunHolds(f, SignOf(g.ya), FalsiStart(g), tol, limit);
    HoldsIs(f, SignOf(g.ya), FalsiEnd(f, g, tol, limit));
  }

  /** The bracket holds a sign change and the stored values have the signs of the function there. */
  ghost predicate FalsiHolds(f: real --> real, sign: real, t: Illinois)
    requires sign == 1.0 || sign == -1.0
    requires f.requires(t.a) && f.requires(t.b)
  {
    SignChange(f, t.a, t.b) && (t.a < t.b ==> Tracks(sign, f(t.a), t.ya) && Tracks(sign, f(t.b), t.yb))
  }

  /** Halving a stale end value keeps its sign, so a pass never loses the sign change of f itself. */
  lemma FalsiStepHolds(f: real --> real, sign: real, t: Illinois, tol: real, limit: nat)
    requires FalsiState(f, t, tol, limit) && t.b - t.a > 2.0 * tol && limit > 0
    requires (sign == 1.0 || sign == -1.0) && FalsiHolds(f, sign, t)
    ensures FalsiHolds(f, sign, FalsiStep(f, sign, t, tol, limit))
  {
    hide FalsePosition, Halved;
  }

  // ---------------------------------------------------------------------------------------------
  // Interpolate, truncate, project.

  /** The trial point of one ITP step: the false-position point, truncated towards the centre
      and projected onto the interval of half-width r about the centre. Equal nonzero values put the
      false-position point at infinity, and the projection brings it back. */
  function ItpTrial(a: real, b: real, ya: real, yb: real, r: real): (x: real)
    requires a < b && r >= 0.0
    ensures ya <= 0.0 <= yb ==> a <= x <= b
    ensures Abs(x - 0.5 * (a + b)) <= r
  {
    if ya == yb then
      var xh := 0.5 * (a + b);
      // 0/0: every comparison with the undefined point fails and the centre is kept
      if ya == 0.0 then xh else if ya < 0.0 then xh + r else xh - r
    else
      Projected(a, b, ChordRoot(a, b, ya, yb), r)
  }

  /** Where the chord through both ends meets zero. */
  function ChordRoot(a: real, b: real, ya: real, yb: real): (xf: real)
    requires a < b && ya != yb
    ensures ya <= 0.0 <= yb ==> a <= xf <= b
  {
    assert ya <= 0.0 <= yb ==> a <= (yb * a - ya * b) / (yb - ya) <= b by {
      if ya <= 0.0 <= yb { FalsePositionInside(a, b, ya, yb); }
    }
    (yb * a - ya * b) / (yb - ya)
  }

  lemma ChordRootZero(a: real, b: real, ya: real, yb: real)
    requires a < b && ya != yb
    ensures var c := ChordRoot(a, b, ya, yb); Prod(ya, b - c) + Prod(yb, c - a) == 0.0
  {
    var d, c := yb - ya, ChordRoot(a, b, ya, yb);
    DivMul(yb * a - ya * b, d);
    assert c * d == yb * a - ya * b;
  }

  /** The truncation moves the zero xf of the chord towards the centre by a tenth of the squared width, to the
      centre at most; the projection then takes the nearest point within r of the centre. */
  lemma ProjectedIs(a: real, b: real, xf: real, r: real, width2: real)
    requires a < b && r >= 0.0 && width2 == (b - a) * (b - a)
    ensures var m, x := 0.5 * (a + b), Projected(a, b, xf, r);
            if xf < m then x == Max(m - r, Min(m, xf + 0.1 * width2)) else x == Min(m + r, Max(m, xf - 0.1 * width2))
  {
    MulNonneg(b - a, b - a);
  }

  /** xf, moved towards the centre and into reach. */
  function Projected(a: real, b: real, xf: real, r: real): (x: real)
    requires a < b && r >= 0.0
    ensures a <= xf <= b ==> a <= x <= b
    ensures Abs(x - 0.5 * (a + b)) <= r
  {
    var xh := 0.5 * (a + b);
    var xhxf := xh - xf;
    MulNonneg(b - a, b - a);
    var delta := Min(0.1 * ((b - a) * (b - a)), Abs(xhxf));
    var sigma := if xhxf > 0.0 then 1.0 else -1.0;
    var xt := if delta <= sigma * xhxf then xf + sigma * delta else xh;
    if Abs(xt - xh) > r then xh - sigma * r else xt
  }

  function Shrink(t: Bracket, x: real, y: real): (u: Bracket)
  {
    if y > 0.0 then t.(b := x, yb := y)
    else if y < 0.0 then t.(a := x, ya := y)
    else t.(a := x, b := x)
  }

  /** tol * 2^j: the half-width ITP allows itself when j steps are left. */
  function Budget(tol: real, j: nat): (r: real) {
    if j == 0 then tol else 2.0 * Budget(tol, j - 1)
  }

  lemma {:induction false} BudgetIs(tol: real, j: nat)
    ensures Budget(tol, j) == tol * Pow2(j)
  {
    if j > 0 {
      BudgetIs(tol, j - 1);
    }
  }

  /** The stored end values straddle zero, so the next trial point stays in the bracket. */
  ghost predicate Straddles(f: real --> real, t: Bracket) {
    && t.a <= t.b && (forall x :: t.a <= x <= t.b ==> f.requires(x))
    && (t.a < t.b ==> t.ya <= 0.0 <= t.yb)
  }

  /** The state the ITP loop keeps: a bracket inside the budget of the steps left. When the end values do
      not straddle zero a trial point may fall anywhere within the budget. */
  ghost predicate ItpState(f: real --> real, t: Bracket, tol: real, left: nat) {
    && tol > 0.0 && 0.5 * (t.b - t.a) <= Budget(tol, left)
    && (Straddles(f, t) || forall x :: f.requires(x))
  }

  /** The trial point of a step. */
  function TrialOf(t: Bracket, tol: real, left: nat): (x: real)
    requires t.a < t.b && 0.5 * (t.b - t.a) <= Budget(tol, left)
    ensures t.ya <= 0.0 <= t.yb ==> t.a <= x <= t.b
    ensures t.b - Budget(tol, left) <= x <= t.a + Budget(tol, left)
  {
    ItpTrial(t.a, t.b, t.ya, t.yb, Budget(tol, left) - 0.5 * (t.b - t.a))
  }

  /** One ITP step: it keeps the state with one step fewer to go. */
  function ItpStep(f: real --> real, sign: real, t: Bracket, tol: real, left: nat): (u: Bracket)
    requires ItpState(f, t, tol, left) && left > 0 && t.a < t.b
    requires sign == 1.0 || sign == -1.0
    ensures ItpState(f, u, tol, left - 1)
    ensures Straddles(f, t) ==> Straddles(f, u) && t.a <= u.a <= u.b <= t.b
  {
    var x := TrialOf(t, tol, left);
    Shrink(t, x, Orient(sign, f(x)))
  }

  /** What a step stores, with y the oriented value at its trial point x: x replaces the end of its sign, with y
      as its value, and a root closes the bracket. */
  lemma ItpStores(f: real --> real, sign: real, t: Bracket, tol: real, left: nat)
    requires ItpState(f, t, tol, left) && left > 0 && t.a < t.b && (sign == 1.0 || sign == -1.0)
    requires f.requires(TrialOf(t, tol, left))
    ensures var x, u := TrialOf(t, tol, left), ItpStep(f, sign, t, tol, left);
            var y := sign * f(x);
            if y > 0.0 then u == Bracket(t.a, x, t.ya, y)
            else if y < 0.0 then u == Bracket(x, t.b, y, t.yb)
            else u.a == u.b == x
  {
    hide TrialOf, Budget;
  }

  /** Between equal end values there is no chord to follow: the centre is tried when both are zero, otherwise the
      farthest point in reach, to the right when both are negative. */
  lemma FlatTrial(a: real, b: real, y: real, r: real)
    requires a < b && r >= 0.0
    ensures var m, x := 0.5 * (a + b), ItpTrial(a, b, y, y, r);
            if y == 0.0 then x == m else if y < 0.0 then x == m + r else x == m - r
  {
  }

  /** The stored end values have the signs of the oriented function at the ends. */
  ghost predicate Oriented(f: real --> real, sign: real, t: Bracket)
    requires sign == 1.0 || sign == -1.0
    requires f.requires(t.a) && f.requires(t.b)
  {
    SignChange(f, t.a, t.b) && (t.a < t.b ==> Tracks(sign, f(t.a), t.ya) && Tracks(sign, f(t.b), t.yb))
  }

  lemma ItpStepKeeps(f: real --> real, sign: real, t: Bracket, tol: real, left: nat)
    requires ItpState(f, t, tol, left) && left > 0 && t.a < t.b
    requires (sign == 1.0 || sign == -1.0) && Straddles(f, t) && Oriented(f, sign, t)
    ensures Oriented(f, sign, ItpStep(f, sign, t, tol, left))
  {
    hide TrialOf, Budget;
  }

  /** The bracket the ITP loop ends with when `left` steps are left in the budget and `limit` passes
      are allowed. */
  function ItpRun(f: real --> real, sign: real, t: Bracket, tol: real, left: nat, limit: nat): (u: Bracket)
    requires ItpState(f, t, tol, left) && (sign == 1.0 || sign == -1.0)
    ensures Straddles(f, t) ==> Straddles(f, u) && t.a <= u.a <= u.b <= t.b
    ensures left <= limit ==> u.b - u.a <= 2.0 * tol
    decreases left
  {
    if t.b - t.a > 2.0 * tol && limit > 0 then
      ItpRun(f, sign, ItpStep(f, sign, t, tol, left), tol, left - 1, limit - 1)
    else t
  }

  lemma ItpRunUnfold(f: real --> real, sign: real, t: Bracket, tol: real, left: nat, limit: nat)
    requires ItpState(f, t, tol, left) && (sign == 1.0 || sign == -1.0)
    ensures t.b - t.a <= 2.0 * tol || limit == 0 ==> ItpRun(f, sign, t, tol, left, limit) == t
    ensures t.b - t.a > 2.0 * tol ==> left > 0 && t.a < t.b
    ensures t.b - t.a > 2.0 * tol && limit > 0 ==>
              ItpRun(f, sign, t, tol, left, limit)
              == ItpRun(f, sign, ItpStep(f, sign, t, tol, left), tol, left - 1, limit - 1)
  {
    hide TrialOf, ItpStep;
  }

  /** The whole loop keeps a sign change it starts with, as long as the end values straddle zero. */
  lemma {:induction false} ItpRunKeeps(f: real --> real, sign: real, t: Bracket, tol: real, left: nat, limit: nat)
    requires ItpState(f, t, tol, left) && (sign == 1.0 || sign == -1.0)
    requires Straddles(f, t) && Oriented(f, sign, t)
    ensures Oriented(f, sign, ItpRun(f, sign, t, tol, left, limit))
    decreases left
  {
    hide ItpStep, ItpRun, Oriented, Budget, TrialOf;
    ItpRunUnfold(f, sign, t, tol, left, limit);
    if t.b - t.a > 2.0 * tol && limit > 0 {
      ItpStepKeeps(f, sign, t, tol, left);
      ItpRunKeeps(f, sign, ItpStep(f, sign, t, tol, left), tol, left - 1, limit - 1);
    }
  }

  /** The bracket and orientation the ITP loop starts from. */
  function ItpStart(g: Bracket): Bracket { g.(ya := Orient(SignOf(g.ya), g.ya), yb := Orient(SignOf(g.ya), g.yb)) }

  /** The left end is a root and the function is positive on the right: the one start on which the
      orientation test (ya < 0 ? 1 : -1) takes the wrong sign. */
  predicate LeftRoot(g: Bracket) { g.ya == 0.0 < g.yb }

  /** What f must be defined on for a search of [a, b]. */
  ghost predicate Searches(f: real --> real, a: real, b: real, tol: real, guess: real) {
    && a <= b && tol > 0.0 && (forall x :: a <= x <= b ==> f.requires(x))
    && (LeftRoot(Refine(f, guess, a, b)) ==> forall x :: f.requires(x))
  }

  /** itp as a function, with at most `limit` passes. */
  function ItpResult(f: real --> real, a: real, b: real, tol: real, limit: nat, guess: real): Outcome
    requires Searches(f, a, b, tol, guess)
  {
    var g := Refine(f, guess, a, b);
    if SameSign(g.ya, g.yb) then Unbracketed
    else
      var u := ItpEnd(f, a, b, tol, limit, guess);
      Root(0.5 * (u.a + u.b))
  }

  /** The bracket it ends with. */
  function ItpEnd(f: real --> real, a: real, b: real, tol: real, limit: nat, guess: real): Bracket
    requires Searches(f, a, b, tol, guess)
    requires var g := Refine(f, guess, a, b); !SameSign(g.ya, g.yb)
  {
    var g := Refine(f, guess, a, b);
    StartState(f, g, b - a, tol);
    ItpRun(f, SignOf(g.ya), ItpStart(g), tol, BisectionSteps(b - a, tol), limit)
  }

  lemma StartState(f: real --> real, g: Bracket, width: real, tol: real)
    requires g.a <= g.b && g.b - g.a <= width && tol > 0.0 && !SameSign(g.ya, g.yb)
    requires forall x :: g.a <= x <= g.b ==> f.requires(x)
    requires LeftRoot(g) ==> forall x :: f.requires(x)
    ensures ItpState(f, ItpStart(g), tol, BisectionSteps(width, tol))
    ensures !LeftRoot(g) ==> Straddles(f, ItpStart(g))
  {
    hide Budget, BisectionSteps;
  }

  /** ceil(log2(0.5 * width / tol)): the number of halvings that bring a bracket down to 2 * tol.
      Not positive, and not used, when the bracket is narrow already. */
  function BisectionSteps(width: real, tol: real): (n: nat)
    requires width >= 0.0 && tol > 0.0
    ensures 0.5 * width <= Budget(tol, n)
    ensures n > 0 ==> Budget(tol, n - 1) < 0.5 * width
  {
    var half := 0.5 * width;
    if half / tol > 1.0 then
      var n := CeilLog2(half / tol);
      HalvingsSuffice(half, tol, n);
      n
    else
      DivLe(half, tol, 1.0);
      0
  }

  /** A crude bound on the number of steps, enough to stay below any practical limit. */
  lemma BisectionStepsBound(width: real, tol: real, steps: real)
    requires width >= 0.0 && tol > 0.0 && 0.5 * width <= steps * tol
    ensures BisectionSteps(width, tol) as real <= steps + 1.0
  {
    var n := BisectionSteps(width, tol);
    if n > 0 {
      BudgetIs(tol, n - 1);
      Pow2Exceeds(n - 1);
      var m := Pow2(n - 1);
      CancelPos(tol, steps - m);
      assert tol * (steps - m) == steps * tol - tol * m;
    } else {
      CancelPos(tol, steps);
      assert tol * steps == steps * tol;
    }
  }

  lemma HalvingsSuffice(half: real, tol: real, n: nat)
    requires tol > 0.0 && n > 0 && Pow2(n - 1) < half / tol <= Pow2(n)
    ensures Budget(tol, n - 1) < half <= Budget(tol, n)
  {
    BudgetIs(tol, n);
    BudgetIs(tol, n - 1);
    DivLe(half, tol, Pow2(n));
    DivLe(half, tol, Pow2(n - 1));
    assert tol * Pow2(n) == Pow2(n) * tol;
    assert tol * Pow2(n - 1) == Pow2(n - 1) * tol;
    assert !(half <= Pow2(n - 1) * tol);
  }

  class RootFinder {
    var iterationCount: nat
    const maxIter: nat

    constructor (maxIterations: nat)
      ensures iterationCount == 0 && maxIter == maxIterations
    {
      iterationCount, maxIter := 0, maxIterations;
    }

    /** Illinois false position. Halving a stale end value keeps its sign, so the bracket
        always holds a sign change of f itself. */
    method RegulaFalsi(f: real --> real, a0: real, b0: real, tol: real, guess: real)
      returns (r: Outcome, ghost lo: real, ghost hi: real)
      requires a0 <= b0 && tol >= 0.0
      requires forall x :: a0 <= x <= b0 ==> f.requires(x)
      requires iterationCount <= maxIter
      modifies this
      ensures old(iterationCount) <= iterationCount <= maxIter
      ensures r == FalsiResult(f, a0, b0, tol, maxIter - old(iterationCount), guess)
      ensures r.Unbracketed? <==>
              SameSign(f(a0), f(b0)) && (a0 <= guess <= b0 ==> SameSign(f(guess), f(b0)))
      ensures r.NotANumber? <==> ZeroOverZero(Refine(f, guess, a0, b0), tol, maxIter - old(iterationCount))
      ensures r.Root? ==> Encloses(f, a0, b0, lo, hi, r.x)
      ensures r.Root? ==> hi - lo <= 2.0 * tol || iterationCount == maxIter
      ensures r.Root? ==> var g, limit := Refine(f, guess, a0, b0), maxIter - old(iterationCount);
                          && Bracketed(f, g, tol, limit)
                          && lo == FalsiEnd(f, g, tol, limit).a && hi == FalsiEnd(f, g, tol, limit).b
                          && iterationCount - old(iterationCount) == PassesMade(f, g, tol, limit)
    {
      hide Refine, FalsiRun, FalsiPasses, FalsiState;
      var g := Refine(f, guess, a0, b0);
      lo, hi := g.a, g.b;
      if SameSign(g.ya, g.yb) {
        r := Unbracketed;
        return;
      }
      if ZeroOverZero(g, tol, maxIter - iterationCount) {
        r := NotANumber;
        return;
      }
      FalsiStarts(f, g, tol, maxIter - iterationCount);
      FalsiSearch(f, g, tol, maxIter - iterationCount);
      var t := FalsiLoop(f, SignOf(g.ya), FalsiStart(g), tol);
      lo, hi := t.a, t.b;
      r := Root(0.5 * (t.a + t.b));
    }

    /** The loop of regula_falsi. */
    method FalsiLoop(f: real --> real, sign: real, t0: Illinois, tol: real) returns (t: Illinois)
      requires (sign == 1.0 || sign == -1.0) && iterationCount <= maxIter
      requires FalsiState(f, t0, tol, maxIter - iterationCount)
      modifies this
      ensures old(iterationCount) <= iterationCount <= maxIter
      ensures t == FalsiRun(f, sign, t0, tol, maxIter - old(iterationCount))
      ensures iterationCount - old(iterationCount) == FalsiPasses(f, sign, t0, tol, maxIter - old(iterationCount))
    {
      hide FalsePosition, FalsiStep, FalsiRun, FalsiPasses, Halved;
      t := t0;
      ghost var limit: nat := maxIter - iterationCount;
      while t.b - t.a > 2.0 * tol && iterationCount < maxIter
        invariant old(iterationCount) <= iterationCount <= maxIter
        invariant FalsiState(f, t, tol, maxIter - iterationCount)
        invariant FalsiRun(f, sign, t0, tol, limit) == FalsiRun(f, sign, t, tol, maxIter - iterationCount)
        invariant FalsiPasses(f, sign, t0, tol, limit)
                  == iterationCount - old(iterationCount) + FalsiPasses(f, sign, t, tol, maxIter - iterationCount)
        decreases maxIter - iterationCount
      {
        FalsiUnfold(f, sign, t, tol, maxIter - iterationCount);
        t := FalsiPass(f, sign, t, tol, maxIter - iterationCount);
        iterationCount := iterationCount + 1;
      }
      FalsiUnfold(f, sign, t, tol, maxIter - iterationCount);
    }

    /** Interpolate-truncate-project. Whatever f is, it stops within ceil(log2((b0 - a0) / (2 tol)))
        steps, as bisection would. Unless the left end is a root with f positive on the right, the value
        returned is the midpoint of a bracket that still holds a sign change; on a left root it is so at
        least when the first trial point, LeftTrial, is not positive. */
    method Itp(f: real --> real, a0: real, b0: real, tol: real, guess: real)
      returns (r: Outcome, ghost lo: real, ghost hi: real)
      requires Searches(f, a0, b0, tol, guess) && iterationCount == 0
      modifies this
      ensures r == ItpResult(f, a0, b0, tol, maxIter, guess) && !r.NotANumber?
      ensures r.Unbracketed? <==>
              SameSign(f(a0), f(b0)) && (a0 <= guess <= b0 ==> SameSign(f(guess), f(b0)))
      ensures r.Root? ==>
                var g, n := Refine(f, guess, a0, b0), BisectionSteps(b0 - a0, tol);
                (LeftRoot(g) ==> LeftRootKept(f, g, tol, n, maxIter)) ==> Encloses(f, a0, b0, lo, hi, r.x)
      ensures r.Root? && Refine(f, guess, a0, b0).ya < 0.0 ==> f(lo) <= 0.0 <= f(hi)
      ensures r.Root? ==> var u := ItpEnd(f, a0, b0, tol, maxIter, guess); lo == u.a && hi == u.b
      ensures r.Root? && BisectionSteps(b0 - a0, tol) <= maxIter ==> hi - lo <= 2.0 * tol
      ensures iterationCount <= BisectionSteps(b0 - a0, tol)
    {
      hide ItpTrial, TrialOf, ItpStep, Budget, CeilLog2, Pow2, BisectionSteps, ItpRun, LeftRootKept, Oriented;
      var g := Refine(f, guess, a0, b0);
      lo, hi := g.a, g.b;
      if SameSign(g.ya, g.yb) {
        r := Unbracketed;
        return;
      }
      var nmax := BisectionSteps(b0 - a0, tol);
      StartState(f, g, b0 - a0, tol);
      var t := ItpLoop(f, SignOf(g.ya), ItpStart(g), tol, nmax);
      RunEncloses(f, g, tol, nmax, maxIter);
      lo, hi := t.a, t.b;
      r := Root(0.5 * (t.a + t.b));
    }

    /** The loop of itp. */
    method ItpLoop(f: real --> real, sign: real, t0: Bracket, tol: real, nmax: nat)
      returns (t: Bracket)
      requires (sign == 1.0 || sign == -1.0) && iterationCount == 0
      requires ItpState(f, t0, tol, nmax)
      modifies this
      ensures iterationCount <= nmax && ItpState(f, t, tol, nmax - iterationCount)
      ensures t == ItpRun(f, sign, t0, tol, nmax, maxIter)
    {
      hide ItpTrial, TrialOf, ItpStep, Budget, ItpRun;
      t := t0;
      while t.b - t.a > 2.0 * tol && iterationCount < maxIter
        invariant iterationCount <= nmax && iterationCount <= maxIter
        invariant ItpState(f, t, tol, nmax - iterationCount)
        invariant ItpRun(f, sign, t0, tol, nmax, maxIter)
                  == ItpRun(f, sign, t, tol, nmax - iterationCount, maxIter - iterationCount)
        decreases maxIter - iterationCount
      {
        ItpRunUnfold(f, sign, t, tol, nmax - iterationCount, maxIter - iterationCount);
        t := ItpStep(f, sign, t, tol, nmax - iterationCount);
        iterationCount := iterationCount + 1;
      }
      ItpRunUnfold(f, sign, t, tol, nmax - iterationCount, maxIter - iterationCount);
    }
  }

  /** The body of the loop of regula_falsi, on its own variables. */
  method FalsiPass(f: real --> real, sign: real, t: Illinois, tol: real, ghost limit: nat) returns (u: Illinois)
    requires FalsiState(f, t, tol, limit) && t.b - t.a > 2.0 * tol && limit > 0
    requires sign == 1.0 || sign == -1.0
    ensures u == FalsiStep(f, sign, t, tol, limit)
  {
    hide FalsePosition;
    var a, b, ya, yb, b1, b2 := t.a, t.b, t.ya, t.yb, t.b1, t.b2;
    var c := FalsePosition(a, b, ya, yb);
    if c == a {
      return t.(b := a);
    } else if c == b {
      return t.(a := b);
    }
    var yc := Orient(sign, f(c));
    if yc > 0.0 {
      b, yb := c, yc;
      b1 := b1 + 1;
      ya := ya * (if b1 > 1 then 0.5 else 1.0);
      b2 := 0;
    } else if yc < 0.0 {
      a, ya := c, yc;
      b2 := b2 + 1;
      yb := yb * (if b2 > 1 then 0.5 else 1.0);
      b1 := 0;
    } else {
      a, b := c, c;
    }
    u := Illinois(a, b, ya, yb, b1, b2);
  }

  lemma FalsiStarts(f: real --> real, g: Bracket, tol: real, limit: nat)
    requires Bracketed(f, g, tol, limit)
    ensures FalsiState(f, FalsiStart(g), tol, limit) && FalsiHolds(f, SignOf(g.ya), FalsiStart(g))
  {
  }

  lemma HoldsIs(f: real --> real, sign: real, t: Illinois)
    requires (sign == 1.0 || sign == -1.0) && f.requires(t.a) && f.requires(t.b) && FalsiHolds(f, sign, t)
    ensures SignChange(f, t.a, t.b)
  {
  }

  /** The whole loop keeps the sign change. */
  lemma {:induction false} FalsiRunHolds(f: real --> real, sign: real, t: Illinois, tol: real, limit: nat)
    requires FalsiState(f, t, tol, limit) && (sign == 1.0 || sign == -1.0) && FalsiHolds(f, sign, t)
    ensures FalsiHolds(f, sign, FalsiRun(f, sign, t, tol, limit))
    decreases limit
  {
    hide FalsiStep, FalsiRun, FalsiHolds;
    FalsiUnfold(f, sign, t, tol, limit);
    if t.b - t.a > 2.0 * tol && limit > 0 {
      FalsiStepHolds(f, sign, t, tol, limit);
      FalsiRunHolds(f, sign, FalsiStep(f, sign, t, tol, limit), tol, limit - 1);
    }
  }

  lemma FalsiUnfold(f: real --> real, sign: real, t: Illinois, tol: real, limit: nat)
    requires FalsiState(f, t, tol, limit) && (sign == 1.0 || sign == -1.0)
    ensures t.b - t.a <= 2.0 * tol || limit == 0 ==>
              FalsiRun(f, sign, t, tol, limit) == t && FalsiPasses(f, sign, t, tol, limit) == 0
    ensures t.b - t.a > 2.0 * tol && limit > 0 ==>
              var u := FalsiStep(f, sign, t, tol, limit);
              && FalsiRun(f, sign, t, tol, limit) == FalsiRun(f, sign, u, tol, limit - 1)
              && FalsiPasses(f, sign, t, tol, limit) == 1 + FalsiPasses(f, sign, u, tol, limit - 1)
  {
    hide FalsiStep;
  }

  // ---------------------------------------------------------------------------------------------
  // A root at the left end of ITP.

  /** The first trial point on a left root. The false-position point is the left end itself; truncation
      moves it off, projection moves it on. */
  function LeftTrial(a: real, b: real, budget: real): real {
    Max(a + Min(0.1 * ((b - a) * (b - a)), 0.5 * (b - a)), b - budget)
  }

  lemma LeftTrialIs(g: Bracket, tol: real, left: nat)
    requires LeftRoot(g) && g.a < g.b && 0.5 * (g.b - g.a) <= Budget(tol, left)
    ensures TrialOf(ItpStart(g), tol, left) == LeftTrial(g.a, g.b, Budget(tol, left))
  {
    hide Budget;
    LeftTrialAt(g.a, g.b, -g.yb, Budget(tol, left));
  }

  lemma LeftTrialAt(a: real, b: real, yb: real, budget: real)
    requires a < b && yb < 0.0 && 0.5 * (b - a) <= budget
    ensures ItpTrial(a, b, 0.0, yb, budget - 0.5 * (b - a)) == LeftTrial(a, b, budget)
  {
    hide ChordRoot, Projected, LeftTrial;
    LeftChord(a, b, yb);
    LeftProjected(a, b, budget - 0.5 * (b - a));
  }

  lemma LeftProjected(a: real, b: real, r: real)
    requires a < b && r >= 0.0
    ensures Projected(a, b, a, r) == LeftTrial(a, b, r + 0.5 * (b - a))
  {
    var w2 := (b - a) * (b - a);
    MulNonneg(b - a, b - a);
    MinRange(0.1 * w2, 0.5 * (b - a));
    hide Min;
  }

  lemma LeftChord(a: real, b: real, yb: real)
    requires a < b && yb < 0.0
    ensures ChordRoot(a, b, 0.0, yb) == a
  {
    DivIs(yb * a, yb, a);
  }

  lemma MinRange(a: real, b: real)
    requires a >= 0.0 && b >= 0.0
    ensures 0.0 <= Min(a, b) <= b
  {
  }

  /** A condition to check before the call: no pass is due, or the function is not positive at the
      first trial point. */
  predicate LeftRootKept(f: real --> real, g: Bracket, tol: real, left: nat, limit: nat)
    requires forall x :: f.requires(x)
  {
    g.b - g.a <= 2.0 * tol || limit == 0 || f(LeftTrial(g.a, g.b, Budget(tol, left))) <= 0.0
  }

  /** Where the loop ends, and when the bracket it ends with still holds a sign change. */
  lemma RunEncloses(f: real --> real, g: Bracket, tol: real, left: nat, limit: nat)
    requires g.a <= g.b && (forall x :: g.a <= x <= g.b ==> f.requires(x)) && (LeftRoot(g) ==> forall x :: f.requires(x))
    requires g.ya == f(g.a) && g.yb == f(g.b) && !SameSign(g.ya, g.yb) && ItpState(f, ItpStart(g), tol, left)
    ensures var u := ItpRun(f, SignOf(g.ya), ItpStart(g), tol, left, limit);
            (LeftRoot(g) ==> LeftRootKept(f, g, tol, left, limit)) ==>
              g.a <= u.a <= u.b <= g.b && f.requires(u.a) && f.requires(u.b) && SignChange(f, u.a, u.b)
    ensures var u := ItpRun(f, SignOf(g.ya), ItpStart(g), tol, left, limit);
            g.ya < 0.0 ==> f.requires(u.a) && f.requires(u.b) && f(u.a) <= 0.0 <= f(u.b)
  {
    hide ItpRun, ItpStep, Budget, TrialOf;
    var t, sign := ItpStart(g), SignOf(g.ya);
    ItpRunUnfold(f, sign, t, tol, left, limit);
    if !LeftRoot(g) {
      ItpRunKeeps(f, sign, t, tol, left, limit);
    } else if t.b - t.a > 2.0 * tol && limit > 0 && LeftRootKept(f, g, tol, left, limit) {
      LeftTrialIs(g, tol, left);
      var u := ItpStep(f, sign, t, tol, left);
      LeftStep(f, g, tol, left);
      ItpRunKeeps(f, sign, u, tol, left - 1, limit - 1);
    }
  }

  /** The first pass on a left root: it keeps the sign change exactly when the function is not positive
      at the trial point; otherwise both ends are positive from then on. */
  lemma LeftStep(f: real --> real, g: Bracket, tol: real, left: nat)
    requires LeftRoot(g) && g.a < g.b && (forall x :: f.requires(x)) && left > 0
    requires g.ya == f(g.a) && g.yb == f(g.b) && ItpState(f, ItpStart(g), tol, left)
    ensures var x, u := LeftTrial(g.a, g.b, Budget(tol, left)), ItpStep(f, -1.0, ItpStart(g), tol, left);
            if f(x) <= 0.0 then Straddles(f, u) && Oriented(f, -1.0, u) && g.a <= u.a <= u.b <= g.b
            else u == Bracket(x, g.b, -f(x), -f(g.b))
  {
    hide Budget, TrialOf;
    LeftTrialIs(g, tol, left);
    LeftTrialInside(g.a, g.b, Budget(tol, left));
  }

  lemma LeftTrialInside(a: real, b: real, budget: real)
    requires a < b && 0.5 * (b - a) <= budget
    ensures a < LeftTrial(a, b, budget) < b
  {
    var w2 := (b - a) * (b - a);
    SquareIsPos(b - a, w2);
    assert 0.0 < Min(0.1 * w2, 0.5 * (b - a)) <= 0.5 * (b - a);
  }

  /** Every trial point of the run finds the function positive. */
  predicate TrialsPositive(f: real --> real, t: Bracket, tol: real, left: nat, limit: nat)
    requires ItpState(f, t, tol, left) && forall x :: f.requires(x)
    decreases left
  {
    t.b - t.a > 2.0 * tol && limit > 0 ==>
      f(TrialOf(t, tol, left)) > 0.0 && TrialsPositive(f, ItpStep(f, -1.0, t, tol, left), tol, left - 1, limit - 1)
  }

  /** Once both ends are positive, a sign change comes back exactly if some later trial point finds one. */
  lemma {:induction false} LostUnlessFound(f: real --> real, t: Bracket, tol: real, left: nat, limit: nat)
    requires ItpState(f, t, tol, left) && forall x :: f.requires(x)
    requires f(t.a) > 0.0 && f(t.b) > 0.0 && t.ya == -f(t.a) && t.yb == -f(t.b)
    ensures var u := ItpRun(f, -1.0, t, tol, left, limit);
            SignChange(f, u.a, u.b) <==> !TrialsPositive(f, t, tol, left, limit)
    decreases left
  {
    hide ItpRun, Budget, TrialOf;
    ItpRunUnfold(f, -1.0, t, tol, left, limit);
    if t.b - t.a > 2.0 * tol && limit > 0 {
      var x, u := TrialOf(t, tol, left), ItpStep(f, -1.0, t, tol, left);
      if f(x) > 0.0 {
        LostUnlessFound(f, u, tol, left - 1, limit - 1);
      } else if u.a < u.b {
        ItpRunKeeps(f, -1.0, u, tol, left - 1, limit - 1);
      } else {
        ItpRunUnfold(f, -1.0, u, tol, left - 1, limit - 1);
      }
    }
  }

  /** Exactly when a root at the left end survives: no pass is due, or some trial point of the run is not
      positive. The first of them is LeftTrial. */
  lemma LeftRootSurvives(f: real --> real, g: Bracket, tol: real, left: nat, limit: nat)
    requires LeftRoot(g) && g.a <= g.b && (forall x :: f.requires(x))
    requires g.ya == f(g.a) && g.yb == f(g.b) && ItpState(f, ItpStart(g), tol, left)
    ensures var u := ItpRun(f, -1.0, ItpStart(g), tol, left, limit);
            SignChange(f, u.a, u.b) <==>
            g.b - g.a <= 2.0 * tol || limit == 0 || !TrialsPositive(f, ItpStart(g), tol, left, limit)
    ensures LeftRootKept(f, g, tol, left, limit) ==>
              g.b - g.a <= 2.0 * tol || limit == 0 || !TrialsPositive(f, ItpStart(g), tol, left, limit)
  {
    hide ItpRun, Budget, TrialOf, ItpStep;
    var t := ItpStart(g);
    ItpRunUnfold(f, -1.0, t, tol, left, limit);
    if t.b - t.a > 2.0 * tol && limit > 0 {
      LeftTrialIs(g, tol, left);
      LeftStep(f, g, tol, left);
      var u := ItpStep(f, -1.0, t, tol, left);
      if f(LeftTrial(g.a, g.b, Budget(tol, left))) <= 0.0 {
        ItpRunKeeps(f, -1.0, u, tol, left - 1, limit - 1);
      } else {
        LostUnlessFound(f, u, tol, left - 1, limit - 1);
      }
    }
  }

  lemma {:induction false} AboveRoot(f: real --> real, t: Bracket, tol: real, left: nat, limit: nat, lo: real)
    requires ItpState(f, t, tol, left) && (forall x :: f.requires(x)) && forall x :: x > lo ==> f(x) > 0.0
    requires t.b - Budget(tol, left) > lo
    ensures TrialsPositive(f, t, tol, left, limit)
    decreases left
  {
    if t.b - t.a > 2.0 * tol && limit > 0 {
      AboveRoot(f, ItpStep(f, -1.0, t, tol, left), tol, left - 1, limit - 1, lo);
    }
  }

  /** So a function that is positive beyond its root at the left end loses it whenever a pass is due. The
      guess must not have narrowed the interval, or a trial point may fall below it. */
  lemma PositiveLosesRoot(f: real --> real, a: real, b: real, tol: real, limit: nat)
    requires a <= b && tol > 0.0 && (forall x :: f.requires(x)) && f(a) == 0.0 && forall x :: x > a ==> f(x) > 0.0
    requires a < b && limit > 0
    ensures Searches(f, a, b, tol, a - 1.0) && ItpResult(f, a, b, tol, limit, a - 1.0).Root?
    ensures var u := ItpEnd(f, a, b, tol, limit, a - 1.0); SignChange(f, u.a, u.b) <==> b - a <= 2.0 * tol
  {
    hide ItpRun, Budget, BisectionSteps;
    RefineOutside(f, a - 1.0, a, b);
    var g, n := Refine(f, a - 1.0, a, b), BisectionSteps(b - a, tol);
    StartState(f, g, b - a, tol);
    LeftRootSurvives(f, g, tol, n, limit);
    if b - a > 2.0 * tol {
      BudgetBelowWidth(b - a, tol);
      AboveRoot(f, ItpStart(g), tol, n, limit, a);
    }
  }

  lemma BudgetBelowWidth(width: real, tol: real)
    requires tol > 0.0 && width > 2.0 * tol
    ensures Budget(tol, BisectionSteps(width, tol)) < width
  {
  }

  /** The bracket never falls below `lo` when no trial point can. */
  lemma {:induction false} RunStaysAbove(f: real --> real, sign: real, t: Bracket, tol: real, left: nat, limit: nat,
                                         lo: real)
    requires ItpState(f, t, tol, left) && (sign == 1.0 || sign == -1.0) && t.a >= lo && t.b >= lo && t.ya <= 0.0
    requires Straddles(f, t) || t.b - t.a <= 2.0 * tol || t.b - Budget(tol, left) >= lo
    ensures var u := ItpRun(f, sign, t, tol, left, limit); u.a >= lo && u.b >= lo
    decreases left
  {
    if t.b - t.a > 2.0 * tol && limit > 0 {
      var u := ItpStep(f, sign, t, tol, left);
      BudgetOrder(tol, left - 1, left);
      RunStaysAbove(f, sign, u, tol, left - 1, limit - 1, lo);
    }
  }

  /** Without a guess inside the interval the result is never below it, whatever the function does. */
  lemma ItpResultAbove(f: real --> real, a: real, b: real, tol: real, limit: nat, guess: real)
    requires Searches(f, a, b, tol, guess) && guess < a
    requires ItpResult(f, a, b, tol, limit, guess).Root?
    ensures ItpResult(f, a, b, tol, limit, guess).x >= a
  {
    hide ItpRun, Budget, BisectionSteps;
    RefineOutside(f, guess, a, b);
    var g, n := Refine(f, guess, a, b), BisectionSteps(b - a, tol);
    StartState(f, g, b - a, tol);
    if b - a > 2.0 * tol { BudgetBelowWidth(b - a, tol); }
    RunStaysAbove(f, SignOf(g.ya), ItpStart(g), tol, n, limit, a);
  }

  // ---------------------------------------------------------------------------------------------
  // The root of f(x) = x on [0, 1], lost.

  function Identity(): real -> real { (x: real) => x }

  /** Three passes drive the bracket to [0.8, 1], and 0.9 is returned for the root 0. */
  lemma IdentityRootLost(limit: nat)
    requires limit >= 3
    ensures Searches(Identity(), 0.0, 1.0, 0.1, -1.0)
    ensures ItpResult(Identity(), 0.0, 1.0, 0.1, limit, -1.0) == Root(0.9)
  {
    hide ItpRun, ItpStep;
    var f := Identity();
    RefineOutside(f, -1.0, 0.0, 1.0);
    ThreeHalvings();
    var t0 := Bracket(0.0, 1.0, 0.0, -1.0);
    StartState(f, Bracket(0.0, 1.0, 0.0, 1.0), 1.0, 0.1);
    IdentityStep(t0, 3, 0.8, 0.2);
    IdentityStep(Bracket(0.2, 1.0, -0.2, -1.0), 2, 0.4, 0.6);
    IdentityStep(Bracket(0.6, 1.0, -0.6, -1.0), 1, 0.2, 0.8);
    ItpRunUnfold(f, -1.0, t0, 0.1, 3, limit);
    ItpRunUnfold(f, -1.0, Bracket(0.2, 1.0, -0.2, -1.0), 0.1, 2, limit - 1);
    ItpRunUnfold(f, -1.0, Bracket(0.6, 1.0, -0.6, -1.0), 0.1, 1, limit - 2);
    ItpRunUnfold(f, -1.0, Bracket(0.8, 1.0, -0.8, -1.0), 0.1, 0, limit - 3);
  }

  lemma IdentityStep(t: Bracket, left: nat, budget: real, x: real)
    requires t.b == 1.0 && 0.0 <= t.a < 1.0 && t.ya == -t.a && t.yb == -1.0 && left > 0
    requires budget == Budget(0.1, left) && 0.5 * (1.0 - t.a) <= budget
    requires x == (if t.a == 0.0 then LeftTrial(0.0, 1.0, budget) else 0.5 * (1.0 + t.a)) && x > 0.0
    requires t.a == 0.0 || budget == 0.5 * (1.0 - t.a)
    ensures ItpState(Identity(), t, 0.1, left)
    ensures ItpStep(Identity(), -1.0, t, 0.1, left) == Bracket(x, 1.0, -x, -1.0)
  {
    hide Budget, ItpTrial, TrialOf;
    if t.a == 0.0 {
      LeftTrialIs(Bracket(0.0, 1.0, 0.0, 1.0), 0.1, left);
    } else {
      CentreTrial(t, 0.1, left);
    }
  }

  /** Without slack in the budget the trial point is the centre. */
  lemma CentreTrial(t: Bracket, tol: real, left: nat)
    requires t.a < t.b && 0.5 * (t.b - t.a) == Budget(tol, left)
    ensures TrialOf(t, tol, left) == 0.5 * (t.a + t.b)
  {
    hide ItpTrial, Budget;
  }

  lemma ThreeHalvings()
    ensures BisectionSteps(1.0, 0.1) == 3
    ensures Budget(0.1, 3) == 0.8 && Budget(0.1, 2) == 0.4 && Budget(0.1, 1) == 0.2 && Budget(0.1, 0) == 0.1
  {
    assert Budget(0.1, 1) == 0.2 && Budget(0.1, 2) == 0.4;
    assert Budget(0.1, 3) == 0.8;
    StepsBetween(1.0, 0.1, 3);
  }

  /** The step bound is the only n with tol 2^(n - 1) < width / 2 <= tol 2^n. */
  lemma StepsBetween(width: real, tol: real, n: nat)
    requires width >= 0.0 && tol > 0.0 && n > 0 && Budget(tol, n - 1) < 0.5 * width <= Budget(tol, n)
    ensures BisectionSteps(width, tol) == n
  {
    var m := BisectionSteps(width, tol);
    if m > n { BudgetOrder(tol, n, m - 1); }
    if m < n { BudgetOrder(tol, m, n - 1); }
  }

  lemma {:induction false} BudgetOrder(tol: real, m: nat, n: nat)
    requires tol > 0.0 && m <= n
    ensures 0.0 < Budget(tol, m) <= Budget(tol, n)
  {
    if n > 0 && m < n {
      BudgetOrder(tol, m, n - 1);
    } else if m > 0 {
      BudgetOrder(tol, m - 1, m - 1);
    }
  }
}
