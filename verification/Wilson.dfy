/**
 * The Wilson 95% interval over exact reals, and the power threshold computed from it
 * (harness/analyze-deliver-hop.mjs, harness/reconstruct-transitions.mjs).
 * A square root is passed in as the number `s` it must be: non-negative, with `s * s` the radicand.
 */
module Wilson {

  const Z: real := 1.96

  ghost predicate IsRoot(s: real, x: real) {
    s >= 0.0 && s * s == x
  }

  function Share(k: nat, n: nat): real
    requires n > 0
  {
    k as real / n as real
  }

  /** z squared over n: the only way the sample size enters. */
  function W(n: nat): (w: real)
    requires n > 0
    ensures w > 0.0
  {
    Z * Z / n as real
  }

  function Radicand(k: nat, n: nat): real
    requires n > 0
  {
    var p := Share(k, n);
    p * (1.0 - p) / n as real + Z * Z / (4.0 * n as real * n as real)
  }

  function Centre(k: nat, n: nat): real
    requires n > 0
  {
    (Share(k, n) + Z * Z / (2.0 * n as real)) / (1.0 + Z * Z / n as real)
  }

  function HalfWidth(n: nat, s: real): real
    requires n > 0
  {
    Z * s / (1.0 + Z * Z / n as real)
  }

  function Max(a: real, b: real): real {
    if a > b then a else b
  }

  function Min(a: real, b: real): real {
    if a < b then a else b
  }

  function Lo(k: nat, n: nat, s: real): real
    requires n > 0
  {
    Max(0.0, Centre(k, n) - HalfWidth(n, s))
  }

  function Hi(k: nat, n: nat, s: real): real
    requires n > 0
  {
    Min(1.0, Centre(k, n) + HalfWidth(n, s))
  }

  /** `toFixed(2)` read back as a number, for non-negative input: ties go up. */
  function Fixed2(x: real): real {
    (x * 100.0 + 0.5).Floor as real / 100.0
  }

  datatype Percent = Percent(est: real, lo: real, hi: real)

  function Interval(k: nat, n: nat, s: real): Percent {
    if n == 0 then Percent(0.0, 0.0, 0.0)
    else Percent(Fixed2(100.0 * Share(k, n)), Fixed2(100.0 * Lo(k, n, s)), Fixed2(100.0 * Hi(k, n, s)))
  }

  // ---- the interval in terms of p, w and t = z * s ---------------------------------

  lemma PositiveFactor(x: real, d: real)
    requires d > 0.0
    ensures x * d > 0.0 <==> x > 0.0
    ensures x * d >= 0.0 <==> x >= 0.0
  {
    assert (-x) * d == -(x * d);
    if x > 0.0 { assert x * d > 0.0; } else if x < 0.0 { assert (-x) * d > 0.0; }
  }

  lemma SquaresOrder(a: real, b: real)
    requires a >= 0.0 && b >= 0.0 && a * a <= b * b
    ensures a <= b
  {
    var x, d := a - b, a + b;
    assert x * d == a * a - b * b;
    if x > 0.0 { PositiveFactor(x, d); }
  }

  ghost predicate Scaled(p: real, w: real, t: real) {
    0.0 <= p <= 1.0 && w > 0.0 && t >= 0.0 && t * t == p * (1.0 - p) * w + w * w / 4.0
  }

  lemma ShareInRange(k: nat, n: nat)
    requires k <= n && n > 0
    ensures 0.0 <= Share(k, n) <= 1.0
  {
  }

  lemma ToScaled(k: nat, n: nat, s: real)
    requires k <= n && n > 0 && IsRoot(s, Radicand(k, n))
    ensures Scaled(Share(k, n), W(n), Z * s)
  {
    var p, m := Share(k, n), n as real;
    ShareInRange(k, n);
    var u := p * (1.0 - p);
    assert (Z * s) * (Z * s) == Z * Z * (s * s);
    assert Z * Z * (u / m) == u * (Z * Z / m);
    assert Z * Z * (Z * Z / (4.0 * m * m)) == (Z * Z / m) * (Z * Z / m) / 4.0 by {
      assert Z * Z / (4.0 * m * m) == (Z * Z / m) / (4.0 * m);
    }
  }

  lemma RootBelowSum(p: real, w: real, t: real)
    requires Scaled(p, w, t)
    ensures t <= p + w / 2.0
  {
    var m := p + w / 2.0;
    assert m * m - t * t == p * p * (1.0 + w);
    assert p * p >= 0.0;
    PositiveFactor(p * p, 1.0 + w);
    SquaresOrder(t, m);
  }

  lemma OffsetSquared(p: real, w: real, u: real, ww: real, d: real)
    requires u == p * (1.0 - p) && ww == w * w && d == w * (0.5 - p)
    ensures d * d == ww / 4.0 - u * ww
  {
    var e := 0.5 - p;
    assert e * e == 0.25 - u;
    assert d * d == ww * (e * e);
  }

  lemma ProductNotNegative(x: real, y: real)
    requires x >= 0.0 && y >= 0.0
    ensures x * y >= 0.0
  {
  }

  lemma RootAboveOffset(p: real, w: real, t: real)
    requires Scaled(p, w, t)
    ensures t >= w * (0.5 - p) && t >= w / 2.0
  {
    ProductNotNegative(p, 1.0 - p);
    ProductNotNegative(w, w);
    OffsetRoots(p * (1.0 - p), w, w * w, t, p);
  }

  lemma OffsetRoots(u: real, w: real, ww: real, t: real, p: real)
    requires u >= 0.0 && w > 0.0 && ww >= 0.0 && ww == w * w && t >= 0.0
    requires u == p * (1.0 - p) && t * t == u * w + ww / 4.0
    ensures t >= w * (0.5 - p) && t >= w / 2.0
  {
    ProductNotNegative(u, w);
    ProductNotNegative(u, ww);
    OffsetSquared(p, w, u, ww, w * (0.5 - p));
    OffsetOrder(t, w * (0.5 - p), u * w, u * ww, ww);
    var h := w / 2.0;
    assert h * h == ww / 4.0;
    OffsetOrder(t, h, u * w, 0.0, ww);
  }

  lemma OffsetOrder(t: real, d: real, uw: real, uww: real, ww: real)
    requires t >= 0.0 && uw >= 0.0 && uww >= 0.0
    requires d * d == ww / 4.0 - uww && t * t == uw + ww / 4.0
    ensures d <= t
  {
    if d >= 0.0 { SquaresOrder(d, t); }
  }

  lemma ScaledBounds(p: real, w: real, t: real)
    requires Scaled(p, w, t)
    ensures t <= p + w / 2.0 && t <= (1.0 - p) + w / 2.0
    ensures t >= w * (0.5 - p) && t >= w * (p - 0.5) && t >= w / 2.0
  {
    assert Scaled(1.0 - p, w, t);
    RootBelowSum(p, w, t);
    RootBelowSum(1.0 - p, w, t);
    RootAboveOffset(p, w, t);
    RootAboveOffset(1.0 - p, w, t);
  }

  lemma FromScaled(k: nat, n: nat, s: real)
    requires k <= n && n > 0
    ensures Centre(k, n) == (Share(k, n) + W(n) / 2.0) / (1.0 + W(n))
    ensures HalfWidth(n, s) == (Z * s) / (1.0 + W(n))
    ensures Centre(k, n) - HalfWidth(n, s) == (Share(k, n) + W(n) / 2.0 - Z * s) / (1.0 + W(n))
    ensures Centre(k, n) + HalfWidth(n, s) == (Share(k, n) + W(n) / 2.0 + Z * s) / (1.0 + W(n))
  {
    assert Z * Z / (2.0 * n as real) == (Z * Z / n as real) / 2.0;
  }

  lemma DividedOrder(a: real, b: real, d: real)
    requires d > 0.0
    ensures a <= b * d <==> a / d <= b
    ensures a >= b * d <==> a / d >= b
  {
    assert (a / d) * d == a;
    PositiveFactor(a / d - b, d);
    PositiveFactor(b - a / d, d);
    assert (a / d - b) * d == a - b * d && (b - a / d) * d == b * d - a;
  }

  lemma ScaledInterval(p: real, w: real, t: real)
    requires Scaled(p, w, t)
    ensures 0.0 <= (p + w / 2.0 - t) / (1.0 + w) <= p <= (p + w / 2.0 + t) / (1.0 + w) <= 1.0
    ensures (p + w / 2.0 + t) / (1.0 + w) >= w / (1.0 + w)
  {
    var lo, hi, d := p + w / 2.0 - t, p + w / 2.0 + t, 1.0 + w;
    ScaledBounds(p, w, t);
    assert p * d == p + p * w && w * (0.5 - p) == w / 2.0 - p * w && w * (p - 0.5) == p * w - w / 2.0;
    DividedOrder(lo, 0.0, d);
    DividedOrder(lo, p, d);
    DividedOrder(hi, p, d);
    DividedOrder(hi, 1.0, d);
    assert w == (w / d) * d;
    DividedOrder(hi, w / d, d);
  }

  /** The clamping to [0, 1] is never active, and the interval contains the observed share. */
  lemma IntervalOrdered(k: nat, n: nat, s: real)
    requires k <= n && n > 0 && IsRoot(s, Radicand(k, n))
    ensures Lo(k, n, s) == Centre(k, n) - HalfWidth(n, s) && Hi(k, n, s) == Centre(k, n) + HalfWidth(n, s)
    ensures 0.0 <= Lo(k, n, s) <= Share(k, n) <= Hi(k, n, s) <= 1.0
    ensures Hi(k, n, s) >= W(n) / (1.0 + W(n))
  {
    hide Radicand, Centre, HalfWidth, Share, Scaled;
    ToScaled(k, n, s);
    FromScaled(k, n, s);
    ScaledInterval(Share(k, n), W(n), Z * s);
  }

  /** The score test at level z: a loss rate `x` is compatible with k losses in n. */
  ghost predicate Compatible(k: nat, n: nat, x: real)
    requires n > 0
  {
    (Share(k, n) - x) * (Share(k, n) - x) <= W(n) * x * (1.0 - x)
  }

  lemma ScaledScoreTest(p: real, w: real, t: real, x: real)
    requires Scaled(p, w, t)
    ensures (p - x) * (p - x) <= w * x * (1.0 - x)
            <==> (p + w / 2.0 - t) / (1.0 + w) <= x <= (p + w / 2.0 + t) / (1.0 + w)
  {
    var a, b, d := p + w / 2.0 - t, p + w / 2.0 + t, 1.0 + w;
    assert a + b == 2.0 * (p + w / 2.0) && b - a == 2.0 * t >= 0.0;
    ScoreProduct(p, w, t, x);
    ProductSign(x * d - a, b - x * d);
    DividedOrder(a, x, d);
    DividedOrder(b, x, d);
  }

  /** The interval is the inversion of the score test: it holds exactly the compatible rates. */
  lemma ScoreTestInverted(k: nat, n: nat, s: real, x: real)
    requires k <= n && n > 0 && IsRoot(s, Radicand(k, n))
    ensures Compatible(k, n, x) <==> Lo(k, n, s) <= x <= Hi(k, n, s)
  {
    hide Radicand, Centre, HalfWidth, Share, Scaled, W, Lo, Hi;
    ToScaled(k, n, s);
    FromScaled(k, n, s);
    IntervalOrdered(k, n, s);
    ScaledScoreTest(Share(k, n), W(n), Z * s, x);
  }

  lemma ScoreProduct(p: real, w: real, t: real, x: real)
    requires Scaled(p, w, t)
    ensures (x * (1.0 + w) - (p + w / 2.0 - t)) * ((p + w / 2.0 + t) - x * (1.0 + w))
            == (1.0 + w) * (w * x * (1.0 - x) - (p - x) * (p - x))
    ensures (x * (1.0 + w) - (p + w / 2.0 - t)) * ((p + w / 2.0 + t) - x * (1.0 + w)) >= 0.0
            <==> (p - x) * (p - x) <= w * x * (1.0 - x)
  {
    var m, y := p + w / 2.0, x * (1.0 + w);
    assert (y - (m - t)) * ((m + t) - y) == t * t - (y - m) * (y - m);
    assert (y - m) * (y - m) == x * x * (1.0 + w) * (1.0 + w) - x * (1.0 + w) * (2.0 * p + w) + m * m;
    var g := w * x * (1.0 - x) - (p - x) * (p - x);
    assert (1.0 + w) * g >= 0.0 <==> g >= 0.0 by {
      if g >= 0.0 { assert (1.0 + w) * g >= 0.0; } else { assert (1.0 + w) * g < 0.0; }
    }
  }

  lemma ProductSign(u: real, v: real)
    requires u + v >= 0.0
    ensures u * v >= 0.0 <==> u >= 0.0 && v >= 0.0
  {
    if u < 0.0 { assert v > 0.0 && u * v < 0.0; }
    else if v < 0.0 { assert u > 0.0 && u * v < 0.0; }
  }

  // ---- the second algebraic form ------------------------------------------------------

  function Radicand2(k: nat, n: nat): real
    requires n > 0
  {
    var p := Share(k, n);
    (p * (1.0 - p) + Z * Z / (4.0 * n as real)) / n as real
  }

  function Centre2(k: nat, n: nat): real
    requires n > 0
  {
    var z2 := Z * Z;
    (Share(k, n) + z2 / (2.0 * n as real)) / (1.0 + z2 / n as real)
  }

  function HalfWidth2(n: nat, s: real): real
    requires n > 0
  {
    (Z * s) / (1.0 + Z * Z / n as real)
  }

  datatype Bounds = Bounds(lo: real, hi: real)

  function Interval2(k: nat, n: nat, s: real): Bounds {
    if n == 0 then Bounds(0.0, 0.0)
    else Bounds(Fixed2(100.0 * Max(0.0, Centre2(k, n) - HalfWidth2(n, s))),
                Fixed2(100.0 * Min(1.0, Centre2(k, n) + HalfWidth2(n, s))))
  }

  lemma RadicandsAgree(k: nat, n: nat)
    requires n > 0
    ensures Radicand2(k, n) == Radicand(k, n)
  {
    var p, m := Share(k, n), n as real;
    var u := p * (1.0 - p);
    assert (u + Z * Z / (4.0 * m)) / m == u / m + (Z * Z / (4.0 * m)) / m;
    assert (Z * Z / (4.0 * m)) / m == Z * Z / (4.0 * m * m);
  }

  /** A number has at most one non-negative root. */
  lemma RootUnique(s: real, t: real, x: real)
    requires IsRoot(s, x) && IsRoot(t, x)
    ensures s == t
  {
    SquaresOrder(s, t);
    SquaresOrder(t, s);
  }

  /** Whatever root each form takes of its own radicand, both print the same bounds. */
  lemma FormsAgree(k: nat, n: nat, s: real, t: real)
    requires n > 0 ==> IsRoot(s, Radicand(k, n)) && IsRoot(t, Radicand2(k, n))
    ensures Interval2(k, n, t) == Bounds(Interval(k, n, s).lo, Interval(k, n, s).hi)
  {
    hide Fixed2, Radicand, Radicand2, IsRoot, Share;
    if n > 0 {
      RadicandsAgree(k, n);
      RootUnique(s, t, Radicand(k, n));
    }
  }

  // ---- the power threshold --------------------------------------------------------------

  function ZeroRoot(n: nat): real
    requires n > 0
  {
    Z / (2.0 * n as real)
  }

  lemma SquaredQuotient(q: real, x: real, y: real)
    requires y > 0.0 && q * y == x
    ensures q * q == x * x / (y * y)
  {
    var bottom := y * y;
    assert bottom > 0.0 by { ProductPositive(y, y, bottom); }
    assert q * q * bottom == x * x by { SquareOfProduct(q, y, x); }
    QuotientUnique(q * q, x * x, bottom);
  }

  lemma SquareOfProduct(q: real, y: real, x: real)
    requires q * y == x
    ensures (q * q) * (y * y) == x * x
  {
    assert (q * q) * (y * y) == q * (x * y);
    assert q * (x * y) == x * x;
  }

  lemma ProductPositive(x: real, y: real, product: real)
    requires x > 0.0 && y > 0.0 && product == x * y
    ensures product > 0.0
  {
    PositiveFactor(x, y);
  }

  lemma QuotientUnique(q: real, x: real, y: real)
    requires y > 0.0 && q * y == x
    ensures q == x / y
  {
  }

  lemma ZeroLoss(n: nat)
    requires n > 0
    ensures IsRoot(ZeroRoot(n), Radicand(0, n))
    ensures Hi(0, n, ZeroRoot(n)) == W(n) / (1.0 + W(n)) == Z * Z / (n as real + Z * Z)
  {
    var m, s := n as real, ZeroRoot(n);
    SquaredQuotient(s, Z, 2.0 * m);
    IntervalOrdered(0, n, s);
    FromScaled(0, n, s);
    assert Z * s == W(n) / 2.0;
    assert W(n) * m == Z * Z && (1.0 + W(n)) * m == m + Z * Z;
    var h := W(n) / (1.0 + W(n));
    assert h * (1.0 + W(n)) == W(n);
    assert h * (m + Z * Z) == Z * Z by { assert h * ((1.0 + W(n)) * m) == (h * (1.0 + W(n))) * m; }
  }

  lemma FixedMonotone(x: real, y: real)
    requires x <= y
    ensures Fixed2(x) <= Fixed2(y)
  {
    assert (x * 100.0 + 0.5).Floor <= (y * 100.0 + 0.5).Floor;
  }

  lemma FixedBelow(x: real, limit: int)
    ensures Fixed2(x) < limit as real / 100.0 <==> x * 100.0 + 0.5 < limit as real
  {
    var f := (x * 100.0 + 0.5).Floor;
    assert f < limit <==> x * 100.0 + 0.5 < limit as real;
  }

  const ADEQUATE: nat := 125

  lemma ZeroLossBelowThree(n: nat)
    requires n > 0
    ensures Interval(0, n, ZeroRoot(n)).hi < 3.0 <==> n >= ADEQUATE
  {
    ZeroLoss(n);
    var m := n as real + Z * Z;
    var h := Z * Z / m;
    assert h * m == Z * Z;
    FixedBelow(100.0 * h, 300);
    assert h * 10000.0 < 299.5 <==> Z * Z * 10000.0 < 299.5 * m by {
      if h * 10000.0 < 299.5 { assert h * 10000.0 * m < 299.5 * m; }
      else { assert h * 10000.0 * m >= 299.5 * m; }
    }
  }

  /** The loop that finds the least sample size at which zero losses already rule out three percent. */
  method FindAdequate() returns (n: nat)
    ensures n == ADEQUATE
    ensures forall m :: 1 <= m < n ==> Interval(0, m, ZeroRoot(m)).hi >= 3.0
    ensures Interval(0, n, ZeroRoot(n)).hi < 3.0
  {
    n := 1;
    ZeroLossBelowThree(1);
    while Interval(0, n, ZeroRoot(n)).hi >= 3.0
      invariant 1 <= n <= ADEQUATE
      invariant forall m :: 1 <= m < n ==> Interval(0, m, ZeroRoot(m)).hi >= 3.0
      decreases ADEQUATE - n
    {
      ZeroLossBelowThree(n);
      n := n + 1;
    }
    ZeroLossBelowThree(n);
  }

  /** Fewer than the threshold can never show a rounded upper bound under three percent. */
  lemma NarrowMeansPowered(k: nat, n: nat, s: real)
    requires k <= n && n > 0 && IsRoot(s, Radicand(k, n))
    ensures Interval(k, n, s).hi < 3.0 ==> n >= ADEQUATE
  {
    IntervalOrdered(k, n, s);
    ZeroLoss(n);
    FixedMonotone(100.0 * Hi(0, n, ZeroRoot(n)), 100.0 * Hi(k, n, s));
    ZeroLossBelowThree(n);
  }

  lemma FixedNear(x: real)
    ensures x - 0.005 < Fixed2(x) <= x + 0.005
  {
    var f := (x * 100.0 + 0.5).Floor;
    assert x * 100.0 - 0.5 < f as real <= x * 100.0 + 0.5;
  }

  /** The printed share and bounds are the exact ones in percent, to half a hundredth. */
  lemma PrintedNear(k: nat, n: nat, s: real)
    requires k <= n && n > 0
    ensures var i := Interval(k, n, s);
            && -0.005 < i.est - 100.0 * Share(k, n) <= 0.005
            && -0.005 < i.lo - 100.0 * Lo(k, n, s) <= 0.005 && -0.005 < i.hi - 100.0 * Hi(k, n, s) <= 0.005
    ensures Interval(0, 0, s) == Percent(0.0, 0.0, 0.0)
  {
    FixedNear(100.0 * Share(k, n));
    FixedNear(100.0 * Lo(k, n, s));
    FixedNear(100.0 * Hi(k, n, s));
    hide Fixed2, Share, Lo, Hi;
    var i := Interval(k, n, s);
    assert -0.005 < i.est - 100.0 * Share(k, n) <= 0.005;
  }

  /** What the rounded comparisons with three percent say about the unrounded interval. */
  lemma RoundedComparisons(k: nat, n: nat, s: real)
    requires k <= n && n > 0
    ensures Interval(k, n, s).hi < 3.0 <==> Hi(k, n, s) < 0.02995
    ensures Interval(k, n, s).lo > 3.0 <==> Lo(k, n, s) >= 0.03005
  {
    FixedBelow(100.0 * Hi(k, n, s), 300);
    FixedBelow(100.0 * Lo(k, n, s), 301);
    var f := (100.0 * Lo(k, n, s) * 100.0 + 0.5).Floor;
    assert f as real / 100.0 > 3.0 <==> f >= 301;
  }
}
