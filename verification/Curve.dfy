/**
 Curve parameters (core/src/manifest.cpp): checking control points and evaluating the piecewise linear
 or Fritsch-Carlson curve through them. Numbers are reals; the square root is a parameter of which only
 its defining property is used.

 The limiter rescales slopes shared by two neighbouring segments, left to right, in place. `Limited`
 describes that loop; `SlopesBounded` is what it achieves: at the end both normalised slopes of every
 segment lie between 0 and 3. On that square the normalised cubic is a mix of four monotone cubics.
 */
module Curve {
  import opened Outcomes
  import opened CurveShapes
  import opened Graphs
  import opened Squaring

  /** What the control points of a curve must satisfy. */
  predicate ValidCurve(pts: seq<Point>, lim: Limits) {
    && |pts| >= 2
    && (forall i | 0 <= i < |pts| :: 0.0 <= pts[i].x <= 1.0 && InLimits(pts[i].y, lim))
    && (forall i, j | 0 <= i < j < |pts| :: pts[i].x < pts[j].x)
  }

  lemma BadPoint(pts: seq<Point>, lim: Limits, i: nat)
    requires i < |pts|
    requires !(0.0 <= pts[i].x <= 1.0) || (i > 0 && pts[i].x <= pts[i - 1].x) || !InLimits(pts[i].y, lim)
    ensures !ValidCurve(pts, lim)
  {
    assert i > 0 ==> (pts[i].x <= pts[i - 1].x <==> !(pts[i - 1].x < pts[i].x));
  }

  /** The core's check of a curve value, one control point after another. */
  method CheckCurveValue(v: Json, lim: Limits) returns (ok: bool)
    ensures ok <==> CurveShape(v) && ValidCurve(PointsOf(v), lim)
  {
    if !v.Obj? || (exists k <- v.fields :: k != "points" && k != "interp") {
      return false;
    }
    if "interp" in v.fields && !(v.fields["interp"] == Str("linear") || v.fields["interp"] == Str("smooth")) {
      return false;
    }
    if "points" !in v.fields || !v.fields["points"].Arr? || |v.fields["points"].items| < 2 {
      return false;
    }
    var items := v.fields["points"].items;
    var prevX := 0.0;
    for i := 0 to |items|
      invariant forall k | 0 <= k < i :: IsPoint(items[k])
      invariant forall k | 0 <= k < i :: 0.0 <= PointOf(items[k]).x <= 1.0 && InLimits(PointOf(items[k]).y, lim)
      invariant forall j, k | 0 <= j < k < i :: PointOf(items[j]).x < PointOf(items[k]).x
      invariant i > 0 ==> prevX == PointOf(items[i - 1]).x
    {
      if !IsPoint(items[i]) {
        assert items[i] in items;
        return false;
      }
      var x, y := items[i].items[0].n, items[i].items[1].n;
      if x < 0.0 || x > 1.0 || (i > 0 && !(x > prevX))
         || (lim.min.Some? && y < lim.min.value) || (lim.max.Some? && y > lim.max.value)
      {
        if CurveShape(v) { BadPoint(PointsOf(v), lim, i); }
        return false;
      }
      prevX := x;
    }
    return true;
  }

  // ---------------------------------------------------------------- slopes

  ghost predicate Ascending(pts: seq<Point>) {
    && |pts| >= 2
    && (forall i, j | 0 <= i < j < |pts| :: pts[i].x < pts[j].x)
  }

  ghost predicate IsRoot(root: real -> real) {
    forall s: real | s > 0.0 :: root(s) > 0.0 && root(s) * root(s) == s
  }

  function Delta(pts: seq<Point>, i: nat): real
    requires Ascending(pts) && i + 1 < |pts|
  {
    (pts[i + 1].y - pts[i].y) / (pts[i + 1].x - pts[i].x)
  }

  /** The slope at a control point before limiting. */
  function Slope(pts: seq<Point>, i: nat): real
    requires Ascending(pts) && i < |pts|
  {
    if i == 0 then Delta(pts, 0)
    else if i == |pts| - 1 then Delta(pts, i - 1)
    else if Delta(pts, i - 1) * Delta(pts, i) <= 0.0 then 0.0
    else (Delta(pts, i - 1) + Delta(pts, i)) / 2.0
  }

  /** The slopes at the two ends of a segment whose secant slope is `d`, after its turn in the limiter. */
  function LimitedPair(d: real, m0: real, m1: real, root: real -> real): (real, real)
    requires IsRoot(root)
  {
    if d == 0.0 then (0.0, 0.0) else PressedPair(d, m0, m1, m0 / d, m1 / d, root)
  }

  /** Presses the pair of ratios into the circle of radius 3. */
  function PressedPair(d: real, m0: real, m1: real, a: real, b: real, root: real -> real): (real, real)
    requires IsRoot(root)
  {
    var s := a * a + b * b;
    if s > 9.0 then (Scaled(a, d, root(s)), Scaled(b, d, root(s))) else (m0, m1)
  }

  /** The slope of ratio `a`, when a pair of ratios of length `r` is scaled to length 3. */
  function Scaled(a: real, d: real, r: real): real
    requires r > 0.0
  {
    var tau := 3.0 / r;
    tau * a * d
  }

  /** The slopes after the limiter has passed the first `i` segments. */
  function Limited(pts: seq<Point>, root: real -> real, i: nat): (m: seq<real>)
    requires Ascending(pts) && i < |pts| && IsRoot(root)
    ensures |m| == |pts|
  {
    if i == 0 then seq(|pts|, k requires 0 <= k < |pts| => Slope(pts, k))
    else
      var m := Limited(pts, root, i - 1);
      var pair := LimitedPair(Delta(pts, i - 1), m[i - 1], m[i], root);
      m[i - 1 := pair.0][i := pair.1]
  }

  // ---------------------------------------------------------------- what the limiter achieves

  /** `m` is `t` times `d` for some `t` between 0 and 3. */
  ghost predicate Tame(m: real, d: real) {
    if d >= 0.0 then 0.0 <= m <= 3.0 * d else 3.0 * d <= m <= 0.0
  }

  /** `m` does not point against `d`, and is level where `d` is. */
  ghost predicate Along(m: real, d: real) {
    (d >= 0.0 ==> m >= 0.0) && (d <= 0.0 ==> m <= 0.0)
  }

  /** `r` lies between 0 and `m`. */
  ghost predicate Shrunk(r: real, m: real) {
    (0.0 <= r <= m) || (m <= r <= 0.0)
  }

  /** If `a*a <= r*r` then `a <= r`. */
  lemma SquareBound(a: real, r: real)
    requires r > 0.0 && a * a <= r * r
    ensures a <= r
  {
    if a > r { StrictSquare(a, r); }
  }

  lemma StrictSquare(a: real, r: real)
    requires 0.0 < r < a
    ensures a * a > r * r
  {
    assert a * a - r * r == (a - r) * (a + r);
  }

  /** Multiplying both sides of an inequality by a non-negative number. */
  lemma Scale(a: real, b: real, c: real)
    requires a >= b && c >= 0.0
    ensures a * c >= b * c
  {
    assert (a - b) * c >= 0.0;
  }

  lemma LimiterTames(d: real, m0: real, m1: real, root: real -> real)
    requires IsRoot(root) && Along(m0, d) && Along(m1, d)
    ensures var p := LimitedPair(d, m0, m1, root);
            Tame(p.0, d) && Tame(p.1, d) && Shrunk(p.0, m0) && Shrunk(p.1, m1)
  {
    if d != 0.0 {
      RatioSign(m0, d);
      RatioSign(m1, d);
      PressedTames(d, m0, m1, m0 / d, m1 / d, root);
    }
  }

  lemma PressedTames(d: real, m0: real, m1: real, a: real, b: real, root: real -> real)
    requires IsRoot(root) && a >= 0.0 && b >= 0.0 && a * d == m0 && b * d == m1
    requires Along(m0, d) && Along(m1, d)
    ensures var p := PressedPair(d, m0, m1, a, b, root);
            Tame(p.0, d) && Tame(p.1, d) && Shrunk(p.0, m0) && Shrunk(p.1, m1)
  {
    var s := a * a + b * b;
    if s > 9.0 {
      var r := RootOf(root, s);
      LongPair(a, b, s, r);
      Tamed(m0, a, d, r);
      Tamed(m1, b, d, r);
    } else {
      PartOfSum(a, b, s);
      Kept(m0, a, d);
      Kept(m1, b, d);
    }
  }

  lemma RootOf(root: real -> real, s: real) returns (r: real)
    requires IsRoot(root) && s > 0.0
    ensures r == root(s) && r > 0.0 && r * r == s
  {
    r := root(s);
  }

  lemma LongPair(a: real, b: real, s: real, r: real)
    requires s == a * a + b * b && s > 9.0 && r > 0.0 && r * r == s
    ensures 3.0 <= r && a <= r && b <= r
  {
    PartOfSum(a, b, s);
    SquareBound(3.0, r);
    SquareBound(a, r);
    SquareBound(b, r);
  }

  lemma PartOfSum(a: real, b: real, s: real)
    requires s == a * a + b * b
    ensures a * a <= s && b * b <= s
  {}

  lemma RatioSign(m: real, d: real)
    requires d != 0.0 && Along(m, d)
    ensures m / d >= 0.0 && m / d * d == m
  {
    var a := m / d;
    assert a * d == m;
    if a < 0.0 && d > 0.0 { SignOfProduct(d, a); }
    if a < 0.0 && d < 0.0 { SignOfProduct(-d, a); }
  }

  /** A ratio within the circle of radius 3 is left alone. */
  lemma Kept(m: real, a: real, d: real)
    requires a * d == m && 0.0 <= a && a * a <= 9.0
    ensures Tame(m, d)
  {
    SquareBound(a, 3.0);
    TameByRatio(a, d);
  }

  /** A ratio that is part of a pair of length `r`, scaled to a pair of length 3. */
  lemma Tamed(m: real, a: real, d: real, r: real)
    requires a * d == m && 0.0 <= a <= r && 3.0 <= r
    ensures Tame(Scaled(a, d, r), d) && Shrunk(Scaled(a, d, r), m)
  {
    Ratio(a, r, 3.0 / r);
    TameByRatio(3.0 / r * a, d);
    ShrunkByRatio(3.0 / r * a, a, d);
  }

  lemma TameByRatio(a: real, d: real)
    requires 0.0 <= a <= 3.0
    ensures Tame(a * d, d)
  {
    if d >= 0.0 { Scale(3.0, a, d); } else { Scale(3.0, a, -d); }
  }

  lemma ShrunkByRatio(b: real, a: real, d: real)
    requires 0.0 <= b <= a
    ensures Shrunk(b * d, a * d)
  {
    if d >= 0.0 { Scale(a, b, d); } else { Scale(a, b, -d); }
  }

  lemma Ratio(a: real, r: real, t: real)
    requires 0.0 <= a <= r && 3.0 <= r && t * r == 3.0
    ensures 0.0 <= t * a <= 3.0 && t * a <= a
  {
    assert 0.0 <= t;
    if t > 1.0 { Scale(t, 1.0, r); }
    Scale(r, a, t);
    Scale(1.0, t, a);
  }

  lemma ShrunkKeeps(r: real, m: real, d: real)
    requires Shrunk(r, m)
    ensures Tame(m, d) ==> Tame(r, d)
    ensures Along(m, d) ==> Along(r, d)
  {}

  ghost predicate SlopesAlong(pts: seq<Point>, m: seq<real>)
    requires Ascending(pts)
  {
    && |m| == |pts|
    && (forall i | 0 <= i < |pts| - 1 :: Along(m[i], Delta(pts, i)) && Along(m[i + 1], Delta(pts, i)))
  }

  ghost predicate SlopesTame(pts: seq<Point>, m: seq<real>, n: nat)
    requires Ascending(pts) && n < |pts|
  {
    && |m| == |pts|
    && (forall i | 0 <= i < n :: Tame(m[i], Delta(pts, i)) && Tame(m[i + 1], Delta(pts, i)))
  }

  lemma SlopeIsAlong(pts: seq<Point>, i: nat)
    requires Ascending(pts) && i < |pts|
    ensures i > 0 ==> Along(Slope(pts, i), Delta(pts, i - 1))
    ensures i + 1 < |pts| ==> Along(Slope(pts, i), Delta(pts, i))
  {
    if 0 < i < |pts| - 1 {
      var d, e := Delta(pts, i - 1), Delta(pts, i);
      assert d * e > 0.0 ==> (d > 0.0 && e > 0.0) || (d < 0.0 && e < 0.0);
    }
  }

  /** Later segments only shrink what earlier ones have tamed. */
  lemma {:induction false} LimiterProgress(pts: seq<Point>, root: real -> real, n: nat)
    requires Ascending(pts) && IsRoot(root) && n < |pts|
    ensures SlopesAlong(pts, Limited(pts, root, n)) && SlopesTame(pts, Limited(pts, root, n), n)
  {
    if n == 0 {
      var m := Limited(pts, root, 0);
      forall i | 0 <= i < |pts| - 1
        ensures Along(m[i], Delta(pts, i)) && Along(m[i + 1], Delta(pts, i))
      {
        SlopeIsAlong(pts, i);
        SlopeIsAlong(pts, i + 1);
      }
    } else {
      LimiterProgress(pts, root, n - 1);
      var m, m' := Limited(pts, root, n - 1), Limited(pts, root, n);
      LimiterTames(Delta(pts, n - 1), m[n - 1], m[n], root);
      forall i, d | 0 <= i < |pts|
        ensures Tame(m[i], d) ==> Tame(m'[i], d)
        ensures Along(m[i], d) ==> Along(m'[i], d)
      {
        if i == n - 1 || i == n { ShrunkKeeps(m'[i], m[i], d); }
      }
    }
  }

  /** When the limiter is done, every segment has both its slopes within [0, 3] of its secant slope. */
  lemma SlopesBounded(pts: seq<Point>, root: real -> real)
    requires Ascending(pts) && IsRoot(root)
    ensures SlopesTame(pts, Limited(pts, root, |pts| - 1), |pts| - 1)
  {
    LimiterProgress(pts, root, |pts| - 1);
  }

  // ---------------------------------------------------------------- the cubic on one segment

  function Hermite(y0: real, y1: real, m0: real, m1: real, h: real, t: real): real {
    var t2 := t * t;
    var t3 := t2 * t;
    (2.0 * t3 - 3.0 * t2 + 1.0) * y0 + (t3 - 2.0 * t2 + t) * h * m0 +
    (-2.0 * t3 + 3.0 * t2) * y1 + (t3 - t2) * h * m1
  }

  function A(t: real): real { 3.0 * t * t - 2.0 * t * t * t }

  function Q(t: real): real { t * t * t - 2.0 * t * t + t }

  function R(t: real): real { t * t * t - t * t }

  /** The rise over a stretch, as a combination of three basis rises. */
  lemma HermiteRise(y0: real, d: real, m0: real, m1: real, h: real, s: real, t: real)
    ensures Hermite(y0, y0 + d * h, m0, m1, h, t) - Hermite(y0, y0 + d * h, m0, m1, h, s)
            == h * (d * (A(t) - A(s)) + m0 * (Q(t) - Q(s)) + m1 * (R(t) - R(s)))
  {
    HermiteForm(y0, d, m0, m1, h, s);
    HermiteForm(y0, d, m0, m1, h, t);
  }

  lemma HermiteForm(y0: real, d: real, m0: real, m1: real, h: real, t: real)
    ensures Hermite(y0, y0 + d * h, m0, m1, h, t) == y0 + h * (d * A(t) + m0 * Q(t) + m1 * R(t))
  {
    var t2 := t * t;
    var t3 := t2 * t;
    assert A(t) == 3.0 * t2 - 2.0 * t3;
    assert Q(t) == t3 - 2.0 * t2 + t;
    assert R(t) == t3 - t2;
    FormAlgebra(y0, d, m0, m1, h, t, t2, t3);
  }

  lemma FormAlgebra(y0: real, d: real, m0: real, m1: real, h: real, t: real, t2: real, t3: real)
    ensures (2.0 * t3 - 3.0 * t2 + 1.0) * y0 + (t3 - 2.0 * t2 + t) * h * m0 +
            (-2.0 * t3 + 3.0 * t2) * (y0 + d * h) + (t3 - t2) * h * m1
            == y0 + h * (d * (3.0 * t2 - 2.0 * t3) + m0 * (t3 - 2.0 * t2 + t) + m1 * (t3 - t2))
  {}

  /** The four extreme mixes of the basis are non-decreasing on [0, 1]. */
  lemma CornersRise(s: real, t: real)
    requires 0.0 <= s <= t <= 1.0
    ensures A(t) - A(s) >= 0.0
    ensures A(t) - A(s) + 3.0 * (Q(t) - Q(s)) >= 0.0
    ensures A(t) - A(s) + 3.0 * (R(t) - R(s)) >= 0.0
    ensures A(t) - A(s) + 3.0 * (Q(t) - Q(s)) + 3.0 * (R(t) - R(s)) >= 0.0
  {
    var c := t * t + t * s + s * s;
    BasisRise(s, t);
    QuadraticSigns(s, t);
    RiseFactors(t - s, t + s, c, A(t) - A(s), Q(t) - Q(s), R(t) - R(s));
  }

  lemma RiseFactors(g: real, b: real, c: real, a: real, q: real, r: real)
    requires g >= 0.0 && a == g * (3.0 * b - 2.0 * c) && q == g * (c - 2.0 * b + 1.0) && r == g * (c - b)
    requires 3.0 * b - 2.0 * c >= 0.0 && 3.0 - 3.0 * b + c >= 0.0 && c >= 0.0 && 4.0 * c - 6.0 * b + 3.0 >= 0.0
    ensures a >= 0.0 && a + 3.0 * q >= 0.0 && a + 3.0 * r >= 0.0 && a + 3.0 * q + 3.0 * r >= 0.0
  {
    NonNegative(g, 3.0 * b - 2.0 * c);
    NonNegative(g, 3.0 - 3.0 * b + c);
    NonNegative(g, c);
    NonNegative(g, 4.0 * c - 6.0 * b + 3.0);
    assert a + 3.0 * q == g * (3.0 - 3.0 * b + c);
    assert a + 3.0 * r == g * c;
    assert a + 3.0 * q + 3.0 * r == g * (4.0 * c - 6.0 * b + 3.0);
  }

  lemma BasisRise(s: real, t: real)
    ensures var c := t * t + t * s + s * s;
            && A(t) - A(s) == (t - s) * (3.0 * (t + s) - 2.0 * c)
            && Q(t) - Q(s) == (t - s) * (c - 2.0 * (t + s) + 1.0)
            && R(t) - R(s) == (t - s) * (c - (t + s))
  {}

  lemma QuadraticSigns(s: real, t: real)
    requires 0.0 <= s <= 1.0 && 0.0 <= t <= 1.0
    ensures var c := t * t + t * s + s * s;
            && 3.0 * (t + s) - 2.0 * c >= 0.0 && 3.0 - 3.0 * (t + s) + c >= 0.0
            && c >= 0.0 && 4.0 * c - 6.0 * (t + s) + 3.0 >= 0.0
  {
    var c := t * t + t * s + s * s;
    UnitProduct(t, t);
    UnitProduct(s, s);
    UnitProduct(t, s);
    UnitQuadratic(t * t, t * s, s * s, t, s);
    var u, v := 1.0 - s, 1.0 - t;
    UnitProduct(u, u);
    UnitProduct(v, v);
    UnitProduct(u, v);
    assert u * u + u * v + v * v == 3.0 - 3.0 * (t + s) + c;
    QuadraticForm(2.0 * t - 1.0, 2.0 * s - 1.0);
  }

  lemma UnitProduct(a: real, b: real)
    requires 0.0 <= a <= 1.0 && 0.0 <= b <= 1.0
    ensures 0.0 <= a * b <= a && a * b <= b
  {
    Scale(1.0, b, a);
    Scale(1.0, a, b);
  }

  lemma UnitQuadratic(tt: real, ts: real, ss: real, t: real, s: real)
    requires tt <= t && ts <= t && ts <= s && ss <= s
    ensures 3.0 * (t + s) - 2.0 * (tt + ts + ss) >= 0.0
  {}

  lemma QuadraticForm(p: real, q: real)
    ensures p * p + p * q + q * q >= 0.0
  {
    var h := p + q / 2.0;
    assert p * p + p * q + q * q == h * h + 0.75 * (q * q);
    assert h * h >= 0.0 && q * q >= 0.0;
  }

  lemma NonNegative(a: real, b: real)
    requires a >= 0.0 && b >= 0.0
    ensures a * b >= 0.0
  {}

  /** A rise that is non-negative at the four corners of a square of slopes is so inside it. */
  lemma InsideSquare(d: real, m0: real, m1: real, a: real, q: real, r: real)
    requires d >= 0.0 && 0.0 <= m0 <= 3.0 * d && 0.0 <= m1 <= 3.0 * d
    requires a >= 0.0 && a + 3.0 * q >= 0.0 && a + 3.0 * r >= 0.0 && a + 3.0 * q + 3.0 * r >= 0.0
    ensures d * a + m0 * q + m1 * r >= 0.0
  {
    var q', r' := if q < 0.0 then q else 0.0, if r < 0.0 then r else 0.0;
    assert m0 * q >= 3.0 * d * q' by {
      if q < 0.0 { Scale(3.0 * d, m0, -q); } else { NonNegative(m0, q); }
    }
    assert m1 * r >= 3.0 * d * r' by {
      if r < 0.0 { Scale(3.0 * d, m1, -r); } else { NonNegative(m1, r); }
    }
    NonNegative(d, a + 3.0 * q' + 3.0 * r');
  }

  lemma RiseAlong(d: real, m0: real, m1: real, a: real, q: real, r: real)
    requires Tame(m0, d) && Tame(m1, d)
    requires a >= 0.0 && a + 3.0 * q >= 0.0 && a + 3.0 * r >= 0.0 && a + 3.0 * q + 3.0 * r >= 0.0
    ensures Along(d * a + m0 * q + m1 * r, d)
  {
    if d >= 0.0 {
      InsideSquare(d, m0, m1, a, q, r);
    }
    if d <= 0.0 {
      InsideSquare(-d, -m0, -m1, a, q, r);
      Negated(d, a); Negated(m0, q); Negated(m1, r);
    }
  }

  lemma Negated(x: real, y: real)
    ensures -x * y == -(x * y)
  {}

  /** The rise of the cubic over a stretch, its three basis rises named. */
  lemma RiseParts(y0: real, d: real, m0: real, m1: real, h: real, s: real, t: real)
    returns (from: real, to: real, a: real, q: real, r: real)
    requires 0.0 <= s <= t <= 1.0
    ensures from == Hermite(y0, y0 + d * h, m0, m1, h, s) && to == Hermite(y0, y0 + d * h, m0, m1, h, t)
    ensures to - from == h * (d * a + m0 * q + m1 * r)
    ensures a >= 0.0 && a + 3.0 * q >= 0.0 && a + 3.0 * r >= 0.0 && a + 3.0 * q + 3.0 * r >= 0.0
  {
    hide Hermite, A, Q, R;
    from, to := Hermite(y0, y0 + d * h, m0, m1, h, s), Hermite(y0, y0 + d * h, m0, m1, h, t);
    HermiteRise(y0, d, m0, m1, h, s, t);
    a, q, r := BasisParts(s, t);
  }

  lemma BasisParts(s: real, t: real) returns (a: real, q: real, r: real)
    requires 0.0 <= s <= t <= 1.0
    ensures a == A(t) - A(s) && q == Q(t) - Q(s) && r == R(t) - R(s)
    ensures a >= 0.0 && a + 3.0 * q >= 0.0 && a + 3.0 * r >= 0.0 && a + 3.0 * q + 3.0 * r >= 0.0
  {
    a, q, r := A(t) - A(s), Q(t) - Q(s), R(t) - R(s);
    CornersRise(s, t);
  }

  /** Between tame slopes the cubic rises with its secant, or falls with it. */
  lemma CubicMonotone(y0: real, y1: real, m0: real, m1: real, h: real, s: real, t: real)
    requires h > 0.0 && 0.0 <= s <= t <= 1.0
    requires Tame(m0, (y1 - y0) / h) && Tame(m1, (y1 - y0) / h)
    ensures y0 <= y1 ==> Hermite(y0, y1, m0, m1, h, s) <= Hermite(y0, y1, m0, m1, h, t)
    ensures y0 >= y1 ==> Hermite(y0, y1, m0, m1, h, s) >= Hermite(y0, y1, m0, m1, h, t)
  {
    var d := (y1 - y0) / h;
    assert d * h == y1 - y0;
    var from, to, a, q, r := RiseParts(y0, d, m0, m1, h, s, t);
    RiseAlong(d, m0, m1, a, q, r);
    SameSign(h, d, d * a + m0 * q + m1 * r, from, to, y0, y1);
  }

  lemma SameSign(h: real, d: real, rise: real, from: real, to: real, y0: real, y1: real)
    requires h > 0.0 && Along(rise, d) && to - from == h * rise && y1 - y0 == d * h
    ensures y0 <= y1 ==> from <= to
    ensures y0 >= y1 ==> from >= to
  {
    SignOfProduct(h, rise);
    SignOfProduct(h, d);
  }

  lemma SignOfProduct(h: real, x: real)
    requires h > 0.0
    ensures x >= 0.0 <==> h * x >= 0.0
    ensures x <= 0.0 <==> h * x <= 0.0
  {}

  lemma HermiteEnds(y0: real, y1: real, m0: real, m1: real, h: real)
    ensures Hermite(y0, y1, m0, m1, h, 0.0) == y0
    ensures Hermite(y0, y1, m0, m1, h, 1.0) == y1
  {}

  // ---------------------------------------------------------------- the whole curve

  /** The segment a point strictly inside the curve belongs to, counting from segment `k`. */
  function SegmentFrom(pts: seq<Point>, x: real, k: nat): (r: nat)
    requires Ascending(pts) && k + 1 < |pts| && x < pts[|pts| - 1].x
    ensures k <= r && r + 1 < |pts| && x <= pts[r + 1].x
    ensures pts[k].x < x ==> pts[r].x < x
    decreases |pts| - k
  {
    if k + 2 < |pts| && x > pts[k + 1].x then SegmentFrom(pts, x, k + 1) else k
  }

  /** Segment `k` of the curve, as a function on all reals. */
  function Piece(pts: seq<Point>, smooth: bool, root: real -> real, k: nat, x: real): real
    requires Ascending(pts) && IsRoot(root) && k + 1 < |pts|
  {
    var h := pts[k + 1].x - pts[k].x;
    var t := (x - pts[k].x) / h;
    if smooth then
      var m := Limited(pts, root, |pts| - 1);
      Hermite(pts[k].y, pts[k + 1].y, m[k], m[k + 1], h, t)
    else
      Straight(pts[k].y, pts[k + 1].y, t)
  }

  function Straight(y0: real, y1: real, t: real): real {
    y0 + (y1 - y0) * t
  }

  ghost function CurveAt(pts: seq<Point>, smooth: bool, root: real -> real, x: real): real
    requires IsRoot(root)
  {
    if !ValidCurve(pts, NO_LIMITS) then 0.0
    else if x <= pts[0].x then pts[0].y
    else if x >= pts[|pts| - 1].x then pts[|pts| - 1].y
    else Piece(pts, smooth, root, SegmentFrom(pts, x, 0), x)
  }

  ghost predicate AreSecants(pts: seq<Point>, delta: seq<real>)
    requires Ascending(pts)
  {
    |delta| == |pts| - 1 && forall k | 0 <= k < |delta| :: delta[k] == Delta(pts, k)
  }

  method Secants(pts: seq<Point>) returns (delta: array<real>)
    requires Ascending(pts)
    ensures fresh(delta) && AreSecants(pts, delta[..])
  {
    var n := |pts|;
    delta := new real[n - 1];
    for i := 0 to n - 1
      invariant forall k | 0 <= k < i :: delta[k] == Delta(pts, k)
    {
      delta[i] := (pts[i + 1].y - pts[i].y) / (pts[i + 1].x - pts[i].x);
    }
  }

  method InitialSlopes(pts: seq<Point>, delta: array<real>, root: real -> real) returns (m: array<real>)
    requires Ascending(pts) && AreSecants(pts, delta[..]) && IsRoot(root)
    ensures fresh(m) && m[..] == Limited(pts, root, 0)
  {
    hide Delta;
    var n := |pts|;
    assert forall k | 0 <= k < n - 1 :: delta[k] == delta[..][k];
    m := new real[n];
    m[0] := delta[0];
    m[n - 1] := delta[n - 2];
    for i := 1 to n - 1
      invariant m[0] == Slope(pts, 0) && m[n - 1] == Slope(pts, n - 1)
      invariant forall k | 0 <= k < i :: m[k] == Slope(pts, k)
    {
      var (d, e) := (delta[i - 1], delta[i]);
      m[i] := if d * e <= 0.0 then 0.0 else (d + e) / 2.0;
      assert d == Delta(pts, i - 1) && e == Delta(pts, i);
    }
  }

  /** One turn of the limiter, in place. */
  method LimitSegment(m: array<real>, i: nat, d: real, root: real -> real)
    requires i + 1 < m.Length && IsRoot(root)
    modifies m
    ensures var pair := LimitedPair(d, old(m[i]), old(m[i + 1]), root);
            m[..] == old(m[..])[i := pair.0][i + 1 := pair.1]
  {
    if d == 0.0 {
      m[i] := 0.0;
      m[i + 1] := 0.0;
    } else {
      var a := m[i] / d;
      var b := m[i + 1] / d;
      ghost var pair := PressedPair(d, m[i], m[i + 1], a, b, root);
      assert LimitedPair(d, m[i], m[i + 1], root) == pair;
      var s := a * a + b * b;
      if s > 9.0 {
        var r := root(s);
        assert pair == (Scaled(a, d, r), Scaled(b, d, r));
        m[i] := Scaled(a, d, r);
        m[i + 1] := Scaled(b, d, r);
      }
    }
  }

  lemma LimitedNext(pts: seq<Point>, root: real -> real, i: nat, m: seq<real>, d: real)
    requires Ascending(pts) && IsRoot(root) && i + 1 < |pts|
    requires m == Limited(pts, root, i) && d == Delta(pts, i)
    ensures var pair := LimitedPair(d, m[i], m[i + 1], root);
            Limited(pts, root, i + 1) == m[i := pair.0][i + 1 := pair.1]
  {}

  /** The slopes, filled in and then limited in place from left to right. */
  method LimitedSlopes(pts: seq<Point>, root: real -> real) returns (m: array<real>)
    requires Ascending(pts) && IsRoot(root)
    ensures fresh(m) && m[..] == Limited(pts, root, |pts| - 1)
  {
    var delta := Secants(pts);
    m := InitialSlopes(pts, delta, root);
    for i := 0 to |pts| - 1
      invariant AreSecants(pts, delta[..])
      invariant m[..] == Limited(pts, root, i)
    {
      ghost var before := m[..];
      LimitedNext(pts, root, i, before, delta[..][i]);
      LimitSegment(m, i, delta[i], root);
    }
  }

  /** The value of a curve parameter: 0 unless its JSON is a curve. */
  ghost function CurveValue(v: Json, root: real -> real, x: real): real
    requires IsRoot(root)
  {
    if CurveShape(v) then CurveAt(PointsOf(v), IsSmooth(v), root, x) else 0.0
  }

  /** `y` stands at `x` on the broken line through the points, which goes on level at both ends. */
  ghost predicate OnBrokenLine(pts: seq<Point>, x: real, y: real)
    requires pts != []
  {
    && (x <= pts[0].x ==> y == pts[0].y)
    && (x >= pts[|pts| - 1].x ==> y == pts[|pts| - 1].y)
    && forall k | 0 <= k < |pts| - 1 && pts[k].x <= x <= pts[k + 1].x ::
         OnChord(pts[k].y, pts[k + 1].y, pts[k + 1].x - pts[k].x, x - pts[k].x, y)
  }

  /** Of a rise from `y0` to `y1` over a length `h`, `y` has at `u` the same part as `u` is of `h`. */
  predicate OnChord(y0: real, y1: real, h: real, u: real, y: real) {
    (y - y0) * h == (y1 - y0) * u
  }

  /** The value of a curve; of one that is not smooth, the place on its broken line; 0 for what is no curve. */
  method EvaluateCurve(v: Json, x: real, root: real -> real) returns (y: real)
    requires IsRoot(root)
    ensures y == CurveValue(v, root, x)
    ensures !(CurveShape(v) && ValidCurve(PointsOf(v), NO_LIMITS)) ==> y == 0.0
    ensures CurveShape(v) && ValidCurve(PointsOf(v), NO_LIMITS) && Field(v, "interp") != Some(Str("smooth")) ==>
              OnBrokenLine(PointsOf(v), x, y)
  {
    if CurveShape(v) && ValidCurve(PointsOf(v), NO_LIMITS) && !IsSmooth(v) { LinearValue(v, root, x); }
    hide CurveAt, CurveShape, ValidCurve, OnBrokenLine;
    var ok := CheckCurveValue(v, NO_LIMITS);
    if ok {
      y := EvaluatePoints(PointsOf(v), IsSmooth(v), x, root);
    } else {
      y := 0.0;
    }
  }

  method EvaluatePoints(pts: seq<Point>, smooth: bool, x: real, root: real -> real) returns (y: real)
    requires IsRoot(root) && ValidCurve(pts, NO_LIMITS)
    ensures y == CurveAt(pts, smooth, root, x)
  {
    hide Piece, SegmentFrom;
    var n := |pts|;
    if x <= pts[0].x {
      y := pts[0].y;
    } else if x >= pts[n - 1].x {
      y := pts[n - 1].y;
    } else {
      var k := FindSegment(pts, x);
      y := EvaluateSegment(pts, smooth, x, root, k);
    }
  }

  method FindSegment(pts: seq<Point>, x: real) returns (k: nat)
    requires Ascending(pts) && x < pts[|pts| - 1].x
    ensures k + 1 < |pts| && k == SegmentFrom(pts, x, 0)
  {
    k := 0;
    while k + 1 < |pts| && x > pts[k + 1].x
      invariant k + 1 < |pts| && SegmentFrom(pts, x, 0) == SegmentFrom(pts, x, k)
      decreases |pts| - k
    {
      k := k + 1;
    }
  }

  method EvaluateSegment(pts: seq<Point>, smooth: bool, x: real, root: real -> real, k: nat) returns (y: real)
    requires IsRoot(root) && Ascending(pts) && k + 1 < |pts|
    ensures y == Piece(pts, smooth, root, k, x)
  {
    hide Limited, Hermite;
    var h := pts[k + 1].x - pts[k].x;
    var t := (x - pts[k].x) / h;
    if !smooth {
      y := pts[k].y + (pts[k + 1].y - pts[k].y) * t;
    } else {
      var m := LimitedSlopes(pts, root);
      assert m[k] == m[..][k] && m[k + 1] == m[..][k + 1];
      y := Blend(pts[k].y, pts[k + 1].y, m[k], m[k + 1], h, t);
    }
  }

  method Blend(y0: real, y1: real, m0: real, m1: real, h: real, t: real) returns (y: real)
    ensures y == Hermite(y0, y1, m0, m1, h, t)
  {
    var t2 := t * t;
    var t3 := t2 * t;
    return (2.0 * t3 - 3.0 * t2 + 1.0) * y0 + (t3 - 2.0 * t2 + t) * h * m0 +
           (-2.0 * t3 + 3.0 * t2) * y1 + (t3 - t2) * h * m1;
  }

  // ---------------------------------------------------------------- what the curve promises

  lemma PieceEnds(pts: seq<Point>, smooth: bool, root: real -> real, k: nat)
    requires Ascending(pts) && IsRoot(root) && k + 1 < |pts|
    ensures Piece(pts, smooth, root, k, pts[k].x) == pts[k].y
    ensures Piece(pts, smooth, root, k, pts[k + 1].x) == pts[k + 1].y
  {
    var h := pts[k + 1].x - pts[k].x;
    assert h > 0.0;
    assert (pts[k].x - pts[k].x) / h == 0.0 && (pts[k + 1].x - pts[k].x) / h == 1.0;
    var m := Limited(pts, root, |pts| - 1);
    HermiteEnds(pts[k].y, pts[k + 1].y, m[k], m[k + 1], h);
  }

  lemma LinearMonotone(y0: real, y1: real, s: real, t: real)
    requires s <= t
    ensures y0 <= y1 ==> Straight(y0, y1, s) <= Straight(y0, y1, t)
    ensures y0 >= y1 ==> Straight(y0, y1, s) >= Straight(y0, y1, t)
  {
    if y0 <= y1 { NonNegative(y1 - y0, t - s); }
    if y0 >= y1 { NonNegative(y0 - y1, t - s); }
  }

  lemma UnitPosition(a: real, b: real, x: real, z: real)
    requires a < b && a <= x <= z <= b
    ensures 0.0 <= (x - a) / (b - a) <= (z - a) / (b - a) <= 1.0
  {
    RatioOrder(0.0, x - a, b - a);
    RatioOrder(x - a, z - a, b - a);
    RatioOrder(z - a, b - a, b - a);
    SelfRatio(b - a);
  }

  lemma SelfRatio(h: real)
    requires h > 0.0
    ensures h / h == 1.0 && 0.0 / h == 0.0
  {}

  lemma RatioOrder(p: real, q: real, h: real)
    requires p <= q && h > 0.0
    ensures p / h <= q / h
  {
    SignOfProduct(h, q / h - p / h);
    assert h * (q / h - p / h) == q - p;
  }

  lemma PieceMonotone(pts: seq<Point>, smooth: bool, root: real -> real, k: nat, x: real, z: real)
    requires Ascending(pts) && IsRoot(root) && k + 1 < |pts|
    requires pts[k].x <= x <= z <= pts[k + 1].x
    ensures pts[k].y <= pts[k + 1].y ==> Piece(pts, smooth, root, k, x) <= Piece(pts, smooth, root, k, z)
    ensures pts[k].y >= pts[k + 1].y ==> Piece(pts, smooth, root, k, x) >= Piece(pts, smooth, root, k, z)
  {
    hide Limited, Hermite, IsRoot, Straight;
    var h := pts[k + 1].x - pts[k].x;
    UnitPosition(pts[k].x, pts[k + 1].x, x, z);
    var s, t := (x - pts[k].x) / h, (z - pts[k].x) / h;
    if smooth {
      SlopesBounded(pts, root);
      var m := Limited(pts, root, |pts| - 1);
      CubicMonotone(pts[k].y, pts[k + 1].y, m[k], m[k + 1], h, s, t);
    } else {
      LinearMonotone(pts[k].y, pts[k + 1].y, s, t);
    }
  }

  lemma {:induction false} SegmentIs(pts: seq<Point>, x: real, k: nat, from: nat)
    requires Ascending(pts) && from <= k && k + 1 < |pts| && pts[k].x < x <= pts[k + 1].x && x < pts[|pts| - 1].x
    ensures SegmentFrom(pts, x, from) == k
    decreases k - from
  {
    if from < k { SegmentIs(pts, x, k, from + 1); }
  }

  /** On a closed segment the curve is its piece, whichever side the ends are taken from. */
  lemma CurveIsPiece(pts: seq<Point>, smooth: bool, root: real -> real, k: nat, x: real)
    requires ValidCurve(pts, NO_LIMITS) && IsRoot(root) && k + 1 < |pts|
    requires pts[k].x <= x <= pts[k + 1].x
    ensures CurveAt(pts, smooth, root, x) == Piece(pts, smooth, root, k, x)
  {
    PieceEnds(pts, smooth, root, k);
    if x == pts[k].x {
      if k > 0 {
        SegmentIs(pts, x, k - 1, 0);
        PieceEnds(pts, smooth, root, k - 1);
      }
    } else if x < pts[|pts| - 1].x {
      SegmentIs(pts, x, k, 0);
    }
  }

  /** The curve passes through every control point. */
  lemma CurveHitsPoints(pts: seq<Point>, smooth: bool, root: real -> real, i: nat)
    requires ValidCurve(pts, NO_LIMITS) && IsRoot(root) && i < |pts|
    ensures CurveAt(pts, smooth, root, pts[i].x) == pts[i].y
  {
    var k := if i == 0 then 0 else i - 1;
    CurveIsPiece(pts, smooth, root, k, pts[i].x);
    PieceEnds(pts, smooth, root, k);
  }

  /** On each segment the curve is monotone from one control point to the next and does not leave their range. */
  lemma SegmentMonotone(pts: seq<Point>, smooth: bool, root: real -> real, k: nat, x: real, z: real)
    requires ValidCurve(pts, NO_LIMITS) && IsRoot(root) && k + 1 < |pts|
    requires pts[k].x <= x <= z <= pts[k + 1].x
    ensures var (cx, cz) := (CurveAt(pts, smooth, root, x), CurveAt(pts, smooth, root, z));
            && (pts[k].y <= pts[k + 1].y ==> pts[k].y <= cx <= cz <= pts[k + 1].y)
            && (pts[k].y >= pts[k + 1].y ==> pts[k].y >= cx >= cz >= pts[k + 1].y)
  {
    PieceEnds(pts, smooth, root, k);
    PieceMonotone(pts, smooth, root, k, pts[k].x, x);
    PieceMonotone(pts, smooth, root, k, x, z);
    PieceMonotone(pts, smooth, root, k, z, pts[k + 1].x);
    CurveIsPiece(pts, smooth, root, k, x);
    CurveIsPiece(pts, smooth, root, k, z);
  }

  ghost predicate NonDecreasing(pts: seq<Point>) {
    forall i, j | 0 <= i < j < |pts| :: pts[i].y <= pts[j].y
  }

  /** The segment holding a point of the curve's domain. */
  function Home(pts: seq<Point>, x: real): (k: nat)
    requires Ascending(pts) && pts[0].x <= x <= pts[|pts| - 1].x
    ensures k + 1 < |pts| && pts[k].x <= x <= pts[k + 1].x
  {
    if x == pts[0].x then 0
    else if x == pts[|pts| - 1].x then |pts| - 2
    else SegmentFrom(pts, x, 0)
  }

  lemma WithinDomain(pts: seq<Point>, smooth: bool, root: real -> real, x: real, z: real)
    requires ValidCurve(pts, NO_LIMITS) && IsRoot(root) && NonDecreasing(pts)
    requires pts[0].x <= x <= z <= pts[|pts| - 1].x
    ensures CurveAt(pts, smooth, root, x) <= CurveAt(pts, smooth, root, z)
  {
    var j, k := Home(pts, x), Home(pts, z);
    if j < k {
      assert j + 1 < k ==> pts[j + 1].y <= pts[k].y;
      SegmentMonotone(pts, smooth, root, j, x, x);
      SegmentMonotone(pts, smooth, root, k, z, z);
    } else if j == k {
      SegmentMonotone(pts, smooth, root, k, x, z);
    } else {
      assert false;
    }
  }

  function Into(pts: seq<Point>, x: real): real
    requires Ascending(pts)
  {
    if x < pts[0].x then pts[0].x else if x > pts[|pts| - 1].x then pts[|pts| - 1].x else x
  }

  lemma ClampedEnds(pts: seq<Point>, smooth: bool, root: real -> real, x: real)
    requires ValidCurve(pts, NO_LIMITS) && IsRoot(root)
    ensures CurveAt(pts, smooth, root, x) == CurveAt(pts, smooth, root, Into(pts, x))
  {}

  /** Control points that never fall give a curve that never falls, on all reals, and stays within their range. */
  lemma CurveMonotone(pts: seq<Point>, smooth: bool, root: real -> real, x: real, z: real)
    requires ValidCurve(pts, NO_LIMITS) && IsRoot(root) && NonDecreasing(pts) && x <= z
    ensures pts[0].y <= CurveAt(pts, smooth, root, x) <= CurveAt(pts, smooth, root, z) <= pts[|pts| - 1].y
  {
    var (a, b) := (pts[0].x, pts[|pts| - 1].x);
    ClampedEnds(pts, smooth, root, x);
    ClampedEnds(pts, smooth, root, z);
    WithinDomain(pts, smooth, root, a, Into(pts, x));
    WithinDomain(pts, smooth, root, Into(pts, x), Into(pts, z));
    WithinDomain(pts, smooth, root, Into(pts, z), b);
  }

  /** Whatever the control points, no value of the curve lies outside the range they span. */
  lemma NoOvershoot(pts: seq<Point>, smooth: bool, root: real -> real, x: real, lo: real, hi: real)
    requires ValidCurve(pts, Limits(Some(lo), Some(hi))) && IsRoot(root)
    ensures lo <= CurveAt(pts, smooth, root, x) <= hi
  {
    ClampedEnds(pts, smooth, root, x);
    var w := Into(pts, x);
    var k := Home(pts, w);
    SegmentMonotone(pts, smooth, root, k, w, w);
  }

  // ---------------------------------------------------------------- straight between the points

  lemma StraightIsChord(y0: real, y1: real, h: real, u: real)
    requires h > 0.0
    ensures OnChord(y0, y1, h, u, Straight(y0, y1, u / h))
  {
    var t, dy := u / h, y1 - y0;
    assert t * h == u;
    assert dy * t * h == dy * (t * h);
  }

  lemma LinearOnSegment(pts: seq<Point>, root: real -> real, k: nat, x: real)
    requires ValidCurve(pts, NO_LIMITS) && IsRoot(root) && k + 1 < |pts| && pts[k].x <= x <= pts[k + 1].x
    ensures OnChord(pts[k].y, pts[k + 1].y, pts[k + 1].x - pts[k].x, x - pts[k].x, CurveAt(pts, false, root, x))
  {
    hide CurveAt, Straight, OnChord;
    CurveIsPiece(pts, false, root, k, x);
    StraightIsChord(pts[k].y, pts[k + 1].y, pts[k + 1].x - pts[k].x, x - pts[k].x);
  }

  lemma LinearOnLine(pts: seq<Point>, root: real -> real, x: real)
    requires ValidCurve(pts, NO_LIMITS) && IsRoot(root)
    ensures OnBrokenLine(pts, x, CurveAt(pts, false, root, x))
  {
    forall k | 0 <= k < |pts| - 1 && pts[k].x <= x <= pts[k + 1].x
      ensures OnChord(pts[k].y, pts[k + 1].y, pts[k + 1].x - pts[k].x, x - pts[k].x, CurveAt(pts, false, root, x))
    {
      LinearOnSegment(pts, root, k, x);
    }
    CurveHitsPoints(pts, false, root, |pts| - 1);
    hide Piece, SegmentFrom, ValidCurve;
  }

  /** Without "smooth" the curve runs straight from point to point. */
  lemma LinearValue(v: Json, root: real -> real, x: real)
    requires CurveShape(v) && ValidCurve(PointsOf(v), NO_LIMITS) && IsRoot(root)
    requires Field(v, "interp") != Some(Str("smooth"))
    ensures OnBrokenLine(PointsOf(v), x, CurveValue(v, root, x))
  {
    hide CurveShape, PointsOf, CurveAt, OnBrokenLine, ValidCurve;
    LinearOnLine(PointsOf(v), root, x);
  }

  // ---------------------------------------------------------------- smooth through the points

  /** A cubic without its constant term; `m` is its slope at 0. */
  function Rising(m: real, q: real, r: real, w: real): real {
    m * w + q * w * w + r * w * w * w
  }

  /** On segment `k` the curve is a cubic that passes control point `i` with slope `m`. */
  ghost predicate PassesWithSlope(v: Json, root: real -> real, k: nat, i: nat, m: real)
    requires CurveShape(v) && IsRoot(root) && k + 1 < |PointsOf(v)| && i < |PointsOf(v)|
  {
    exists q, r :: IsCubic(v, root, k, i, m, q, r)
  }

  ghost predicate IsCubic(v: Json, root: real -> real, k: nat, i: nat, m: real, q: real, r: real)
    requires CurveShape(v) && IsRoot(root) && k + 1 < |PointsOf(v)| && i < |PointsOf(v)|
  {
    var pts := PointsOf(v);
    forall x | pts[k].x <= x <= pts[k + 1].x :: CurveValue(v, root, x) == pts[i].y + Rising(m, q, r, x - pts[i].x)
  }

  lemma Terms(h: real, z: real, w: real, c1: real, c2: real, c3: real, q: real, r: real)
    requires z * h == w && q * h == c2 && r * h * h == c3
    ensures h * (c1 * z + c2 * z * z + c3 * z * z * z) == Rising(c1, q, r, w)
  {
    assert h * (c1 * z) == c1 * w;
    assert h * (c2 * z * z) == q * w * w by { assert c2 * z == q * w; }
    assert h * (c3 * z * z * z) == r * w * w * w by {
      assert c3 * z * z == r * w * w by { assert r * h * h * z * z == r * (z * h) * (z * h); }
      assert h * (c3 * z * z * z) == c3 * z * z * (z * h);
    }
  }

  /** The coefficients of a segment's cubic around its left end. */
  predicate FromLeft(h: real, d: real, m0: real, m1: real, q: real, r: real) {
    q * h == 3.0 * d - 2.0 * m0 - m1 && r * h * h == m0 + m1 - 2.0 * d
  }

  /** And around its right end. */
  predicate FromRight(h: real, d: real, m0: real, m1: real, q: real, r: real) {
    q * h == m0 + 2.0 * m1 - 3.0 * d && r * h * h == m0 + m1 - 2.0 * d
  }

  lemma AroundLeft(y0: real, y1: real, d: real, m0: real, m1: real, h: real, t: real, w: real, q: real, r: real)
    requires y1 == y0 + d * h && t * h == w && FromLeft(h, d, m0, m1, q, r)
    ensures Hermite(y0, y1, m0, m1, h, t) == y0 + Rising(m0, q, r, w)
  {
    HermiteForm(y0, d, m0, m1, h, t);
    ByPowers(d, m0, m1, t);
    Terms(h, t, w, m0, 3.0 * d - 2.0 * m0 - m1, m0 + m1 - 2.0 * d, q, r);
    hide Hermite, Rising, A, Q, R;
  }

  lemma ByPowers(d: real, m0: real, m1: real, t: real)
    ensures var c2, c3 := 3.0 * d - 2.0 * m0 - m1, m0 + m1 - 2.0 * d;
            d * A(t) + m0 * Q(t) + m1 * R(t) == m0 * t + c2 * t * t + c3 * t * t * t
  {}

  lemma ShiftedBasis(z: real)
    ensures A(1.0 + z) == 1.0 - 3.0 * (z * z) - 2.0 * (z * z * z)
    ensures Q(1.0 + z) == z * z + z * z * z && R(1.0 + z) == z + 2.0 * (z * z) + z * z * z
  {
    assert (1.0 + z) * (1.0 + z) == 1.0 + 2.0 * z + z * z;
    assert (1.0 + z) * (1.0 + z) * (1.0 + z) == 1.0 + 3.0 * z + 3.0 * (z * z) + z * z * z;
  }

  lemma HermiteFromRight(y0: real, d: real, m0: real, m1: real, h: real, z: real)
    ensures Hermite(y0, y0 + d * h, m0, m1, h, 1.0 + z) == y0 + d * h + RightTerms(d, m0, m1, h, z)
  {
    HermiteForm(y0, d, m0, m1, h, 1.0 + z);
    ShiftedBasis(z);
    hide Hermite, A, Q, R;
    Gathered(d, m0, m1, z, z * z, z * z * z);
    var c2, c3 := m0 + 2.0 * m1 - 3.0 * d, m0 + m1 - 2.0 * d;
    var g := m1 * z + c2 * z * z + c3 * z * z * z;
    assert c2 * z * z == c2 * (z * z) && c3 * z * z * z == c3 * (z * z * z);
    assert h * (d + g) == d * h + h * g;
  }

  function RightTerms(d: real, m0: real, m1: real, h: real, z: real): real {
    var c2, c3 := m0 + 2.0 * m1 - 3.0 * d, m0 + m1 - 2.0 * d;
    h * (m1 * z + c2 * z * z + c3 * z * z * z)
  }

  lemma AroundRight(y0: real, y1: real, d: real, m0: real, m1: real, h: real, t: real, w: real, q: real, r: real)
    requires y1 == y0 + d * h && t * h == w + h && FromRight(h, d, m0, m1, q, r)
    ensures Hermite(y0, y1, m0, m1, h, t) == y1 + Rising(m1, q, r, w)
  {
    var z := t - 1.0;
    assert z * h == w && 1.0 + z == t;
    Terms(h, z, w, m1, m0 + 2.0 * m1 - 3.0 * d, m0 + m1 - 2.0 * d, q, r);
    hide Hermite, Rising;
    HermiteFromRight(y0, d, m0, m1, h, z);
  }

  lemma Gathered(d: real, m0: real, m1: real, z: real, zz: real, zzz: real)
    ensures d * (1.0 - 3.0 * zz - 2.0 * zzz) + m0 * (zz + zzz) + m1 * (z + 2.0 * zz + zzz)
            == d + (m1 * z + (m0 + 2.0 * m1 - 3.0 * d) * zz + (m0 + m1 - 2.0 * d) * zzz)
  {}

  lemma PieceForm(pts: seq<Point>, root: real -> real, m: seq<real>, k: nat, x: real) returns (t: real)
    requires Ascending(pts) && IsRoot(root) && m == Limited(pts, root, |pts| - 1) && k + 1 < |pts|
    ensures t * (pts[k + 1].x - pts[k].x) == x - pts[k].x
    ensures Piece(pts, true, root, k, x)
            == Hermite(pts[k].y, pts[k + 1].y, m[k], m[k + 1], pts[k + 1].x - pts[k].x, t)
  {
    hide Hermite;
    t := (x - pts[k].x) / (pts[k + 1].x - pts[k].x);
    Undivided(x - pts[k].x, pts[k + 1].x - pts[k].x);
  }

  lemma SecantRise(pts: seq<Point>, k: nat)
    requires Ascending(pts) && k + 1 < |pts|
    ensures pts[k + 1].y == pts[k].y + Delta(pts, k) * (pts[k + 1].x - pts[k].x)
  {
    Undivided(pts[k + 1].y - pts[k].y, pts[k + 1].x - pts[k].x);
  }

  lemma Undivided(a: real, h: real)
    requires h > 0.0
    ensures a / h * h == a
  {}

  /** Around its left end segment `k` is the cubic with these coefficients. */
  lemma LeftCubic(pts: seq<Point>, root: real -> real, m: seq<real>, d: real, h: real, k: nat,
                  x: real, q: real, r: real)
    requires ValidCurve(pts, NO_LIMITS) && IsRoot(root) && m == Limited(pts, root, |pts| - 1)
    requires k + 1 < |pts| && pts[k].x <= x <= pts[k + 1].x
    requires d == Delta(pts, k) && h == pts[k + 1].x - pts[k].x
    requires FromLeft(h, d, m[k], m[k + 1], q, r)
    ensures CurveAt(pts, true, root, x) == pts[k].y + Rising(m[k], q, r, x - pts[k].x)
  {
    hide FromLeft, FromRight, Delta, Limited, CurveAt, Piece, Rising, Hermite;
    CurveIsPiece(pts, true, root, k, x);
    SecantRise(pts, k);
    var t := PieceForm(pts, root, m, k, x);
    hide *;
    AroundLeft(pts[k].y, pts[k + 1].y, d, m[k], m[k + 1], h, t, x - pts[k].x, q, r);
  }

  /** And so it is around its right end. */
  lemma RightCubic(pts: seq<Point>, root: real -> real, m: seq<real>, d: real, h: real, k: nat,
                  x: real, q: real, r: real)
    requires ValidCurve(pts, NO_LIMITS) && IsRoot(root) && m == Limited(pts, root, |pts| - 1)
    requires k + 1 < |pts| && pts[k].x <= x <= pts[k + 1].x
    requires d == Delta(pts, k) && h == pts[k + 1].x - pts[k].x
    requires FromRight(h, d, m[k], m[k + 1], q, r)
    ensures CurveAt(pts, true, root, x) == pts[k + 1].y + Rising(m[k + 1], q, r, x - pts[k + 1].x)
  {
    hide FromLeft, FromRight, Delta, Limited, CurveAt, Piece, Rising, Hermite;
    CurveIsPiece(pts, true, root, k, x);
    SecantRise(pts, k);
    var t := PieceForm(pts, root, m, k, x);
    hide *;
    AroundRight(pts[k].y, pts[k + 1].y, d, m[k], m[k + 1], h, t, x - pts[k + 1].x, q, r);
  }

  lemma Coefficients(c2: real, c3: real, h: real) returns (q: real, r: real)
    requires h > 0.0
    ensures q * h == c2 && r * h * h == c3
  {
    q, r := c2 / h, c3 / h / h;
    Undivided(c2, h);
    Undivided(c3, h);
    Undivided(c3 / h, h);
  }

  lemma LeftSlope(pts: seq<Point>, root: real -> real, m: seq<real>, k: nat) returns (q: real, r: real)
    requires ValidCurve(pts, NO_LIMITS) && IsRoot(root) && m == Limited(pts, root, |pts| - 1) && k + 1 < |pts|
    ensures forall x | pts[k].x <= x <= pts[k + 1].x ::
              CurveAt(pts, true, root, x) == pts[k].y + Rising(m[k], q, r, x - pts[k].x)
  {
    var d, h := Delta(pts, k), pts[k + 1].x - pts[k].x;
    q, r := Coefficients(3.0 * d - 2.0 * m[k] - m[k + 1], m[k] + m[k + 1] - 2.0 * d, h);
    hide Delta, CurveAt, Rising;
    forall x | pts[k].x <= x <= pts[k + 1].x
      ensures CurveAt(pts, true, root, x) == pts[k].y + Rising(m[k], q, r, x - pts[k].x)
    {
      LeftCubic(pts, root, m, d, h, k, x, q, r);
    }
  }

  lemma RightSlope(pts: seq<Point>, root: real -> real, m: seq<real>, k: nat) returns (q: real, r: real)
    requires ValidCurve(pts, NO_LIMITS) && IsRoot(root) && m == Limited(pts, root, |pts| - 1) && k + 1 < |pts|
    ensures forall x | pts[k].x <= x <= pts[k + 1].x ::
              CurveAt(pts, true, root, x) == pts[k + 1].y + Rising(m[k + 1], q, r, x - pts[k + 1].x)
  {
    var d, h := Delta(pts, k), pts[k + 1].x - pts[k].x;
    q, r := Coefficients(m[k] + 2.0 * m[k + 1] - 3.0 * d, m[k] + m[k + 1] - 2.0 * d, h);
    hide Delta, CurveAt, Rising;
    forall x | pts[k].x <= x <= pts[k + 1].x
      ensures CurveAt(pts, true, root, x) == pts[k + 1].y + Rising(m[k + 1], q, r, x - pts[k + 1].x)
    {
      RightCubic(pts, root, m, d, h, k, x, q, r);
    }
  }

  lemma SlopesOfSegment(v: Json, root: real -> real, m: seq<real>, k: nat)
    requires CurveShape(v) && ValidCurve(PointsOf(v), NO_LIMITS) && IsRoot(root) && IsSmooth(v)
    requires m == Limited(PointsOf(v), root, |PointsOf(v)| - 1) && k + 1 < |PointsOf(v)|
    ensures PassesWithSlope(v, root, k, k, m[k]) && PassesWithSlope(v, root, k, k + 1, m[k + 1])
  {
    var pts := PointsOf(v);
    hide CurveShape, PointsOf, CurveAt, Rising, ValidCurve, IsSmooth, Limited;
    var q, r := LeftSlope(pts, root, m, k);
    assert IsCubic(v, root, k, k, m[k], q, r);
    q, r := RightSlope(pts, root, m, k);
    assert IsCubic(v, root, k, k + 1, m[k + 1], q, r);
  }

  // ---------------------------------------------------------------- which slopes

  /** The slopes planned at the two ends of segment `k` are short enough against its secant slope. */
  ghost predicate Gentle(pts: seq<Point>, k: nat)
    requires Ascending(pts) && k + 1 < |pts|
  {
    Within(Slope(pts, k), Slope(pts, k + 1), Delta(pts, k))
  }

  /** The pair is at most three times as long as `d`. */
  predicate Within(m0: real, m1: real, d: real) {
    Square(m0) + Square(m1) <= 9.0 * Square(d)
  }

  lemma ShorterPositive(r: real, m: real)
    requires 0.0 <= r <= m
    ensures Square(r) <= Square(m)
  {
    Scale(m, r, m);
    Scale(m, r, r);
    assert r * m == m * r;
  }

  lemma NegatedSquare(a: real)
    ensures Square(-a) == Square(a)
  {}

  lemma ShorterSquare(r: real, m: real)
    requires Shrunk(r, m)
    ensures Square(r) <= Square(m)
  {
    hide Square;
    if m >= 0.0 {
      ShorterPositive(if r <= m then r else 0.0, m);
      SquareIsZero(0.0);
      if r < 0.0 || r > m { SquareIsZero(m); }
    } else {
      NegatedSquare(r);
      NegatedSquare(m);
      ShorterPositive(-r, -m);
    }
  }

  lemma SquareOfProduct(a: real, d: real)
    ensures Square(a * d) == Square(a) * Square(d)
  {
    assert (a * d) * (a * d) == (a * a) * (d * d);
  }

  lemma StrictScale(a: real, b: real, c: real)
    requires a > b && c > 0.0
    ensures a * c > b * c
  {
    assert (a - b) * c > 0.0;
  }

  /**
   A pair within three times the secant slope is left alone; any other is brought back to that length, its
   direction kept.
   */
  lemma LimiterPresses(d: real, m0: real, m1: real, root: real -> real)
    requires IsRoot(root)
    ensures var p := LimitedPair(d, m0, m1, root);
            if Within(m0, m1, d) then p == (m0, m1)
            else Square(p.0) + Square(p.1) == 9.0 * Square(d) && p.0 * m1 == p.1 * m0
  {
    if d == 0.0 {
      hide Square;
      SquareIsZero(d);
      SquareIsZero(m0);
      SquareIsZero(m1);
    } else {
      var a, b := m0 / d, m1 / d;
      assert a * d == m0 && b * d == m1;
      assert LimitedPair(d, m0, m1, root) == PressedPair(d, m0, m1, a, b, root);
      hide LimitedPair;
      Presses(d, a, b, root);
    }
  }

  lemma Presses(d: real, a: real, b: real, root: real -> real)
    requires IsRoot(root) && d != 0.0
    ensures var m0, m1 := a * d, b * d;
            var p := PressedPair(d, m0, m1, a, b, root);
            if Within(m0, m1, d) then p == (m0, m1)
            else Square(p.0) + Square(p.1) == 9.0 * Square(d) && p.0 * m1 == p.1 * m0
  {
    var s := a * a + b * b;
    assert s == Square(a) + Square(b);
    WithinIsRatio(a, b, d, s);
    hide Square, Scaled, Within;
    if s > 9.0 {
      var r := RootOf(root, s);
      OnCircle(a, b, s, r, d);
      assert PressedPair(d, a * d, b * d, a, b, root) == (Scaled(a, d, r), Scaled(b, d, r));
    }
  }

  lemma WithinIsRatio(a: real, b: real, d: real, s: real)
    requires d != 0.0 && s == Square(a) + Square(b)
    ensures Within(a * d, b * d, d) <==> s <= 9.0
  {
    SquareOfProduct(a, d);
    SquareOfProduct(b, d);
    NonzeroSquare(d);
    hide Square;
    assert Square(a * d) + Square(b * d) == s * Square(d);
    if s > 9.0 { StrictScale(s, 9.0, Square(d)); } else { Scale(9.0, s, Square(d)); }
  }

  lemma OnCircle(a: real, b: real, s: real, r: real, d: real)
    requires s == Square(a) + Square(b) && r > 0.0 && r * r == s
    ensures var x, y := Scaled(a, d, r), Scaled(b, d, r);
            Square(x) + Square(y) == 9.0 * Square(d) && x * (b * d) == y * (a * d)
  {
    var tau := 3.0 / r;
    assert tau * r == 3.0;
    assert Square(tau) * s == 9.0 by {
      SquareOfProduct(tau, r);
      assert Square(r) == s;
      assert Square(3.0) == 9.0;
    }
    SquareOfProduct(tau * a, d);
    SquareOfProduct(tau * b, d);
    SquareOfProduct(tau, a);
    SquareOfProduct(tau, b);
    assert tau * a * d * (b * d) == tau * b * d * (a * d);
    hide Square;
    assert Square(tau) * Square(a) + Square(tau) * Square(b) == Square(tau) * s;
  }

  /** The limiter never lengthens a slope, and does not touch those it has not come to. */
  lemma {:induction false} OnlyShortens(pts: seq<Point>, root: real -> real, n: nat, i: nat)
    requires Ascending(pts) && IsRoot(root) && n < |pts| && i < |pts|
    ensures var s := Limited(pts, root, n)[i]; Square(s) <= Square(Slope(pts, i)) && (i > n ==> s == Slope(pts, i))
  {
    hide Square, LimitedPair, Slope, Delta;
    if n > 0 {
      OnlyShortens(pts, root, n - 1, i);
      var m := Limited(pts, root, n - 1);
      LimiterProgress(pts, root, n - 1);
      LimiterTames(Delta(pts, n - 1), m[n - 1], m[n], root);
      var p := LimitedPair(Delta(pts, n - 1), m[n - 1], m[n], root);
      ShorterSquare(p.0, m[n - 1]);
      ShorterSquare(p.1, m[n]);
    }
  }

  /** A slope between gentle segments stays what it was planned to be. */
  lemma {:induction false} GentleStays(pts: seq<Point>, root: real -> real, n: nat, i: nat)
    requires Ascending(pts) && IsRoot(root) && n < |pts| && i < |pts|
    requires (i > 0 ==> Gentle(pts, i - 1)) && (i + 1 < |pts| ==> Gentle(pts, i))
    ensures Limited(pts, root, n)[i] == Slope(pts, i)
  {
    hide Square, LimitedPair, Slope, Delta;
    if n > 0 {
      GentleStays(pts, root, n - 1, i);
      var m := Limited(pts, root, n - 1);
      if i == n - 1 || i == n {
        OnlyShortens(pts, root, n - 1, n - 1);
        OnlyShortens(pts, root, n - 1, n);
        LimiterPresses(Delta(pts, n - 1), m[n - 1], m[n], root);
      }
    }
  }

  /**
   Where no segment is too flat for it, a slope is level at a turning point, the mean of the neighbouring secant
   slopes at any other point inside, and the secant slope at the ends.
   */
  ghost predicate AsPlanned(pts: seq<Point>, m: seq<real>)
    requires Ascending(pts) && |m| == |pts|
  {
    && (forall i | 0 < i < |pts| - 1 && Gentle(pts, i - 1) && Gentle(pts, i) ::
          var d, e := Delta(pts, i - 1), Delta(pts, i);
          m[i] == if (d > 0.0 && e > 0.0) || (d < 0.0 && e < 0.0) then (d + e) / 2.0 else 0.0)
    && (Gentle(pts, 0) ==> m[0] == Delta(pts, 0))
    && (Gentle(pts, |pts| - 2) ==> m[|pts| - 1] == Delta(pts, |pts| - 2))
  }

  /**
   A smooth curve is a cubic on each segment, and at each control point the cubics on both sides have one and the
   same slope. That slope is the planned one unless it is too steep for a segment beside it; at most three times its
   secant slope, and in its direction, it always is.
   */
  lemma SmoothSlopes(v: Json, root: real -> real) returns (m: seq<real>)
    requires CurveShape(v) && ValidCurve(PointsOf(v), NO_LIMITS) && IsRoot(root)
    requires Field(v, "interp") == Some(Str("smooth"))
    ensures var pts := PointsOf(v);
            && |m| == |pts|
            && (forall k | 0 <= k < |pts| - 1 ::
                  && PassesWithSlope(v, root, k, k, m[k]) && PassesWithSlope(v, root, k, k + 1, m[k + 1])
                  && Tame(m[k], Delta(pts, k)) && Tame(m[k + 1], Delta(pts, k)))
            && AsPlanned(pts, m)
  {
    var pts := PointsOf(v);
    var n := |pts| - 1;
    m := Limited(pts, root, n);
    SlopesBounded(pts, root);
    SlopesPlanned(pts, root, m);
    assert |pts| >= 2 && IsSmooth(v);
    SlopesOfSegments(v, root, m);
    hide Delta, PassesWithSlope, CurveShape, PointsOf, AsPlanned, ValidCurve, Limited, Tame;
  }

  lemma SlopesOfSegments(v: Json, root: real -> real, m: seq<real>)
    requires CurveShape(v) && ValidCurve(PointsOf(v), NO_LIMITS) && IsRoot(root) && IsSmooth(v)
    requires m == Limited(PointsOf(v), root, |PointsOf(v)| - 1)
    ensures forall k | 0 <= k < |PointsOf(v)| - 1 ::
              PassesWithSlope(v, root, k, k, m[k]) && PassesWithSlope(v, root, k, k + 1, m[k + 1])
  {
    forall k | 0 <= k < |PointsOf(v)| - 1
      ensures PassesWithSlope(v, root, k, k, m[k]) && PassesWithSlope(v, root, k, k + 1, m[k + 1])
    {
      SlopesOfSegment(v, root, m, k);
    }
  }

  lemma SlopesPlanned(pts: seq<Point>, root: real -> real, m: seq<real>)
    requires Ascending(pts) && IsRoot(root) && m == Limited(pts, root, |pts| - 1)
    ensures AsPlanned(pts, m)
  {
    var n := |pts| - 1;
    EndSlopes(pts);
    hide Slope, Delta, Gentle;
    if Gentle(pts, 0) { GentleStays(pts, root, n, 0); }
    if Gentle(pts, n - 1) { GentleStays(pts, root, n, n); }
    forall i | 0 < i < n && Gentle(pts, i - 1) && Gentle(pts, i)
      ensures var d, e := Delta(pts, i - 1), Delta(pts, i);
              m[i] == if (d > 0.0 && e > 0.0) || (d < 0.0 && e < 0.0) then (d + e) / 2.0 else 0.0
    {
      GentleStays(pts, root, n, i);
      PlannedSlope(pts, i);
    }
  }

  lemma EndSlopes(pts: seq<Point>)
    requires Ascending(pts)
    ensures Slope(pts, 0) == Delta(pts, 0) && Slope(pts, |pts| - 1) == Delta(pts, |pts| - 2)
  {
    hide Delta;
  }

  lemma PlannedSlope(pts: seq<Point>, i: nat)
    requires Ascending(pts) && 0 < i < |pts| - 1
    ensures var d, e := Delta(pts, i - 1), Delta(pts, i);
            Slope(pts, i) == if (d > 0.0 && e > 0.0) || (d < 0.0 && e < 0.0) then (d + e) / 2.0 else 0.0
  {
    hide Delta;
    SignsOf(Delta(pts, i - 1), Delta(pts, i));
  }

  lemma SignsOf(d: real, e: real)
    ensures d * e > 0.0 <==> (d > 0.0 && e > 0.0) || (d < 0.0 && e < 0.0)
  {}

  // ---------------------------------------------------------------- lines

  function Line(c: real, d: real, x: real): real {
    c + d * x
  }

  ghost predicate OnLine(pts: seq<Point>, c: real, d: real) {
    forall i | 0 <= i < |pts| :: pts[i].y == Line(c, d, pts[i].x)
  }

  lemma SecantOfLine(pts: seq<Point>, c: real, d: real, k: nat)
    requires Ascending(pts) && OnLine(pts, c, d) && k + 1 < |pts|
    ensures Delta(pts, k) == d
  {
    var h := pts[k + 1].x - pts[k].x;
    assert pts[k + 1].y - pts[k].y == d * h;
    TimesOver(d, h);
  }

  lemma TimesOver(d: real, h: real)
    requires h != 0.0
    ensures d * h / h == d
  {}

  lemma SlopeOfLine(pts: seq<Point>, c: real, d: real, i: nat)
    requires Ascending(pts) && OnLine(pts, c, d) && i < |pts|
    ensures Slope(pts, i) == d
  {
    if i > 0 { SecantOfLine(pts, c, d, i - 1); }
    if i + 1 < |pts| { SecantOfLine(pts, c, d, i); }
    SignsOf(d, d);
    hide Delta;
  }

  lemma LineIsGentle(pts: seq<Point>, c: real, d: real, k: nat)
    requires Ascending(pts) && OnLine(pts, c, d) && k + 1 < |pts|
    ensures Gentle(pts, k)
  {
    SecantOfLine(pts, c, d, k);
    SlopeOfLine(pts, c, d, k);
    SlopeOfLine(pts, c, d, k + 1);
    hide Slope, Delta, Square;
    SquareIsZero(d);
  }

  lemma LinePiece(pts: seq<Point>, smooth: bool, root: real -> real, c: real, d: real, k: nat, x: real)
    requires Ascending(pts) && IsRoot(root) && OnLine(pts, c, d) && k + 1 < |pts|
    ensures Piece(pts, smooth, root, k, x) == Line(c, d, x)
  {
    var x0, h := pts[k].x, pts[k + 1].x - pts[k].x;
    var t := (x - x0) / h;
    Undivided(x - x0, h);
    assert pts[k].y == Line(c, d, x0) && pts[k + 1].y == Line(c, d, x0 + h);
    hide Line, Limited, Hermite, Straight, OnLine, IsRoot;
    if smooth {
      LineSlopes(pts, root, c, d, k);
      LineSlopes(pts, root, c, d, k + 1);
      HermiteOfLine(c, d, x0, h, x, t);
    } else {
      StraightOfLine(c, d, x0, h, x, t);
    }
  }

  lemma StraightOfLine(c: real, d: real, x0: real, h: real, x: real, t: real)
    requires t * h == x - x0
    ensures Straight(Line(c, d, x0), Line(c, d, x0 + h), t) == Line(c, d, x)
  {
    assert d * (x0 + h) - d * x0 == d * h;
    assert d * h * t == d * (t * h);
    assert d * (x - x0) == d * x - d * x0;
  }

  lemma HermiteOfLine(c: real, d: real, x0: real, h: real, x: real, t: real)
    requires t * h == x - x0
    ensures Hermite(Line(c, d, x0), Line(c, d, x0 + h), d, d, h, t) == Line(c, d, x)
  {
    var y0 := Line(c, d, x0);
    HermiteForm(y0, d, d, d, h, t);
    assert A(t) + Q(t) + R(t) == t;
    assert Line(c, d, x0 + h) == y0 + d * h;
    assert d * (x - x0) == d * x - d * x0;
    assert Line(c, d, x) == y0 + d * (x - x0);
    hide Hermite, A, Q, R, Line;
    assert d * A(t) + d * Q(t) + d * R(t) == d * (A(t) + Q(t) + R(t));
    assert h * (d * t) == d * (t * h);
  }

  /** Control points on a line give that line, whichever way it is interpolated. */
  lemma LineIsKept(pts: seq<Point>, smooth: bool, root: real -> real, c: real, d: real, x: real)
    requires ValidCurve(pts, NO_LIMITS) && IsRoot(root) && OnLine(pts, c, d) && pts[0].x <= x <= pts[|pts| - 1].x
    ensures CurveAt(pts, smooth, root, x) == Line(c, d, x)
  {
    var k := Home(pts, x);
    CurveIsPiece(pts, smooth, root, k, x);
    hide CurveAt, Piece, OnLine, SegmentFrom, Line;
    LinePiece(pts, smooth, root, c, d, k, x);
  }

  lemma LineSlopes(pts: seq<Point>, root: real -> real, c: real, d: real, i: nat)
    requires Ascending(pts) && IsRoot(root) && OnLine(pts, c, d) && i < |pts|
    ensures Limited(pts, root, |pts| - 1)[i] == d
  {
    if i > 0 { LineIsGentle(pts, c, d, i - 1); }
    if i + 1 < |pts| { LineIsGentle(pts, c, d, i); }
    GentleStays(pts, root, |pts| - 1, i);
    SlopeOfLine(pts, c, d, i);
  }
}
