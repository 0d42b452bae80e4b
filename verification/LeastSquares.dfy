/**
 The straight-line fit of the perturbation report (bridge/src/perturb.rs), over reals. The square root is a
 parameter of which only its defining property is used.
 */
module LeastSquares {
  import opened Outcomes
  import opened Squaring

  datatype Point = Point(x: real, y: real)

  datatype Line = Line(intercept: real, slope: real)

  datatype Fit = Fit(n: nat, line: Option<Line>, rmse: Option<real>)

  ghost predicate IsRoot(root: real -> real) {
    forall s: real | s >= 0.0 :: root(s) >= 0.0 && root(s) * root(s) == s
  }

  /** The sum of a quantity over all points. */
  function Sum(f: Point -> real, pts: seq<Point>): real {
    if pts == [] then 0.0 else Sum(f, pts[1..]) + f(pts[0])
  }

  function Residual(p: Point, line: Line): real {
    p.y - (line.intercept + line.slope * p.x)
  }

  function X(): Point -> real { (p: Point) => p.x }

  function Y(): Point -> real { (p: Point) => p.y }

  function Spread(mx: real): Point -> real { (p: Point) => Square(p.x - mx) }

  function CoSpread(mx: real, my: real): Point -> real { (p: Point) => (p.x - mx) * (p.y - my) }

  function Residuals(line: Line): Point -> real { (p: Point) => Residual(p, line) }

  function Squares(line: Line): Point -> real { (p: Point) => Square(Residual(p, line)) }

  function Mean(f: Point -> real, pts: seq<Point>): real
    requires pts != []
  {
    Sum(f, pts) / |pts| as real
  }

  /** The fitted line; fewer than two points, or no spread in x, give none. */
  function FittedLine(pts: seq<Point>): Option<Line> {
    if |pts| < 2 then None
    else
      var mx, my := Mean(X(), pts), Mean(Y(), pts);
      var sxx := Sum(Spread(mx), pts);
      if sxx <= 0.0 then None
      else
        var slope := Sum(CoSpread(mx, my), pts) / sxx;
        Some(Line(my - slope * mx, slope))
  }

  function LeastSquares(pts: seq<Point>, root: real -> real): Fit {
    match FittedLine(pts)
    case None => Fit(|pts|, None, None)
    case Some(line) => Fit(|pts|, Some(line), Some(root(Sum(Squares(line), pts) / |pts| as real)))
  }

  // ---------------------------------------------------------------- sums

  lemma Distributes(s: real, a: real, b: real)
    ensures s * (a + b) == s * a + s * b
  {}

  /** A sum of combined quantities is the combination of their sums. */
  lemma {:induction false} SumCombines(pts: seq<Point>, h: Point -> real, f: Point -> real, a: real, g: Point -> real,
                                       b: real, k: Point -> real)
    requires forall p :: h(p) == f(p) + a * g(p) + b * k(p)
    ensures Sum(h, pts) == Sum(f, pts) + a * Sum(g, pts) + b * Sum(k, pts)
  {
    if pts != [] {
      SumCombines(pts[1..], h, f, a, g, b, k);
      Distributes(a, Sum(g, pts[1..]), g(pts[0]));
      Distributes(b, Sum(k, pts[1..]), k(pts[0]));
    }
  }

  lemma Once(n: nat, c: real)
    ensures (n + 1) as real * c == n as real * c + c
  {
    Distributes(c, n as real, 1.0);
  }

  lemma {:induction false} SumConstant(pts: seq<Point>, h: Point -> real, c: real)
    requires forall p <- pts :: h(p) == c
    ensures Sum(h, pts) == |pts| as real * c
  {
    if pts != [] {
      assert pts == [pts[0]] + pts[1..];
      SumConstant(pts[1..], h, c);
      Once(|pts[1..]|, c);
    }
  }

  lemma {:induction false} SumOfSquares(pts: seq<Point>, h: Point -> real)
    requires forall p :: h(p) >= 0.0
    ensures Sum(h, pts) >= 0.0
    ensures Sum(h, pts) <= 0.0 <==> forall p <- pts :: h(p) <= 0.0
  {
    if pts != [] {
      SumOfSquares(pts[1..], h);
      assert pts == [pts[0]] + pts[1..];
    }
  }

  // ---------------------------------------------------------------- when there is a fit

  ghost predicate TwoDistinctX(pts: seq<Point>) {
    exists i, j | 0 <= i < j < |pts| :: pts[i].x != pts[j].x
  }

  /** There is no spread about `mx` exactly when every x is `mx`. */
  lemma SpreadIsZero(pts: seq<Point>, mx: real)
    ensures Sum(Spread(mx), pts) >= 0.0
    ensures Sum(Spread(mx), pts) <= 0.0 <==> forall p <- pts :: p.x == mx
  {
    hide Sum, Square;
    forall p
      ensures Spread(mx)(p) >= 0.0
      ensures Spread(mx)(p) <= 0.0 <==> p.x == mx
    {
      SquareIsZero(p.x - mx);
    }
    SumOfSquares(pts, Spread(mx));
  }

  lemma Divided(n: real, c: real)
    requires n > 0.0
    ensures n * c / n == c
  {}

  lemma SameXMean(pts: seq<Point>)
    requires pts != [] && forall p <- pts :: p.x == pts[0].x
    ensures Mean(X(), pts) == pts[0].x
  {
    SumConstant(pts, X(), pts[0].x);
    Divided(|pts| as real, pts[0].x);
  }

  /** There is a fit exactly when two points differ in x. */
  lemma FitsIffTwoDistinctX(pts: seq<Point>)
    ensures FittedLine(pts).Some? <==> TwoDistinctX(pts)
  {
    if |pts| >= 2 {
      SpreadIsZero(pts, Mean(X(), pts));
      hide Sum, Mean, Spread, CoSpread;
      if !TwoDistinctX(pts) {
        forall p <- pts
          ensures p.x == pts[0].x
        {
          var i :| 0 <= i < |pts| && pts[i] == p;
          if i > 0 { assert !(pts[0].x != pts[i].x); }
        }
        SameXMean(pts);
      }
    }
  }

  // ---------------------------------------------------------------- the normal equations

  /** Residuals weighted by the distance of x from `mx`. */
  ghost function Moments(line: Line, mx: real): Point -> real { (p: Point) => Residual(p, line) * (p.x - mx) }

  function One(): Point -> real { (p: Point) => 1.0 }

  lemma SumOfResiduals(pts: seq<Point>, line: Line)
    ensures Sum(Residuals(line), pts) == Sum(Y(), pts) - |pts| as real * line.intercept - line.slope * Sum(X(), pts)
  {
    SumConstant(pts, One(), 1.0);
    hide Sum;
    SumCombines(pts, Residuals(line), Y(), -line.intercept, One(), -line.slope, X());
  }

  lemma MomentTerm(x: real, y: real, mx: real, my: real, s: real, a: real)
    requires a == my - s * mx
    ensures (y - (a + s * x)) * (x - mx) == (x - mx) * (y - my) + -s * ((x - mx) * (x - mx)) + 0.0 * 1.0
  {
    var u, v := x - mx, y - my;
    assert s * u == s * x - s * mx;
    assert y - (a + s * x) == v - s * u;
    assert (v - s * u) * u == u * v - s * (u * u);
  }

  lemma MomentAt(p: Point, mx: real, my: real, line: Line)
    requires line.intercept == my - line.slope * mx
    ensures Moments(line, mx)(p) == CoSpread(mx, my)(p) + -line.slope * Spread(mx)(p) + 0.0 * One()(p)
  {
    MomentTerm(p.x, p.y, mx, my, line.slope, line.intercept);
  }

  lemma SumOfMoments(pts: seq<Point>, mx: real, my: real, line: Line)
    requires line.intercept == my - line.slope * mx
    ensures Sum(Moments(line, mx), pts)
            == Sum(CoSpread(mx, my), pts) + -line.slope * Sum(Spread(mx), pts) + 0.0 * Sum(One(), pts)
  {
    hide *;
    forall p
      ensures Moments(line, mx)(p) == CoSpread(mx, my)(p) + -line.slope * Spread(mx)(p) + 0.0 * One()(p)
    {
      MomentAt(p, mx, my, line);
    }
    SumCombines(pts, Moments(line, mx), CoSpread(mx, my), -line.slope, Spread(mx), 0.0, One());
  }

  lemma Cancels(a: real, b: real, z: real)
    requires b > 0.0
    ensures a + -(a / b) * b + 0.0 * z == 0.0
  {}

  lemma MeansCancel(n: real, sx: real, sy: real, s: real)
    requires n > 0.0
    ensures sy - n * (sy / n - s * (sx / n)) - s * sx == 0.0
  {
    assert n * (sy / n) == sy;
    assert n * (s * (sx / n)) == s * sx;
  }

  lemma ResidualsVanish(pts: seq<Point>, line: Line)
    requires pts != [] && line.intercept == Mean(Y(), pts) - line.slope * Mean(X(), pts)
    ensures Sum(Residuals(line), pts) == 0.0
  {
    hide Sum;
    SumOfResiduals(pts, line);
    MeansCancel(|pts| as real, Sum(X(), pts), Sum(Y(), pts), line.slope);
  }

  lemma MomentsVanish(pts: seq<Point>, line: Line, mx: real, my: real)
    requires Sum(Spread(mx), pts) > 0.0 && line.slope == Sum(CoSpread(mx, my), pts) / Sum(Spread(mx), pts)
    requires line.intercept == my - line.slope * mx
    ensures Sum(Moments(line, mx), pts) == 0.0
  {
    hide Sum, Moments, Spread, CoSpread;
    SumOfMoments(pts, mx, my, line);
    Cancels(Sum(CoSpread(mx, my), pts), Sum(Spread(mx), pts), Sum(One(), pts));
  }

  /** The residuals of the fit sum to zero, and are uncorrelated with x. */
  lemma NormalEquations(pts: seq<Point>)
    requires FittedLine(pts).Some?
    ensures Sum(Residuals(FittedLine(pts).value), pts) == 0.0
    ensures Sum(Moments(FittedLine(pts).value, Mean(X(), pts)), pts) == 0.0
  {
    hide Sum, Mean, Moments, Spread, CoSpread, Residuals;
    var line := FittedLine(pts).value;
    ResidualsVanish(pts, line);
    MomentsVanish(pts, line, Mean(X(), pts), Mean(Y(), pts));
  }

  // ---------------------------------------------------------------- no other line is as good

  /** The gap between two lines at a point: `c` at `mx`, changing by `d`. */
  ghost function GapAt(p: Point, c: real, d: real, mx: real): real {
    c + d * (p.x - mx)
  }

  ghost function Gaps(c: real, d: real, mx: real): Point -> real {
    (p: Point) => Square(GapAt(p, c, d, mx))
  }

  lemma GapTerm(r: real, c: real, d: real, u: real)
    ensures (r - (c + d * u)) * (r - (c + d * u))
            == r * r + (c + d * u) * (c + d * u) + -2.0 * c * r + -2.0 * d * (r * u)
  {
    var g := c + d * u;
    assert (r - g) * (r - g) == r * r - 2.0 * (r * g) + g * g;
    assert r * g == r * c + r * (d * u);
  }

  lemma SameGap(line: Line, other: Line, p: Point, mx: real, c: real, d: real)
    requires other.slope == line.slope + d && other.intercept == line.intercept + c - d * mx
    ensures Residual(p, other) == Residual(p, line) - GapAt(p, c, d, mx)
  {
    assert (line.slope + d) * p.x == line.slope * p.x + d * p.x;
    assert d * (p.x - mx) == d * p.x - d * mx;
  }

  ghost function Excess(line: Line, other: Line): Point -> real {
    (p: Point) => Square(Residual(p, other)) - Square(Residual(p, line))
  }

  /** How the squared error of another line differs. */
  lemma ErrorOfOther(pts: seq<Point>, line: Line, other: Line, mx: real, c: real, d: real)
    requires other.slope == line.slope + d && other.intercept == line.intercept + c - d * mx
    ensures Sum(Squares(other), pts) == Sum(Squares(line), pts) + Sum(Gaps(c, d, mx), pts)
                                        + -2.0 * c * Sum(Residuals(line), pts) + -2.0 * d * Sum(Moments(line, mx), pts)
  {
    ExcessSum(pts, line, other, mx, c, d);
    hide Sum, Squares, Gaps, Residuals, Moments;
    SumCombines(pts, Squares(other), Squares(line), 1.0, Excess(line, other), 0.0, One());
  }

  lemma ExcessTerm(r': real, r: real, g: real, c: real, d: real, u: real)
    requires r' == r - g && g == c + d * u
    ensures Square(r') - Square(r) == Square(g) + -2.0 * c * r + -2.0 * d * (r * u)
  {
    GapTerm(r, c, d, u);
  }

  lemma ExcessAt(p: Point, line: Line, other: Line, mx: real, c: real, d: real)
    requires other.slope == line.slope + d && other.intercept == line.intercept + c - d * mx
    ensures Excess(line, other)(p)
            == Gaps(c, d, mx)(p) + -2.0 * c * Residuals(line)(p) + -2.0 * d * Moments(line, mx)(p)
  {
    SameGap(line, other, p, mx, c, d);
    ExcessTerm(Residual(p, other), Residual(p, line), GapAt(p, c, d, mx), c, d, p.x - mx);
    hide Residual, GapAt, Square;
  }

  lemma ExcessSum(pts: seq<Point>, line: Line, other: Line, mx: real, c: real, d: real)
    requires other.slope == line.slope + d && other.intercept == line.intercept + c - d * mx
    ensures Sum(Excess(line, other), pts) == Sum(Gaps(c, d, mx), pts)
                                             + -2.0 * c * Sum(Residuals(line), pts)
                                             + -2.0 * d * Sum(Moments(line, mx), pts)
  {
    hide *;
    forall p
      ensures Excess(line, other)(p)
            == Gaps(c, d, mx)(p) + -2.0 * c * Residuals(line)(p) + -2.0 * d * Moments(line, mx)(p)
    {
      ExcessAt(p, line, other, mx, c, d);
    }
    SumCombines(pts, Excess(line, other), Gaps(c, d, mx), -2.0 * c, Residuals(line), -2.0 * d, Moments(line, mx));
  }

  lemma TwoPointsFixLine(c: real, d: real, u: real, v: real)
    requires c + d * u == 0.0 && c + d * v == 0.0 && u != v
    ensures d == 0.0 && c == 0.0
  {
    assert d * (u - v) == 0.0;
  }

  ghost predicate NoGap(pts: seq<Point>, c: real, d: real, mx: real) {
    forall i | 0 <= i < |pts| :: GapAt(pts[i], c, d, mx) == 0.0
  }

  lemma NoGapMeansSame(pts: seq<Point>, c: real, d: real, mx: real)
    requires TwoDistinctX(pts) && NoGap(pts, c, d, mx)
    ensures d == 0.0 && c == 0.0
  {
    var i, j :| 0 <= i < j < |pts| && pts[i].x != pts[j].x;
    TwoPointsFixLine(c, d, pts[i].x - mx, pts[j].x - mx);
  }

  lemma GapIsSquare(pts: seq<Point>, c: real, d: real, mx: real)
    ensures Sum(Gaps(c, d, mx), pts) >= 0.0
    ensures Sum(Gaps(c, d, mx), pts) <= 0.0 ==> NoGap(pts, c, d, mx)
  {
    hide Sum, Square, GapAt;
    forall p
      ensures Gaps(c, d, mx)(p) >= 0.0
      ensures Gaps(c, d, mx)(p) <= 0.0 <==> GapAt(p, c, d, mx) == 0.0
    {
      SquareIsZero(GapAt(p, c, d, mx));
    }
    SumOfSquares(pts, Gaps(c, d, mx));
    forall i | 0 <= i < |pts| && Sum(Gaps(c, d, mx), pts) <= 0.0
      ensures GapAt(pts[i], c, d, mx) == 0.0
    {
      assert pts[i] in pts;
    }
  }

  lemma GapIsPositive(pts: seq<Point>, c: real, d: real, mx: real)
    requires TwoDistinctX(pts) && (c != 0.0 || d != 0.0)
    ensures Sum(Gaps(c, d, mx), pts) > 0.0
  {
    hide *;
    GapIsSquare(pts, c, d, mx);
    if Sum(Gaps(c, d, mx), pts) <= 0.0 { NoGapMeansSame(pts, c, d, mx); }
  }

  lemma Nothing(a: real, z: real)
    requires z == 0.0
    ensures a * z == 0.0
  {}

  lemma ErrorOverFit(pts: seq<Point>, other: Line, c: real, d: real)
    requires FittedLine(pts).Some?
    requires var line := FittedLine(pts).value;
             other.slope == line.slope + d && other.intercept == line.intercept + c - d * Mean(X(), pts)
    ensures Sum(Squares(other), pts) == Sum(Squares(FittedLine(pts).value), pts) + Sum(Gaps(c, d, Mean(X(), pts)), pts)
  {
    assert pts != [];
    hide *;
    var line := FittedLine(pts).value;
    NormalEquations(pts);
    ErrorOfOther(pts, line, other, Mean(X(), pts), c, d);
    Nothing(-2.0 * c, Sum(Residuals(line), pts));
    Nothing(-2.0 * d, Sum(Moments(line, Mean(X(), pts)), pts));
  }

  /** No other line has as small a sum of squared residuals. */
  lemma FitIsTheOnlyBest(pts: seq<Point>, other: Line)
    requires TwoDistinctX(pts)
    ensures FittedLine(pts).Some?
    ensures other != FittedLine(pts).value ==> Sum(Squares(FittedLine(pts).value), pts) < Sum(Squares(other), pts)
  {
    FitsIffTwoDistinctX(pts);
    hide Sum, Squares, FittedLine, Gaps, Mean;
    var line := FittedLine(pts).value;
    if other != line {
      var d := other.slope - line.slope;
      var shift := d * Mean(X(), pts);
      var c := other.intercept - line.intercept + shift;
      Nothing(Mean(X(), pts), 0.0);
      assert c != 0.0 || d != 0.0;
      ErrorOverFit(pts, other, c, d);
      GapIsPositive(pts, c, d, Mean(X(), pts));
    }
  }

  lemma ErrorIsSquare(pts: seq<Point>, line: Line)
    ensures Sum(Squares(line), pts) >= 0.0
    ensures Sum(Squares(line), pts) <= 0.0 <==> forall p <- pts :: Residual(p, line) == 0.0
  {
    hide Sum, Residual, Square;
    forall p
      ensures Squares(line)(p) >= 0.0
      ensures Squares(line)(p) <= 0.0 <==> Residual(p, line) == 0.0
    {
      SquareIsZero(Residual(p, line));
    }
    SumOfSquares(pts, Squares(line));
  }

  /** Points on a line are fitted by that line. */
  lemma LineIsFound(pts: seq<Point>, line: Line)
    requires TwoDistinctX(pts) && forall p <- pts :: p.y == line.intercept + line.slope * p.x
    ensures FittedLine(pts) == Some(line)
  {
    hide FittedLine, Sum, Squares;
    FitIsTheOnlyBest(pts, line);
    ErrorIsSquare(pts, line);
    ErrorIsSquare(pts, FittedLine(pts).value);
  }

  lemma Quotient(s: real, n: real)
    requires s >= 0.0 && n > 0.0
    ensures s / n >= 0.0 && n * (s / n) == s
  {}

  lemma RootOfMean(root: real -> real, s: real, n: real)
    requires IsRoot(root) && s >= 0.0 && n > 0.0
    ensures root(s / n) >= 0.0 && n * (root(s / n) * root(s / n)) == s
  {
    Quotient(s, n);
    assert root(s / n) * root(s / n) == s / n;
  }

  /** The reported error: its square, once for every point, makes up the sum of squared residuals. */
  lemma RmseIsMeanError(pts: seq<Point>, root: real -> real)
    requires IsRoot(root) && TwoDistinctX(pts)
    ensures var fit := LeastSquares(pts, root);
            && fit.line.Some? && fit.rmse.Some? && fit.rmse.value >= 0.0
            && |pts| as real * (fit.rmse.value * fit.rmse.value) == Sum(Squares(fit.line.value), pts)
  {
    hide FittedLine, Sum, Squares, IsRoot;
    FitsIffTwoDistinctX(pts);
    var line := FittedLine(pts).value;
    ErrorIsSquare(pts, line);
    RootOfMean(root, Sum(Squares(line), pts), |pts| as real);
  }
}
