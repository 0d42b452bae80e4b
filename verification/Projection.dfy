/**
 The station of a point along a measured polyline (bridge/src/eval/quality.rs): the arc length recorded at
 the nearest point of the line, over reals. An entry that is not a pair of numbers, or not a number, is None.
 */
module Projection {
  import opened Outcomes
  import opened Squaring

  datatype Point = Point(x: real, y: real)

  /** The points of a polyline and the arc length recorded at each. */
  datatype Polyline = Polyline(points: seq<Option<Point>>, s: seq<Option<real>>)

  ghost predicate Usable(line: Polyline) {
    && |line.points| == |line.s| >= 2
    && (forall i | 0 <= i < |line.s| :: line.points[i].Some? && line.s[i].Some?)
    && forall i | 0 <= i < |line.s| - 1 :: line.s[i].value <= line.s[i + 1].value
  }

  /** The squared length of `w` less `t` times `d`. */
  function Gap2(wx: real, wy: real, dx: real, dy: real, t: real): real {
    Plus(wx - t * dx, wy - t * dy)
  }

  /** The squared distance from `p` to the place `t` of the way from `a` to `b`. */
  function Distance2(p: Point, a: Point, b: Point, t: real): real {
    Gap2(p.x - a.x, p.y - a.y, b.x - a.x, b.y - a.y, t)
  }

  function Plus(u: real, v: real): real {
    Square(u) + Square(v)
  }

  function Clamp01(t: real): real {
    if t < 0.0 then 0.0 else if t > 1.0 then 1.0 else t
  }

  function Foot(wx: real, wy: real, dx: real, dy: real): (t: real)
    ensures 0.0 <= t <= 1.0
  {
    var l2 := Plus(dx, dy);
    Clamp01(if l2 > 0.0 then (wx * dx + wy * dy) / l2 else 0.0)
  }

  /** Where on the way from `a` to `b` is nearest to `p`. */
  function Nearest(p: Point, a: Point, b: Point): (t: real)
    ensures 0.0 <= t <= 1.0
  {
    Foot(p.x - a.x, p.y - a.y, b.x - a.x, b.y - a.y)
  }

  function StationAt(s0: real, s1: real, t: real): real {
    s0 + t * (s1 - s0)
  }

  // ---------------------------------------------------------------- nearest on one segment

  /** The squared distance as a quadratic in the place. */
  ghost function Quadratic(w: real, q: real, l: real, t: real): real {
    w - 2.0 * (t * q) + t * (t * l)
  }

  lemma SquareOfDifference(w: real, t: real, d: real)
    ensures (w - t * d) * (w - t * d) == w * w - 2.0 * (t * (w * d)) + t * (t * (d * d))
  {}

  lemma Adds(t: real, a: real, b: real)
    ensures t * (a + b) == t * a + t * b
  {}

  lemma DistanceIsQuadratic(wx: real, wy: real, dx: real, dy: real, t: real)
    ensures Plus(wx - t * dx, wy - t * dy) == Quadratic(Plus(wx, wy), wx * dx + wy * dy, Plus(dx, dy), t)
  {
    SquareOfDifference(wx, t, dx);
    SquareOfDifference(wy, t, dy);
    Adds(t, wx * dx, wy * dy);
    Adds(t, dx * dx, dy * dy);
    Adds(t, t * (dx * dx), t * (dy * dy));
  }

  lemma QuadraticGap(w: real, q: real, l: real, t: real, u: real)
    ensures Quadratic(w, q, l, u) - Quadratic(w, q, l, t) == (u - t) * ((u + t) * l - 2.0 * q)
  {
    assert (u - t) * ((u + t) * l) == u * (u * l) - t * (t * l);
    assert (u - t) * (2.0 * q) == 2.0 * (u * q) - 2.0 * (t * q);
  }

  lemma ProductOfSameSign(a: real, b: real)
    requires (a >= 0.0 && b >= 0.0) || (a <= 0.0 && b <= 0.0)
    ensures a * b >= 0.0
  {}

  lemma Ordered(a: real, b: real, l: real)
    requires l >= 0.0 && a <= b
    ensures a * l <= b * l
  {
    ProductOfSameSign(b - a, l);
  }

  lemma Divided(q: real, l: real)
    requires l > 0.0
    ensures q / l * l == q
    ensures q / l < 0.0 ==> q <= 0.0
    ensures q / l > 1.0 ==> q >= l
  {
    var r := q / l;
    if r < 0.0 { Ordered(r, 0.0, l); }
    if r > 1.0 { Ordered(1.0, r, l); }
  }

  /** The clamped minimum of the quadratic is its least value on the unit interval. */
  lemma ClampedIsLeast(w: real, q: real, l: real, u: real)
    requires l > 0.0 && 0.0 <= u <= 1.0
    ensures Quadratic(w, q, l, Clamp01(q / l)) <= Quadratic(w, q, l, u)
  {
    var t := Clamp01(q / l);
    QuadraticGap(w, q, l, t, u);
    Divided(q, l);
    hide Quadratic;
    var slope := (u + t) * l - 2.0 * q;
    if q / l < 0.0 {
      Ordered(0.0, u + t, l);
    } else if q / l > 1.0 {
      Ordered(u + t, 2.0, l);
    } else {
      AroundMinimum(u, t, l, q);
    }
    ProductOfSameSign(u - t, slope);
  }

  lemma AroundMinimum(u: real, t: real, l: real, q: real)
    requires l > 0.0 && t * l == q
    ensures u >= t ==> (u + t) * l - 2.0 * q >= 0.0
    ensures u <= t ==> (u + t) * l - 2.0 * q <= 0.0
  {
    assert (u + t) * l == u * l + t * l;
    if u >= t { Ordered(t, u, l); }
    if u <= t { Ordered(u, t, l); }
  }

  lemma NoLength(dx: real, dy: real)
    requires Plus(dx, dy) <= 0.0
    ensures dx == 0.0 && dy == 0.0
  {
    hide Square;
    SquareIsZero(dx);
    SquareIsZero(dy);
  }

  lemma StandsStill(w: real, t: real, d: real)
    requires d == 0.0
    ensures w - t * d == w
  {}

  lemma FootOnLength(wx: real, wy: real, dx: real, dy: real, u: real)
    requires 0.0 <= u <= 1.0 && Plus(dx, dy) > 0.0
    ensures Gap2(wx, wy, dx, dy, Foot(wx, wy, dx, dy)) <= Gap2(wx, wy, dx, dy, u)
  {
    var q, l := wx * dx + wy * dy, Plus(dx, dy);
    var t := Clamp01(q / l);
    assert Foot(wx, wy, dx, dy) == t;
    hide *;
    DistanceIsQuadratic(wx, wy, dx, dy, u);
    DistanceIsQuadratic(wx, wy, dx, dy, t);
    ClampedIsLeast(Plus(wx, wy), q, l, u);
  }

  lemma GapOfPoint(wx: real, wy: real, dx: real, dy: real, t: real)
    requires Plus(dx, dy) <= 0.0
    ensures Gap2(wx, wy, dx, dy, t) == Plus(wx, wy)
  {
    NoLength(dx, dy);
    StandsStill(wx, t, dx);
    StandsStill(wy, t, dy);
    hide Plus;
  }

  lemma FootIsNearest(wx: real, wy: real, dx: real, dy: real, u: real)
    requires 0.0 <= u <= 1.0
    ensures Gap2(wx, wy, dx, dy, Foot(wx, wy, dx, dy)) <= Gap2(wx, wy, dx, dy, u)
  {
    hide *;
    if Plus(dx, dy) > 0.0 {
      FootOnLength(wx, wy, dx, dy, u);
    } else {
      GapOfPoint(wx, wy, dx, dy, Foot(wx, wy, dx, dy));
      GapOfPoint(wx, wy, dx, dy, u);
    }
  }

  /** No place on the segment is nearer to `p`. */
  lemma NearestIsNearest(p: Point, a: Point, b: Point, u: real)
    requires 0.0 <= u <= 1.0
    ensures Distance2(p, a, b, Nearest(p, a, b)) <= Distance2(p, a, b, u)
  {
    hide Gap2, Foot;
    FootIsNearest(p.x - a.x, p.y - a.y, b.x - a.x, b.y - a.y, u);
  }

  // ---------------------------------------------------------------- nearest on the whole line

  /** The value `t` of the way from one value to another. */
  function Along(a: real, b: real, t: real): real {
    (1.0 - t) * a + t * b
  }

  lemma AlongIsStation(a: real, b: real, t: real)
    ensures StationAt(a, b, t) == Along(a, b, t) == a + t * (b - a)
  {}

  /** The squared distance to the place `t` along segment `i`. */
  ghost function SegmentDistance(line: Polyline, p: Point, i: nat, t: real): real
    requires i + 1 < |line.points| && line.points[i].Some? && line.points[i + 1].Some?
  {
    var a, b := line.points[i].value, line.points[i + 1].value;
    Square(p.x - Along(a.x, b.x, t)) + Square(p.y - Along(a.y, b.y, t))
  }

  lemma DistanceIsSegmentDistance(line: Polyline, p: Point, i: nat, t: real)
    requires i + 1 < |line.points| && line.points[i].Some? && line.points[i + 1].Some?
    ensures Distance2(p, line.points[i].value, line.points[i + 1].value, t) == SegmentDistance(line, p, i, t)
  {
    var a, b := line.points[i].value, line.points[i + 1].value;
    AlongIsStation(a.x, b.x, t);
    AlongIsStation(a.y, b.y, t);
    hide Along, Square;
  }

  /**
   The place `t` of segment `i` is at squared distance `d` and station `s`; a segment without length has only its
   start.
   */
  ghost predicate Reaches(line: Polyline, p: Point, i: nat, t: real, d: real, s: real)
    requires Usable(line) && i + 1 < |line.points|
  {
    && 0.0 <= t <= 1.0 && d == SegmentDistance(line, p, i, t)
    && s == Along(line.s[i].value, line.s[i + 1].value, t)
    && (line.points[i] == line.points[i + 1] ==> t == 0.0)
  }

  /** No place of segment `i` is nearer. */
  ghost predicate NoneNearer(line: Polyline, p: Point, i: nat, d: real)
    requires Usable(line) && i + 1 < |line.points|
  {
    forall u: real | 0.0 <= u <= 1.0 :: d <= SegmentDistance(line, p, i, u)
  }

  /** Every place of segment `i` is farther. */
  ghost predicate AllFarther(line: Polyline, p: Point, i: nat, d: real)
    requires Usable(line) && i + 1 < |line.points|
  {
    forall u: real | 0.0 <= u <= 1.0 :: d < SegmentDistance(line, p, i, u)
  }

  /** Of the first `n` segments none comes nearer than `d`, and those before `i` stay farther. */
  ghost predicate FirstAt(line: Polyline, p: Point, n: nat, i: nat, d: real)
    requires Usable(line) && i <= n < |line.points|
  {
    (forall j | 0 <= j < n :: NoneNearer(line, p, j, d)) && forall j | 0 <= j < i :: AllFarther(line, p, j, d)
  }

  /** `d` is the least squared distance over the first `n` segments, first reached where the line records `s`. */
  ghost predicate LeastOver(line: Polyline, p: Point, n: nat, d: real, s: real)
    requires Usable(line) && n < |line.points|
  {
    exists i: nat, t: real :: i < n && Reaches(line, p, i, t, d, s) && FirstAt(line, p, n, i, d)
  }

  predicate SegmentOk(line: Polyline, j: nat)
    requires |line.points| == |line.s| && j + 1 < |line.s|
  {
    && line.points[j].Some? && line.points[j + 1].Some? && line.s[j].Some? && line.s[j + 1].Some?
    && line.s[j].value <= line.s[j + 1].value
  }

  lemma UsableSegments(line: Polyline)
    requires |line.points| == |line.s| >= 2
    ensures Usable(line) <==> forall j | 0 <= j < |line.s| - 1 :: SegmentOk(line, j)
  {
    if forall j | 0 <= j < |line.s| - 1 :: SegmentOk(line, j) {
      forall i | 0 <= i < |line.s|
        ensures line.points[i].Some? && line.s[i].Some?
      {
        assert SegmentOk(line, if i == 0 then 0 else i - 1);
      }
      assert forall i | 0 <= i < |line.s| - 1 :: SegmentOk(line, i) ==> line.s[i].value <= line.s[i + 1].value;
    }
  }

  ghost predicate NearestOnLine(line: Polyline, p: Point, d: real, s: real)
    requires Usable(line)
  {
    LeastOver(line, p, |line.points| - 1, d, s)
  }

  /** The station of the nearest point of the line, unless the line is unusable or the point too far off. */
  method Project(line: Polyline, p: Point, maxDistance: Option<real>) returns (station: Option<real>)
    ensures !Usable(line) ==> station.None?
    ensures Usable(line) ==>
              exists d, s :: NearestOnLine(line, p, d, s) &&
                (if maxDistance.Some? && d > maxDistance.value * maxDistance.value then station.None?
                 else station == Some(s))
  {
    if |line.points| < 2 || |line.points| != |line.s| {
      return None;
    }
    UsableSegments(line);
    var best: Option<(real, real)> := None;
    for i := 0 to |line.points| - 1
      invariant best.None? <==> i == 0
      invariant forall j | 0 <= j < i :: SegmentOk(line, j)
      invariant Usable(line) && best.Some? ==> LeastOver(line, p, i, best.value.0, best.value.1)
    {
      assert Usable(line) ==> SegmentOk(line, i);
      if line.points[i].None? || line.points[i + 1].None? || line.s[i].None? || line.s[i + 1].None? {
        return None;
      }
      var s0, s1 := line.s[i].value, line.s[i + 1].value;
      if s1 < s0 {
        return None;
      }
      var a, b := line.points[i].value, line.points[i + 1].value;
      var t := Nearest(p, a, b);
      var d := Distance2(p, a, b, t);
      DistanceIsSegmentDistance(line, p, i, t);
      AlongIsStation(s0, s1, t);
      if Usable(line) {
        OneSegmentMore(line, p, i, best, t);
      }
      if best.None? || d < best.value.0 {
        best := Some((d, StationAt(s0, s1, t)));
      }
    }
    assert Usable(line) && NearestOnLine(line, p, best.value.0, best.value.1);
    var (distance, s) := best.value;
    return if maxDistance.Some? && distance > maxDistance.value * maxDistance.value then None else Some(s);
  }

  lemma OneSegmentMore(line: Polyline, p: Point, i: nat, best: Option<(real, real)>, t: real)
    requires Usable(line) && i + 1 < |line.points| && (best.None? <==> i == 0)
    requires best.Some? ==> LeastOver(line, p, i, best.value.0, best.value.1)
    requires t == Nearest(p, line.points[i].value, line.points[i + 1].value)
    ensures var d, s := SegmentDistance(line, p, i, t), Along(line.s[i].value, line.s[i + 1].value, t);
            if best.None? || d < best.value.0 then LeastOver(line, p, i + 1, d, s)
            else LeastOver(line, p, i + 1, best.value.0, best.value.1)
  {
    var d, s := SegmentDistance(line, p, i, t), Along(line.s[i].value, line.s[i + 1].value, t);
    StaysAtStart(p, line.points[i].value, line.points[i + 1].value);
    assert Reaches(line, p, i, t, d, s);
    hide Distance2, Nearest, Along, Reaches;
    forall u: real | 0.0 <= u <= 1.0
      ensures d <= SegmentDistance(line, p, i, u)
    {
      NearestIsNearest(p, line.points[i].value, line.points[i + 1].value, u);
      DistanceIsSegmentDistance(line, p, i, t);
      DistanceIsSegmentDistance(line, p, i, u);
    }
    assert NoneNearer(line, p, i, d);
    if best.Some? {
      var at: nat, place: real :| at < i && Reaches(line, p, at, place, best.value.0, best.value.1)
                                  && FirstAt(line, p, i, at, best.value.0);
      hide SegmentDistance;
      if d < best.value.0 {
        forall j: nat | j < i
          ensures AllFarther(line, p, j, d) && NoneNearer(line, p, j, d)
        {
          assert NoneNearer(line, p, j, best.value.0);
        }
        assert FirstAt(line, p, i + 1, i, d);
      } else {
        assert NoneNearer(line, p, i, best.value.0);
        assert FirstAt(line, p, i + 1, at, best.value.0);
      }
    } else {
      assert FirstAt(line, p, 1, 0, d);
    }
  }

  lemma StaysAtStart(p: Point, a: Point, b: Point)
    ensures a == b ==> Nearest(p, a, b) == 0.0
  {}

  // ---------------------------------------------------------------- the station is determined

  lemma MiddleSquare(u: real, v: real)
    ensures 4.0 * Square((u + v) / 2.0) == 2.0 * Square(u) + 2.0 * Square(v) - Square(u - v)
  {}

  lemma MiddleAlong(x: real, a: real, b: real, t: real, u: real)
    ensures x - Along(a, b, (t + u) / 2.0) == ((x - Along(a, b, t)) + (x - Along(a, b, u))) / 2.0
    ensures (x - Along(a, b, t)) - (x - Along(a, b, u)) == (u - t) * (b - a)
  {}

  lemma ProductIsNotZero(a: real, b: real)
    requires a != 0.0 && b != 0.0
    ensures a * b != 0.0
  {}

  /** Two places of a segment at the same distance have a nearer one between them. */
  lemma MiddleIsNearer(line: Polyline, p: Point, i: nat, t: real, u: real)
    requires i + 1 < |line.points| && line.points[i].Some? && line.points[i + 1].Some?
    requires line.points[i] != line.points[i + 1] && t != u
    requires SegmentDistance(line, p, i, t) == SegmentDistance(line, p, i, u)
    ensures SegmentDistance(line, p, i, (t + u) / 2.0) < SegmentDistance(line, p, i, t)
  {
    var a, b := line.points[i].value, line.points[i + 1].value;
    MiddleAlong(p.x, a.x, b.x, t, u);
    MiddleAlong(p.y, a.y, b.y, t, u);
    var x, x' := p.x - Along(a.x, b.x, t), p.x - Along(a.x, b.x, u);
    var y, y' := p.y - Along(a.y, b.y, t), p.y - Along(a.y, b.y, u);
    MiddleSquare(x, x');
    MiddleSquare(y, y');
    if a.x != b.x { ProductIsNotZero(u - t, b.x - a.x); } else { ProductIsNotZero(u - t, b.y - a.y); }
    hide Along, Square;
    SquareIsZero(x - x');
    SquareIsZero(y - y');
  }

  lemma NotNearer(line: Polyline, p: Point, n: nat, i: nat, d: real, k: nat, u: real, d': real, s': real)
    requires Usable(line) && i <= n < |line.points| && FirstAt(line, p, n, i, d)
    requires k < n && Reaches(line, p, k, u, d', s')
    ensures d <= d' && (k < i ==> d < d')
  {
    hide SegmentDistance, Along;
    assert NoneNearer(line, p, k, d);
    if k < i {
      assert AllFarther(line, p, k, d);
    }
  }

  /** There is one least distance, and one station where it is first reached. */
  lemma NearestUnique(line: Polyline, p: Point, d: real, s: real, d': real, s': real)
    requires Usable(line) && NearestOnLine(line, p, d, s) && NearestOnLine(line, p, d', s')
    ensures d == d' && s == s'
  {
    var n := |line.points| - 1;
    var i: nat, t: real :| i < n && Reaches(line, p, i, t, d, s) && FirstAt(line, p, n, i, d);
    var k: nat, u: real :| k < n && Reaches(line, p, k, u, d', s') && FirstAt(line, p, n, k, d');
    NotNearer(line, p, n, i, d, k, u, d', s');
    NotNearer(line, p, n, k, d', i, t, d, s);
    assert NoneNearer(line, p, i, d);
    hide SegmentDistance, Along, FirstAt;
    if t != u {
      MiddleIsNearer(line, p, i, t, u);
    }
  }

  /** The station found lies between the two ends of the line. */
  lemma StationWithinLine(line: Polyline, p: Point, n: nat, d: real, s: real)
    requires Usable(line) && n < |line.points| && LeastOver(line, p, n, d, s)
    ensures line.s[0].value <= s <= line.s[|line.s| - 1].value
  {
    var i: nat, t: real :| i < n && Reaches(line, p, i, t, d, s);
    StationBetween(line.s[i].value, line.s[i + 1].value, t);
    AlongIsStation(line.s[i].value, line.s[i + 1].value, t);
    Rises(line, 0, i);
    Rises(line, i + 1, |line.s| - 1);
  }

  lemma StationBetween(s0: real, s1: real, t: real)
    requires s0 <= s1 && 0.0 <= t <= 1.0
    ensures s0 <= StationAt(s0, s1, t) <= s1
  {
    Ordered(0.0, t, s1 - s0);
    Ordered(t, 1.0, s1 - s0);
  }

  lemma {:induction false} Rises(line: Polyline, i: nat, j: nat)
    requires Usable(line) && i <= j < |line.s|
    ensures line.s[i].value <= line.s[j].value
    decreases j - i
  {
    if i < j { Rises(line, i + 1, j); }
  }
}
