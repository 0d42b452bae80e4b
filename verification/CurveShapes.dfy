/** Limits of a number, and the JSON shape of a curve (core/src/manifest.cpp, bridge/src/recipe.rs). */
module CurveShapes {
  import opened Outcomes
  import opened Graphs

  datatype Point = Point(x: real, y: real)

  datatype Limits = Limits(min: Option<real>, max: Option<real>)

  const NO_LIMITS := Limits(None, None)

  predicate InLimits(x: real, lim: Limits) {
    (lim.min.Some? ==> lim.min.value <= x) && (lim.max.Some? ==> x <= lim.max.value)
  }

  predicate IsPoint(pt: Json) {
    pt.Arr? && |pt.items| == 2 && pt.items[0].Num? && pt.items[1].Num?
  }

  /** An object of control points and perhaps an interpolation. */
  predicate CurveShape(v: Json) {
    && v.Obj?
    && (forall k <- v.fields :: k == "points" || k == "interp")
    && ("interp" in v.fields ==> v.fields["interp"] == Str("linear") || v.fields["interp"] == Str("smooth"))
    && "points" in v.fields && v.fields["points"].Arr? && |v.fields["points"].items| >= 2
    && forall pt <- v.fields["points"].items :: IsPoint(pt)
  }

  function PointOf(pt: Json): Point
    requires IsPoint(pt)
  {
    Point(pt.items[0].n, pt.items[1].n)
  }

  function PointsOf(v: Json): seq<Point>
    requires CurveShape(v)
  {
    var items := v.fields["points"].items;
    seq(|items|, i requires 0 <= i < |items| => PointOf(items[i]))
  }

  predicate IsSmooth(v: Json) {
    Field(v, "interp") == Some(Str("smooth"))
  }

  // ---------------------------------------------------------------- the JSON of a curve

  /** A curve as the editor writes it: the points in order, and the interpolation if one is given. */
  function CurveJson(pts: seq<Point>, interp: Option<string>): Json {
    var points := Arr(seq(|pts|, i requires 0 <= i < |pts| => Arr([Num(pts[i].x), Num(pts[i].y)])));
    Obj(map["points" := points] + if interp.Some? then map["interp" := Str(interp.value)] else map[])
  }

  predicate IsInterp(interp: Option<string>) {
    interp == None || interp == Some("linear") || interp == Some("smooth")
  }

  /** What is written is read back. */
  lemma CurveJsonReads(pts: seq<Point>, interp: Option<string>)
    requires |pts| >= 2 && IsInterp(interp)
    ensures var v := CurveJson(pts, interp);
            CurveShape(v) && PointsOf(v) == pts && (IsSmooth(v) <==> interp == Some("smooth"))
  {
    var v := CurveJson(pts, interp);
    var items := v.fields["points"].items;
    forall pt <- items
      ensures IsPoint(pt)
    {
      var i :| 0 <= i < |items| && items[i] == pt;
    }
    assert CurveShape(v);
    assert PointsOf(v) == pts;
  }

  /** And nothing else has the shape of a curve. */
  lemma CurveIsJson(v: Json)
    requires CurveShape(v)
    ensures |PointsOf(v)| >= 2 && exists interp :: IsInterp(interp) && v == CurveJson(PointsOf(v), interp)
  {
    var pts := PointsOf(v);
    var items := v.fields["points"].items;
    var interp := if "interp" in v.fields then Some(v.fields["interp"].s) else None;
    var w := CurveJson(pts, interp);
    forall i | 0 <= i < |items|
      ensures items[i] == w.fields["points"].items[i]
    {
      assert items[i] in items;
      assert items[i].items == [items[i].items[0], items[i].items[1]];
    }
    assert v.fields["points"] == w.fields["points"];
    assert v.fields.Keys == w.fields.Keys;
    assert v.fields == w.fields;
    assert IsInterp(interp) && v == w;
  }
}
