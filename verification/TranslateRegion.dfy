/**
 The operator that moves the points of a region (packs/std-pointcloud/ops/edit_translate_region.cpp): a half
 space or a box is read from the parameters, and the points inside are shifted. Coordinates are reals.
 */
module TranslateRegion {
  import opened Outcomes
  import opened Graphs

  datatype Region = Halfspace(point: seq<real>, normal: seq<real>) | Box(min: seq<real>, max: seq<real>)

  /** A cloud; three coordinates for each point, the other channels as they come. */
  datatype PointCloud = PointCloud(xyz: seq<real>, intensity: seq<real>, normals: seq<real>, rgb: seq<nat>)

  datatype Error = BadParam(name: string)

  // ---------------------------------------------------------------- reading the parameters

  /** A vector parameter, or its default; none if it is not three numbers. */
  function Vec3(params: map<string, Json>, name: string, default: seq<real>): (v: Option<seq<real>>)
    requires |default| == 3
    ensures v.Some? ==> |v.value| == 3
  {
    if name !in params then Some(default)
    else
      match params[name]
      case Arr(items) =>
        if |items| == 3 && items[0].Num? && items[1].Num? && items[2].Num?
        then Some([items[0].n, items[1].n, items[2].n]) else None
      case _ => None
  }

  /** The region the parameters describe. */
  function RegionOf(params: map<string, Json>): Option<Region> {
    var kind := if "regionKind" in params then params["regionKind"] else Str("halfspace");
    if kind == Str("halfspace") then
      match (Vec3(params, "point", [0.0, 0.0, 0.0]), Vec3(params, "normal", [1.0, 0.0, 0.0]))
      case (Some(point), Some(normal)) => Some(Halfspace(point, normal))
      case _ => None
    else if kind == Str("box") then
      match (Vec3(params, "boxMin", [-1.0, -1.0, -1.0]), Vec3(params, "boxMax", [1.0, 1.0, 1.0]))
      case (Some(min), Some(max)) => Some(Box(min, max))
      case _ => None
    else None
  }

  /** A parameter is this vector, as it is written or by its default. */
  ghost predicate IsGiven(params: map<string, Json>, name: string, v: seq<real>, default: seq<real>) {
    if name in params then
      params[name].Arr? && |params[name].items| == |v| && forall i | 0 <= i < |v| :: params[name].items[i] == Num(v[i])
    else v == default
  }

  /** The parameters say that the region is this one; a half space is the default, through the origin, facing x. */
  ghost predicate Describes(params: map<string, Json>, region: Region) {
    match region
    case Halfspace(point, normal) =>
      && ("regionKind" in params ==> params["regionKind"] == Str("halfspace"))
      && IsGiven(params, "point", point, [0.0, 0.0, 0.0]) && IsGiven(params, "normal", normal, [1.0, 0.0, 0.0])
    case Box(min, max) =>
      && "regionKind" in params && params["regionKind"] == Str("box")
      && IsGiven(params, "boxMin", min, [-1.0, -1.0, -1.0]) && IsGiven(params, "boxMax", max, [1.0, 1.0, 1.0])
  }

  lemma VectorIsGiven(params: map<string, Json>, name: string, v: seq<real>, default: seq<real>)
    requires IsVec3(v) && IsVec3(default)
    ensures Vec3(params, name, default) == Some(v) <==> IsGiven(params, name, v, default)
  {
    if Vec3(params, name, default) == Some(v) && name in params {
      assert v == [params[name].items[0].n, params[name].items[1].n, params[name].items[2].n];
    }
    if IsGiven(params, name, v, default) && name in params {
      assert params[name].items == [Num(v[0]), Num(v[1]), Num(v[2])];
      assert v == [v[0], v[1], v[2]];
    }
  }

  function TranslationOf(params: map<string, Json>): (v: Option<seq<real>>)
    ensures v.Some? ==> |v.value| == 3
  {
    Vec3(params, "translation", [0.0, 0.0, 0.0])
  }

  /** A region and a shift are read from the parameters exactly when they describe them; no shift is the default. */
  lemma RegionIsDescribed(params: map<string, Json>, region: Region, t: seq<real>)
    requires Shaped(region) && IsVec3(t)
    ensures RegionOf(params) == Some(region) <==> Describes(params, region)
    ensures TranslationOf(params) == Some(t) <==> IsGiven(params, "translation", t, [0.0, 0.0, 0.0])
  {
    VectorIsGiven(params, "translation", t, [0.0, 0.0, 0.0]);
    match region
    case Halfspace(point, normal) =>
      VectorIsGiven(params, "point", point, [0.0, 0.0, 0.0]);
      VectorIsGiven(params, "normal", normal, [1.0, 0.0, 0.0]);
      hide Vec3, IsGiven;
    case Box(min, max) =>
      VectorIsGiven(params, "boxMin", min, [-1.0, -1.0, -1.0]);
      VectorIsGiven(params, "boxMax", max, [1.0, 1.0, 1.0]);
      hide Vec3, IsGiven;
  }

  predicate IsVec3(v: seq<real>) {
    |v| == 3
  }

  predicate Shaped(region: Region) {
    match region
    case Halfspace(point, normal) => IsVec3(point) && IsVec3(normal)
    case Box(min, max) => IsVec3(min) && IsVec3(max)
  }

  /** The operator can tell which points are inside. */
  predicate Proper(region: Region) {
    && Shaped(region)
    && match region
       case Halfspace(_, n) => n[0] * n[0] + n[1] * n[1] + n[2] * n[2] > 0.000000000000000001
       case Box(min, max) => min[0] <= max[0] && min[1] <= max[1] && min[2] <= max[2]
  }

  // ---------------------------------------------------------------- what a region holds

  /** On the side the normal points to, or inside the closed box. */
  predicate Selects(region: Region, x: real, y: real, z: real)
    requires Shaped(region)
  {
    match region
    case Halfspace(p, n) => (x - p[0]) * n[0] + (y - p[1]) * n[1] + (z - p[2]) * n[2] > 0.0
    case Box(min, max) => min[0] <= x <= max[0] && min[1] <= y <= max[1] && min[2] <= z <= max[2]
  }

  function Dot(a: seq<real>, b: seq<real>): real
    requires IsVec3(a) && IsVec3(b)
  {
    a[0] * b[0] + a[1] * b[1] + a[2] * b[2]
  }

  /** `t` times along the normal from the point, and then sideways by `w`. */
  ghost predicate IsReached(q: seq<real>, p: seq<real>, n: seq<real>, t: real, w: seq<real>)
    requires IsVec3(q) && IsVec3(p) && IsVec3(n)
  {
    IsVec3(w) && Dot(w, n) == 0.0 && forall i | 0 <= i < 3 :: q[i] == p[i] + t * n[i] + w[i]
  }

  lemma Sideways(t: real, n: seq<real>, w: seq<real>, d: seq<real>)
    requires IsVec3(n) && IsVec3(w) && IsVec3(d) && forall i | 0 <= i < 3 :: d[i] == t * n[i] + w[i]
    ensures Dot(d, n) == t * Dot(n, n) + Dot(w, n)
  {
    assert d[0] * n[0] == t * (n[0] * n[0]) + w[0] * n[0];
    assert d[1] * n[1] == t * (n[1] * n[1]) + w[1] * n[1];
    assert d[2] * n[2] == t * (n[2] * n[2]) + w[2] * n[2];
  }

  lemma SignOfProduct(t: real, a: real)
    requires a > 0.0
    ensures t * a > 0.0 <==> t > 0.0
  {}

  /**
   A half space holds exactly the points that are reached from its boundary by going along the normal and then
   sideways; the boundary is not part of it.
   */
  lemma HalfspaceHolds(p: seq<real>, n: seq<real>, q: seq<real>)
    requires IsVec3(p) && IsVec3(n) && IsVec3(q) && Dot(n, n) > 0.0
    ensures Selects(Halfspace(p, n), q[0], q[1], q[2]) <==> exists t, w :: t > 0.0 && IsReached(q, p, n, t, w)
  {
    var d := [q[0] - p[0], q[1] - p[1], q[2] - p[2]];
    assert Selects(Halfspace(p, n), q[0], q[1], q[2]) <==> Dot(d, n) > 0.0;
    hide Dot, Selects;
    if t, w :| t > 0.0 && IsReached(q, p, n, t, w) {
      Sideways(t, n, w, d);
      SignOfProduct(t, Dot(n, n));
    }
    if Dot(d, n) > 0.0 {
      var t, w := Straight(d, n);
      assert IsReached(q, p, n, t, w);
    }
  }

  lemma Straight(d: seq<real>, n: seq<real>) returns (t: real, w: seq<real>)
    requires IsVec3(d) && IsVec3(n) && Dot(n, n) > 0.0 && Dot(d, n) > 0.0
    ensures t > 0.0 && IsVec3(w) && Dot(w, n) == 0.0 && forall i | 0 <= i < 3 :: d[i] == t * n[i] + w[i]
  {
    t := Dot(d, n) / Dot(n, n);
    w := [d[0] - t * n[0], d[1] - t * n[1], d[2] - t * n[2]];
    Sideways(t, n, w, d);
    hide Dot;
    QuotientTimes(Dot(d, n), Dot(n, n));
    SignOfProduct(t, Dot(n, n));
  }

  /** A part of the way from `a` to `b`, from none to all of it. */
  ghost predicate OnTheWay(a: real, b: real, s: real, x: real) {
    0.0 <= s <= 1.0 && x == a + s * (b - a)
  }

  lemma ProductNotNegative(a: real, b: real)
    requires a >= 0.0 && b >= 0.0
    ensures a * b >= 0.0
  {}

  lemma QuotientTimes(a: real, b: real)
    requires b > 0.0
    ensures (a / b) * b == a
    ensures 0.0 <= a <= b ==> 0.0 <= a / b <= 1.0
  {}

  lemma PartOfTheWay(a: real, b: real, x: real) returns (s: real)
    requires a <= b
    ensures a <= x <= b ==> OnTheWay(a, b, s, x)
  {
    s := 0.0;
    if a < b {
      s := (x - a) / (b - a);
      QuotientTimes(x - a, b - a);
    }
  }

  lemma WayStaysBetween(a: real, b: real, s: real, x: real)
    requires a <= b && OnTheWay(a, b, s, x)
    ensures a <= x <= b
  {
    ProductNotNegative(s, b - a);
    ProductNotNegative(1.0 - s, b - a);
    assert (1.0 - s) * (b - a) == (b - a) - s * (b - a);
  }

  ghost predicate Mixes(q: seq<real>, min: seq<real>, max: seq<real>, parts: seq<real>)
    requires IsVec3(min) && IsVec3(max) && IsVec3(q)
  {
    IsVec3(parts) && forall i | 0 <= i < 3 :: OnTheWay(min[i], max[i], parts[i], q[i])
  }

  /** A box holds exactly the points that mix its corners, in each coordinate by a part of its own. */
  lemma BoxHolds(min: seq<real>, max: seq<real>, q: seq<real>)
    requires Proper(Box(min, max)) && IsVec3(q)
    ensures Selects(Box(min, max), q[0], q[1], q[2])
            <==> exists parts :: Mixes(q, min, max, parts)
  {
    if parts :| Mixes(q, min, max, parts) {
      forall i | 0 <= i < 3
        ensures min[i] <= q[i] <= max[i]
      {
        WayStaysBetween(min[i], max[i], parts[i], q[i]);
      }
    }
    if Selects(Box(min, max), q[0], q[1], q[2]) {
      var a := PartOfTheWay(min[0], max[0], q[0]);
      var b := PartOfTheWay(min[1], max[1], q[1]);
      var c := PartOfTheWay(min[2], max[2], q[2]);
      assert Mixes(q, min, max, [a, b, c]);
    }
  }

  // ---------------------------------------------------------------- moving the points

  /** Point `p` of `after` is that of `before`, shifted by `t` if the region holds it. */
  ghost predicate PointMoved(before: seq<real>, after: seq<real>, p: nat, region: Region, t: seq<real>)
    requires Shaped(region) && IsVec3(t) && |after| == |before| && 3 * p + 2 < |before|
  {
    var (x, y, z) := (before[3 * p], before[3 * p + 1], before[3 * p + 2]);
    var moved := Selects(region, x, y, z);
    && after[3 * p] == (if moved then x + t[0] else x)
    && after[3 * p + 1] == (if moved then y + t[1] else y)
    && after[3 * p + 2] == (if moved then z + t[2] else z)
  }

  ghost predicate Moved(before: seq<real>, after: seq<real>, region: Region, t: seq<real>)
    requires Shaped(region) && IsVec3(t) && |before| % 3 == 0
  {
    |after| == |before| && forall p | 0 <= p < |before| / 3 :: PointMoved(before, after, p, region, t)
  }

  /** Shifts the coordinates in place. */
  method Shift(xyz: array<real>, region: Region, t: seq<real>)
    requires Shaped(region) && IsVec3(t) && xyz.Length % 3 == 0
    modifies xyz
    ensures Moved(old(xyz[..]), xyz[..], region, t)
  {
    ghost var before := xyz[..];
    var n := xyz.Length / 3;
    hide Selects;
    for p := 0 to n
      invariant forall q | 0 <= q < p :: PointMoved(before, xyz[..], q, region, t)
      invariant forall i | 3 * p <= i < xyz.Length :: xyz[i] == before[i]
    {
      ghost var was := xyz[..];
      var x, y, z := xyz[3 * p], xyz[3 * p + 1], xyz[3 * p + 2];
      if Selects(region, x, y, z) {
        xyz[3 * p] := x + t[0];
        xyz[3 * p + 1] := y + t[1];
        xyz[3 * p + 2] := z + t[2];
      }
      forall q | 0 <= q < p
        ensures PointMoved(before, xyz[..], q, region, t)
      {
        assert PointMoved(before, was, q, region, t);
      }
      assert PointMoved(before, xyz[..], p, region, t);
    }
  }

  /**
   The cloud with the points of the region shifted; as many points in the same order, the other channels as they
   were. A region that selects nothing definite is refused.
   */
  method Compute(cloud: PointCloud, region: Region, t: seq<real>) returns (r: Result<PointCloud, Error>)
    requires Shaped(region) && IsVec3(t) && |cloud.xyz| % 3 == 0
    ensures region.Halfspace? ==> 
              (r.Ok? <==> Dot(region.normal, region.normal) > 0.000000001 * 0.000000001)
    ensures region.Box? ==> (r.Ok? <==> forall i | 0 <= i < 3 :: region.min[i] <= region.max[i])
    ensures r.Err? ==> r.error == BadParam(if region.Halfspace? then "normal" else "boxMin")
    ensures r.Ok? ==> r.value == cloud.(xyz := r.value.xyz) && Moved(cloud.xyz, r.value.xyz, region, t)
  {
    if !Proper(region) {
      return Err(BadParam(if region.Halfspace? then "normal" else "boxMin"));
    }
    var xyz := new real[|cloud.xyz|](i requires 0 <= i < |cloud.xyz| => cloud.xyz[i]);
    assert xyz[..] == cloud.xyz;
    Shift(xyz, region, t);
    return Ok(cloud.(xyz := xyz[..]));
  }

  // ---------------------------------------------------------------- what a displacement does

  lemma Coordinate(xs: seq<real>, i: nat)
    requires |xs| % 3 == 0 && i < |xs|
    ensures i / 3 < |xs| / 3 && (i == 3 * (i / 3) || i == 3 * (i / 3) + 1 || i == 3 * (i / 3) + 2)
  {}

  /** The result is determined by the cloud, the region and the shift. */
  lemma MovedUnique(before: seq<real>, a: seq<real>, b: seq<real>, region: Region, t: seq<real>)
    requires Shaped(region) && IsVec3(t) && |before| % 3 == 0
    requires Moved(before, a, region, t) && Moved(before, b, region, t)
    ensures a == b
  {
    hide Selects;
    forall i | 0 <= i < |before|
      ensures a[i] == b[i]
    {
      Coordinate(before, i);
      assert PointMoved(before, a, i / 3, region, t) && PointMoved(before, b, i / 3, region, t);
    }
  }

  /** A zero shift moves nothing. */
  lemma ZeroMovesNothing(xyz: seq<real>, region: Region)
    requires Shaped(region) && |xyz| % 3 == 0
    ensures Moved(xyz, xyz, region, [0.0, 0.0, 0.0])
  {}

  /** Any other shift moves the points of the region, and no others. */
  lemma ShiftMovesSelected(before: seq<real>, after: seq<real>, region: Region, t: seq<real>, p: nat)
    requires Shaped(region) && IsVec3(t) && |before| % 3 == 0 && Moved(before, after, region, t) && p < |before| / 3
    requires t != [0.0, 0.0, 0.0]
    ensures Selects(region, before[3 * p], before[3 * p + 1], before[3 * p + 2])
            <==> before[3 * p..3 * p + 3] != after[3 * p..3 * p + 3]
  {
    var u, v := before[3 * p..3 * p + 3], after[3 * p..3 * p + 3];
    assert PointMoved(before, after, p, region, t);
    hide Selects;
    assert u[0] == before[3 * p] && u[1] == before[3 * p + 1] && u[2] == before[3 * p + 2];
    assert v[0] == after[3 * p] && v[1] == after[3 * p + 1] && v[2] == after[3 * p + 2];
    assert t[0] == 0.0 && t[1] == 0.0 && t[2] == 0.0 ==> t == [0.0, 0.0, 0.0];
    if t[0] != 0.0 { assert u[0] != v[0] <==> v[0] == u[0] + t[0]; }
  }
}
