/**
 Checking the values of a recipe against the graph's parameters, and the repair suggested for each value
 that does not fit (bridge/src/recipe.rs). Numbers are reals. How a number prints is a parameter, as is the
 digest of the parameter table.
 */
module RecipeRepair {
  import opened Outcomes
  import opened Graphs
  import opened Rounding
  import Curve
  import opened CurveShapes
  import JsNumbers
  import JsonText

  datatype Kind = Extra | Type | Range | Spec

  datatype Fix = Delete | Set(value: Json) | Rebase

  datatype Check = Check(kind: Kind, fix: Fix)

  // ---------------------------------------------------------------- reading a declaration

  function NumberField(v: Json, key: string): Option<real> {
    match Field(v, key)
    case Some(Num(x)) => Some(x)
    case _ => None
  }

  function LimitsOf(gp: Json): Limits {
    Limits(NumberField(gp, "min"), NumberField(gp, "max"))
  }

  function TypeOf(gp: Json): string {
    match Field(gp, "type")
    case Some(Str(t)) => t
    case _ => ""
  }

  function OptionValues(gp: Json): seq<Option<Json>> {
    match Field(gp, "options")
    case Some(Arr(items)) => seq(|items|, i requires 0 <= i < |items| => Field(items[i], "value"))
    case _ => []
  }

  // ---------------------------------------------------------------- numbers

  predicate AllIn(xs: seq<real>, lim: Limits) {
    forall x <- xs :: InLimits(x, lim)
  }

  function Clamped(x: real, lim: Limits, whole: bool): real {
    var lo := if whole && lim.min.Some? then Some(Ceil(lim.min.value)) else lim.min;
    var hi := if whole && lim.max.Some? then Some(Floor(lim.max.value)) else lim.max;
    if lo.Some? && x < lo.value then lo.value
    else if hi.Some? && x > hi.value then hi.value
    else x
  }

  /** The first number beyond its limits. */
  method RangeProblem(xs: seq<real>, lim: Limits) returns (problem: Option<nat>)
    ensures problem.None? <==> AllIn(xs, lim)
    ensures problem.Some?
            ==> problem.value < |xs| && !InLimits(xs[problem.value], lim) && AllIn(xs[..problem.value], lim)
  {
    for i := 0 to |xs|
      invariant AllIn(xs[..i], lim)
    {
      assert xs[..i + 1] == xs[..i] + [xs[i]] && xs[i] in xs;
      if lim.min.Some? && xs[i] < lim.min.value {
        return Some(i);
      }
      if lim.max.Some? && xs[i] > lim.max.value {
        return Some(i);
      }
    }
    assert xs[..|xs|] == xs;
    return None;
  }

  // ---------------------------------------------------------------- text

  function Lowered(s: string): string {
    seq(|s|, i requires 0 <= i < |s| => if 'A' <= s[i] <= 'Z' then s[i] - 'A' + 'a' else s[i])
  }

  /** Two digits a component. */
  function HexComponents(hex: string): (xs: seq<real>)
    requires forall c <- hex :: JsonText.HexValue(c).Some?
    ensures |xs| == |hex| / 2
  {
    seq(|hex| / 2, i requires 0 <= i < |hex| / 2 =>
      (16 * JsonText.HexValue(hex[2 * i]).value + JsonText.HexValue(hex[2 * i + 1]).value) as real / 255.0)
  }

  /** `#rrggbb` or `#rrggbbaa`, each component a byte over 255. */
  function HexColor(s: string): (color: Option<seq<real>>)
    ensures color.Some? ==> |color.value| == 3 || |color.value| == 4
  {
    var t := JsNumbers.Trimmed(s);
    if t == "" || t[0] != '#' then None
    else
      var hex := t[1..];
      if (|hex| == 6 || |hex| == 8) && forall c <- hex :: JsonText.HexValue(c).Some? then
        Some(HexComponents(hex))
      else None
  }

  /** A number, or a string that writes one as a decimal. */
  function AsNumber(v: Json): Option<real> {
    match v
    case Num(x) => Some(x)
    case Str(s) => JsNumbers.DecimalString(s)
    case _ => None
  }

  /** A number or a truth value as JavaScript prints it. */
  function AsText(v: Json, text: real -> string): Option<string> {
    match v
    case Num(x) => Some(text(x))
    case Bool(b) => Some(if b then "true" else "false")
    case _ => None
  }

  // ---------------------------------------------------------------- curves

  /** What the core demands of a curve value too. */
  predicate CurveFits(v: Json, lim: Limits) {
    CurveShape(v) && Curve.ValidCurve(PointsOf(v), lim)
  }

  /** The editor's check of a curve, one control point after another. */
  method CurveProblem(v: Json, lim: Limits) returns (ok: bool)
    ensures ok <==> CurveFits(v, lim)
  {
    if !v.Obj? || (exists k <- v.fields :: k != "points" && k != "interp") {
      return false;
    }
    if "interp" in v.fields && v.fields["interp"] != Str("linear") && v.fields["interp"] != Str("smooth") {
      return false;
    }
    if "points" !in v.fields || !v.fields["points"].Arr? || |v.fields["points"].items| < 2 {
      return false;
    }
    var items := v.fields["points"].items;
    var prev := 0.0;
    for i := 0 to |items|
      invariant forall k | 0 <= k < i :: IsPoint(items[k])
      invariant forall k | 0 <= k < i :: 0.0 <= PointOf(items[k]).x <= 1.0 && InLimits(PointOf(items[k]).y, lim)
      invariant forall j, k | 0 <= j < k < i :: PointOf(items[j]).x < PointOf(items[k]).x
      invariant i > 0 ==> prev == PointOf(items[i - 1]).x
    {
      if !IsPoint(items[i]) {
        assert items[i] in items;
        return false;
      }
      var x, y := items[i].items[0].n, items[i].items[1].n;
      if !(0.0 <= x <= 1.0) || (i > 0 && x <= prev) || !InLimits(y, lim) {
        if CurveShape(v) { Curve.BadPoint(PointsOf(v), lim, i); }
        return false;
      }
      prev := x;
    }
    return true;
  }

  /** The curve with every y moved into the limits. */
  function CurveClamped(v: Json, lim: Limits): Json
    requires CurveShape(v)
  {
    var pts := PointsOf(v);
    var moved := Arr(seq(|pts|, i requires 0 <= i < |pts| => Arr([Num(pts[i].x), Num(Clamped(pts[i].y, lim, false))])));
    if "interp" in v.fields then Obj(map["points" := moved, "interp" := v.fields["interp"]])
    else Obj(map["points" := moved])
  }

  // ---------------------------------------------------------------- checking one value

  function TypeCheck(converted: Option<Json>): Check {
    Check(Type, if converted.Some? then Set(converted.value) else Delete)
  }

  function CheckBool(v: Json): Option<Check> {
    match v
    case Bool(_) => None
    case Num(x) => Some(TypeCheck(if x == 0.0 || x == 1.0 then Some(Bool(x == 1.0)) else None))
    case Str(s) =>
      var t := Lowered(JsNumbers.Trimmed(s));
      Some(TypeCheck(if t == "true" || t == "false" then Some(Bool(t == "true")) else None))
    case _ => Some(TypeCheck(None))
  }

  function CheckInt(v: Json, lim: Limits): Option<Check> {
    if v.Num? && IsWhole(v.n) then
      if InLimits(v.n, lim) then None else Some(Check(Range, Set(Num(Clamped(v.n, lim, true)))))
    else
      match AsNumber(v)
      case Some(x) => Some(TypeCheck(Some(Num(Clamped(RoundHalfAway(x), lim, true)))))
      case None => Some(TypeCheck(None))
  }

  function CheckFloat(v: Json, lim: Limits): Option<Check> {
    if v.Num? then
      if InLimits(v.n, lim) then None else Some(Check(Range, Set(Num(Clamped(v.n, lim, false)))))
    else
      match AsNumber(v)
      case Some(x) => Some(TypeCheck(Some(Num(Clamped(x, lim, false)))))
      case None => Some(TypeCheck(None))
  }

  /** How many numbers a value of this type has; a colour may also have four. */
  function Width(ty: string): nat {
    if ty == "vec2f" then 2 else if ty == "vec3f" || ty == "color" then 3 else if ty == "vec4f" then 4 else 16
  }

  predicate WidthOk(ty: string, len: nat) {
    len == Width(ty) || (ty == "color" && len == 4)
  }

  predicate AllNumbers(v: Json) {
    v.Arr? && forall x <- v.items :: x.Num?
  }

  function Numbers(v: Json): seq<real>
    requires AllNumbers(v)
  {
    seq(|v.items|, i requires 0 <= i < |v.items| => v.items[i].n)
  }

  function ClampAll(xs: seq<real>, lim: Limits): Json {
    Arr(seq(|xs|, i requires 0 <= i < |xs| => Num(Clamped(xs[i], lim, false))))
  }

  /** A value of the wrong shape as a vector: one number spread, a longer array cut, a colour name read. */
  function AsVector(ty: string, v: Json): Option<seq<real>> {
    var keep := if ty == "color" then 4 else Width(ty);
    if v.Num? && ty != "transform" then Some(seq(Width(ty), _ => v.n))
    else if AllNumbers(v) && |v.items| > keep then Some(Numbers(v)[..keep])
    else if ty == "color" && v.Str? then HexColor(v.s)
    else None
  }

  function CheckVector(ty: string, v: Json, lim: Limits): Option<Check> {
    if AllNumbers(v) && WidthOk(ty, |v.items|) then
      if AllIn(Numbers(v), lim) then None else Some(Check(Range, Set(ClampAll(Numbers(v), lim))))
    else
      match AsVector(ty, v)
      case Some(xs) => Some(TypeCheck(Some(ClampAll(xs, lim))))
      case None => Some(TypeCheck(None))
  }

  predicate Offered(options: seq<Option<Json>>, s: string) {
    options == [] || Some(Str(s)) in options
  }

  function CheckEnum(v: Json, options: seq<Option<Json>>, text: real -> string): Option<Check> {
    if v.Str? then
      if Offered(options, v.s) then None else Some(Check(Range, Delete))
    else
      match AsText(v, text)
      case Some(s) => Some(TypeCheck(if Offered(options, s) then Some(Str(s)) else None))
      case None => Some(TypeCheck(None))
  }

  function CheckText(v: Json, text: real -> string): Option<Check> {
    if v.Str? then None
    else
      match AsText(v, text)
      case Some(s) => Some(TypeCheck(Some(Str(s))))
      case None => Some(TypeCheck(None))
  }

  function CheckCurve(v: Json, lim: Limits): Option<Check> {
    if !CurveFits(v, NO_LIMITS) then Some(TypeCheck(None))
    else if CurveFits(v, lim) then None
    else Some(Check(Range, Set(CurveClamped(v, lim))))
  }

  predicate IsVector(ty: string) {
    ty == "vec2f" || ty == "vec3f" || ty == "vec4f" || ty == "transform" || ty == "color"
  }

  /** One value against one declaration; a declaration without a type, or of a type unknown here, takes anything. */
  function CheckValue(gp: Json, v: Json, text: real -> string): Option<Check> {
    var lim, ty := LimitsOf(gp), TypeOf(gp);
    if ty == "bool" then CheckBool(v)
    else if ty == "int" || ty == "flags" then CheckInt(v, lim)
    else if ty == "float" then CheckFloat(v, lim)
    else if IsVector(ty) then CheckVector(ty, v, lim)
    else if ty == "enum" then CheckEnum(v, OptionValues(gp), text)
    else if ty == "string" || ty == "text" || ty == "path" then CheckText(v, text)
    else if ty == "curve" then CheckCurve(v, lim)
    else None
  }

  // ---------------------------------------------------------------- a suggested value passes

  predicate Roomy(lim: Limits, whole: bool) {
    lim.min.Some? && lim.max.Some? ==>
      if whole then Ceil(lim.min.value) <= Floor(lim.max.value) else lim.min.value <= lim.max.value
  }

  /** The declared range holds a legal value. */
  predicate Feasible(gp: Json) {
    var lim, ty := LimitsOf(gp), TypeOf(gp);
    && (ty == "int" || ty == "flags" ==> Roomy(lim, true))
    && (ty == "float" || IsVector(ty) || ty == "curve" ==> Roomy(lim, false))
  }

  /** If the check suggests a value, that value passes the check. */
  predicate FixWorks(gp: Json, v: Json, text: real -> string) {
    match CheckValue(gp, v, text)
    case Some(Check(_, Set(w))) => CheckValue(gp, w, text) == None
    case _ => true
  }

  lemma ClampFits(x: real, lim: Limits, whole: bool)
    requires whole ==> IsWhole(x)
    requires Roomy(lim, whole)
    ensures InLimits(Clamped(x, lim, whole), lim) && (whole ==> IsWhole(Clamped(x, lim, whole)))
  {
    if whole {
      if lim.min.Some? { WholeBounds(x, lim.min.value); }
      if lim.max.Some? { WholeBounds(x, lim.max.value); }
    }
  }

  function Distance(x: real, y: real): real {
    if x <= y then y - x else x - y
  }

  /** No legal number is nearer to `x` than the one the clamp gives. */
  lemma ClampIsNearest(x: real, lim: Limits, whole: bool, y: real)
    requires whole ==> IsWhole(x) && IsWhole(y)
    requires InLimits(y, lim)
    ensures InLimits(Clamped(x, lim, whole), lim)
    ensures Distance(x, Clamped(x, lim, whole)) <= Distance(x, y)
  {
    if whole {
      if lim.min.Some? { WholeBounds(x, lim.min.value); WholeBounds(y, lim.min.value); }
      if lim.max.Some? { WholeBounds(x, lim.max.value); WholeBounds(y, lim.max.value); }
    }
  }

  lemma IntFixWorks(v: Json, lim: Limits, w: Json)
    requires Roomy(lim, true) && CheckInt(v, lim).Some? && CheckInt(v, lim).value.fix == Set(w)
    ensures CheckInt(w, lim) == None
  {
    if v.Num? && IsWhole(v.n) {
      ClampFits(v.n, lim, true);
    } else {
      RoundIsWhole(AsNumber(v).value);
      ClampFits(RoundHalfAway(AsNumber(v).value), lim, true);
    }
  }

  lemma FloatFixWorks(v: Json, lim: Limits, w: Json)
    requires Roomy(lim, false) && CheckFloat(v, lim).Some? && CheckFloat(v, lim).value.fix == Set(w)
    ensures CheckFloat(w, lim) == None
  {
    ClampFits(AsNumber(v).value, lim, false);
  }

  lemma ClampAllFits(ty: string, xs: seq<real>, lim: Limits)
    requires Roomy(lim, false) && WidthOk(ty, |xs|)
    ensures CheckVector(ty, ClampAll(xs, lim), lim) == None
  {
    var w := ClampAll(xs, lim);
    forall x <- Numbers(w)
      ensures InLimits(x, lim)
    {
      var i :| 0 <= i < |xs| && Numbers(w)[i] == x;
      ClampFits(xs[i], lim, false);
    }
  }

  lemma VectorFixWorks(ty: string, v: Json, lim: Limits, w: Json)
    requires Roomy(lim, false) && CheckVector(ty, v, lim).Some? && CheckVector(ty, v, lim).value.fix == Set(w)
    ensures CheckVector(ty, w, lim) == None
  {
    if AllNumbers(v) && WidthOk(ty, |v.items|) {
      ClampAllFits(ty, Numbers(v), lim);
    } else {
      ClampAllFits(ty, AsVector(ty, v).value, lim);
    }
  }

  lemma CurveFixWorks(v: Json, lim: Limits)
    requires Roomy(lim, false) && CurveFits(v, NO_LIMITS)
    ensures CurveFits(CurveClamped(v, lim), lim)
  {
    var w := CurveClamped(v, lim);
    var pts := PointsOf(v);
    assert CurveShape(w);
    forall i | 0 <= i < |pts|
      ensures PointsOf(w)[i] == Point(pts[i].x, Clamped(pts[i].y, lim, false))
      ensures InLimits(PointsOf(w)[i].y, lim)
    {
      ClampFits(pts[i].y, lim, false);
    }
  }

  lemma CurveLimitsOnly(v: Json, lim: Limits)
    requires CurveFits(v, lim)
    ensures CurveFits(v, NO_LIMITS)
  {}

  lemma FeasibleFixWorks(gp: Json, v: Json, text: real -> string)
    requires Feasible(gp)
    ensures FixWorks(gp, v, text)
  {
    var lim, ty := LimitsOf(gp), TypeOf(gp);
    match CheckValue(gp, v, text)
    case Some(Check(_, Set(w))) =>
      if ty == "int" || ty == "flags" { IntFixWorks(v, lim, w); }
      else if ty == "float" { FloatFixWorks(v, lim, w); }
      else if IsVector(ty) { VectorFixWorks(ty, v, lim, w); }
      else if ty == "curve" {
        CurveFixWorks(v, lim);
        CurveLimitsOnly(w, lim);
      }
    case _ =>
  }

  lemma NoRoom(x: real, lim: Limits, whole: bool)
    requires !Roomy(lim, whole) && (whole ==> IsWhole(x))
    ensures !InLimits(x, lim)
  {
    if whole {
      WholeBounds(x, lim.min.value);
      WholeBounds(x, lim.max.value);
    }
  }

  /** A range without a legal value lets nothing pass. */
  lemma NothingPasses(gp: Json, v: Json, text: real -> string)
    requires !Feasible(gp)
    ensures CheckValue(gp, v, text).Some?
  {
    var lim, ty := LimitsOf(gp), TypeOf(gp);
    if ty == "int" || ty == "flags" {
      if v.Num? && IsWhole(v.n) { NoRoom(v.n, lim, true); }
    } else if ty == "float" {
      if v.Num? { NoRoom(v.n, lim, false); }
    } else if ty == "curve" {
      if CurveShape(v) { NoRoom(PointsOf(v)[0].y, lim, false); }
    } else if AllNumbers(v) && WidthOk(ty, |v.items|) {
      NoRoom(Numbers(v)[0], lim, false);
    }
  }

  /** A value that some fix is suggested for whenever the declaration has a range. */
  function Sample(gp: Json): Json {
    var ty := TypeOf(gp);
    if ty == "curve" then Obj(map["points" := Arr([Arr([Num(0.0), Num(0.0)]), Arr([Num(1.0), Num(0.0)])])])
    else if ty == "transform" then Arr(seq(16, _ => Num(0.0)))
    else Num(0.0)
  }

  lemma SampleIsFixed(gp: Json, text: real -> string)
    requires !Feasible(gp)
    ensures CheckValue(gp, Sample(gp), text).Some? && CheckValue(gp, Sample(gp), text).value.fix.Set?
  {
    NothingPasses(gp, Sample(gp), text);
    hide HexColor, CheckEnum, CheckText, CheckBool, Clamped, AllIn, InLimits;
    var v := Sample(gp);
    if TypeOf(gp) == "curve" {
      assert CurveShape(v);
      var pts := PointsOf(v);
      assert pts == [Point(0.0, 0.0), Point(1.0, 0.0)];
      assert CurveFits(v, NO_LIMITS);
    }
  }

  /** Every suggested value passes exactly when the declared range holds a legal value. */
  lemma FixesWorkIffFeasible(gp: Json, text: real -> string)
    ensures (forall v :: FixWorks(gp, v, text)) <==> Feasible(gp)
  {
    if Feasible(gp) {
      forall v
        ensures FixWorks(gp, v, text)
      {
        FeasibleFixWorks(gp, v, text);
      }
    } else {
      SampleIsFixed(gp, text);
      NothingPasses(gp, CheckValue(gp, Sample(gp), text).value.fix.value, text);
      assert !FixWorks(gp, Sample(gp), text);
    }
  }
}
