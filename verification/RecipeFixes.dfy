/**
 What the recipe check accepts and what its suggestions change (bridge/src/recipe.rs): the values it lets
 pass are those the declaration allows, and a suggested number is the allowed one nearest to what was written.
 */
module RecipeFixes {
  import opened Outcomes
  import opened Graphs
  import opened Rounding
  import opened CurveShapes
  import opened RecipeRepair
  import JsNumbers
  import JsonText

  // ---------------------------------------------------------------- what a declaration allows

  predicate IsType(gp: Json, ty: string) {
    Field(gp, "type") == Some(Str(ty))
  }

  /** The number lies within the declared limits. */
  ghost predicate Within(gp: Json, x: real) {
    && (forall a :: Field(gp, "min") == Some(Num(a)) ==> a <= x)
    && (forall b :: Field(gp, "max") == Some(Num(b)) ==> x <= b)
  }

  ghost predicate IsVectorOf(gp: Json, v: Json, n: nat) {
    v.Arr? && |v.items| == n && forall i | 0 <= i < n :: v.items[i].Num? && Within(gp, v.items[i].n)
  }

  /** The options, if there are any, hold this value. */
  ghost predicate IsOption(gp: Json, v: Json) {
    forall items :: Field(gp, "options") == Some(Arr(items)) && items != [] ==>
                      exists i :: 0 <= i < |items| && Field(items[i], "value") == Some(v)
  }

  ghost predicate IsCurve(gp: Json, v: Json) {
    CurveShape(v) &&
    var pts := PointsOf(v);
    && (forall i | 0 <= i < |pts| :: 0.0 <= pts[i].x <= 1.0 && Within(gp, pts[i].y))
    && (forall i, j | 0 <= i < j < |pts| :: pts[i].x < pts[j].x)
  }

  /** The values a declaration of type `ty` allows; one of a type unknown here allows anything. */
  ghost predicate LegalAs(gp: Json, ty: string, v: Json) {
    if ty == "bool" then v.Bool?
    else if ty == "int" || ty == "flags" then v.Num? && Within(gp, v.n) && IsWhole(v.n)
    else if ty == "float" then v.Num? && Within(gp, v.n)
    else if ty == "vec2f" then IsVectorOf(gp, v, 2)
    else if ty == "vec3f" then IsVectorOf(gp, v, 3)
    else if ty == "vec4f" then IsVectorOf(gp, v, 4)
    else if ty == "transform" then IsVectorOf(gp, v, 16)
    else if ty == "color" then IsVectorOf(gp, v, 3) || IsVectorOf(gp, v, 4)
    else if ty == "enum" then v.Str? && IsOption(gp, v)
    else if ty == "string" || ty == "text" || ty == "path" then v.Str?
    else if ty == "curve" then IsCurve(gp, v)
    else true
  }

  /** The values a declaration allows; one without a type allows anything. */
  ghost predicate Legal(gp: Json, v: Json) {
    match Field(gp, "type")
    case Some(Str(ty)) => LegalAs(gp, ty, v)
    case _ => true
  }

  lemma WithinIsInLimits(gp: Json, x: real)
    ensures Within(gp, x) <==> InLimits(x, LimitsOf(gp))
  {
    var a, b := Field(gp, "min"), Field(gp, "max");
    if a.Some? && a.value.Num? { assert Field(gp, "min") == Some(Num(a.value.n)); }
    if b.Some? && b.value.Num? { assert Field(gp, "max") == Some(Num(b.value.n)); }
  }

  lemma OfferedIsOption(gp: Json, s: string)
    ensures Offered(OptionValues(gp), s) <==> IsOption(gp, Str(s))
  {
    var options := OptionValues(gp);
    match Field(gp, "options")
    case Some(Arr(items)) =>
      assert forall i | 0 <= i < |items| :: options[i] == Field(items[i], "value");
      assert items == [] <==> options == [];
      if items != [] {
        if Some(Str(s)) in options {
          var i :| 0 <= i < |options| && options[i] == Some(Str(s));
          assert Field(items[i], "value") == Some(Str(s));
        }
        if i :| 0 <= i < |items| && Field(items[i], "value") == Some(Str(s)) { assert options[i] in options; }
      }
    case _ => assert options == [];
  }

  lemma VectorPasses(gp: Json, v: Json, ty: string)
    ensures CheckVector(ty, v, LimitsOf(gp)).None? <==> v.Arr? && WidthOk(ty, |v.items|) && IsVectorOf(gp, v, |v.items|)
  {
    var lim := LimitsOf(gp);
    forall x
      ensures Within(gp, x) <==> InLimits(x, lim)
    {
      WithinIsInLimits(gp, x);
    }
    hide LimitsOf, Within, InLimits, AsVector, WidthOk;
    if v.Arr? {
      assert AllNumbers(v) <==> forall i | 0 <= i < |v.items| :: v.items[i].Num?;
      if AllNumbers(v) {
        var xs := Numbers(v);
        assert forall i | 0 <= i < |xs| :: xs[i] in xs && xs[i] == v.items[i].n;
      }
    }
  }

  lemma CurvePasses(gp: Json, v: Json)
    ensures CheckCurve(v, LimitsOf(gp)).None? <==> IsCurve(gp, v)
  {
    var lim := LimitsOf(gp);
    forall x
      ensures Within(gp, x) <==> InLimits(x, lim)
    {
      WithinIsInLimits(gp, x);
    }
    if CurveFits(v, lim) { CurveLimitsOnly(v, lim); }
    hide LimitsOf, Within, InLimits, CurveClamped;
  }

  lemma NumberPasses(gp: Json, v: Json)
    ensures CheckInt(v, LimitsOf(gp)).None? <==> v.Num? && Within(gp, v.n) && IsWhole(v.n)
    ensures CheckFloat(v, LimitsOf(gp)).None? <==> v.Num? && Within(gp, v.n)
  {
    if v.Num? { WithinIsInLimits(gp, v.n); }
    hide LimitsOf, Within, InLimits, AsNumber, Clamped;
  }

  lemma VectorLegal(gp: Json, v: Json, ty: string)
    requires IsVector(ty)
    ensures CheckVector(ty, v, LimitsOf(gp)).None? <==> LegalAs(gp, ty, v)
  {
    VectorPasses(gp, v, ty);
    hide CheckVector, LimitsOf, Within;
  }

  lemma LegalByType(gp: Json, v: Json)
    ensures Legal(gp, v) <==> LegalAs(gp, TypeOf(gp), v)
  {
    hide IsVectorOf, IsCurve, IsOption, Within;
  }

  lemma EnumPasses(gp: Json, v: Json, text: real -> string)
    ensures CheckEnum(v, OptionValues(gp), text).None? <==> v.Str? && IsOption(gp, v)
  {
    if v.Str? { OfferedIsOption(gp, v.s); }
    hide Offered, IsOption, OptionValues, AsText;
  }

  lemma PassesAs(gp: Json, v: Json, text: real -> string)
    ensures CheckValue(gp, v, text).None? <==> LegalAs(gp, TypeOf(gp), v)
  {
    hide TypeOf, LimitsOf, CheckInt, CheckFloat, CheckVector, CheckEnum, CheckCurve, IsCurve, Within, IsOption,
         IsVectorOf, IsWhole;
    NumberPasses(gp, v);
    CurvePasses(gp, v);
    EnumPasses(gp, v, text);
    if IsVector(TypeOf(gp)) { VectorLegal(gp, v, TypeOf(gp)); }
  }

  /** The check lets a value pass exactly when the declaration allows it. */
  lemma PassesIffLegal(gp: Json, v: Json, text: real -> string)
    ensures CheckValue(gp, v, text).None? <==> Legal(gp, v)
  {
    hide *;
    PassesAs(gp, v, text);
    LegalByType(gp, v);
  }

  /** The declaration without its limits and options. */
  function Bare(gp: Json): Json {
    if gp.Obj? then Obj(gp.fields - {"min", "max", "options"}) else gp
  }

  lemma BareIs(gp: Json)
    ensures TypeOf(Bare(gp)) == TypeOf(gp) && LimitsOf(Bare(gp)) == NO_LIMITS && OptionValues(Bare(gp)) == []
    ensures forall ty :: IsType(Bare(gp), ty) <==> IsType(gp, ty)
  {
    assert Field(Bare(gp), "type") == Field(gp, "type");
    assert Field(Bare(gp), "min") == None && Field(Bare(gp), "max") == None && Field(Bare(gp), "options") == None;
  }

  lemma VectorKind(ty: string, v: Json, lim: Limits)
    ensures CheckVector(ty, v, lim).Some? ==>
              CheckVector(ty, v, lim).value.kind == if CheckVector(ty, v, NO_LIMITS).None? then Range else Type
  {
    hide AsVector, WidthOk, ClampAll;
  }

  lemma NumberKind(v: Json, lim: Limits)
    ensures CheckInt(v, lim).Some? ==>
              CheckInt(v, lim).value.kind == if CheckInt(v, NO_LIMITS).None? then Range else Type
    ensures CheckFloat(v, lim).Some? ==>
              CheckFloat(v, lim).value.kind == if CheckFloat(v, NO_LIMITS).None? then Range else Type
  {
    hide AsNumber, Clamped, IsWhole;
  }

  lemma TextKind(v: Json, options: seq<Option<Json>>, text: real -> string)
    ensures CheckEnum(v, options, text).Some? ==>
              CheckEnum(v, options, text).value.kind == if CheckEnum(v, [], text).None? then Range else Type
    ensures CheckText(v, text).Some? ==> CheckText(v, text).value.kind == Type
    ensures CheckBool(v).Some? ==> CheckBool(v).value.kind == Type
    ensures CheckCurve(v, NO_LIMITS).Some? ==> CheckCurve(v, NO_LIMITS).value.kind == Type
  {
    hide AsText, Lowered, CurveFits, CurveClamped;
  }

  lemma CurveKind(v: Json, lim: Limits)
    ensures CheckCurve(v, lim).Some? ==>
              CheckCurve(v, lim).value.kind == if CheckCurve(v, NO_LIMITS).None? then Range else Type
  {
    hide CurveFits, CurveClamped;
  }

  /**
   The kinds of a problem: a value of the right shape is beyond its limits or not offered, any other of the
   wrong type.
   */
  lemma KindOfProblem(gp: Json, v: Json, text: real -> string)
    requires CheckValue(gp, v, text).Some?
    ensures CheckValue(gp, v, text).value.kind == if Legal(Bare(gp), v) then Range else Type
  {
    var lim, ty := LimitsOf(gp), TypeOf(gp);
    PassesIffLegal(Bare(gp), v, text);
    BareIs(gp);
    NumberKind(v, lim);
    VectorKind(ty, v, lim);
    TextKind(v, OptionValues(gp), text);
    CurveKind(v, lim);
    hide Legal, OptionValues, LimitsOf, TypeOf, CheckInt, CheckFloat, CheckVector, CheckEnum, CheckText, CheckBool,
         CheckCurve;
  }

  // ---------------------------------------------------------------- what is suggested for numbers

  lemma NearestWhole(x: real, y: real)
    requires IsWhole(y)
    ensures Distance(x, RoundHalfAway(x)) <= Distance(x, y)
  {
    var r := RoundHalfAway(x);
    RoundIsWhole(x);
    if y > r { WholeApart(y, r); }
    if y < r { WholeApart(r, y); }
  }

  /** Rounding first and clamping then still gives the nearest of the legal whole numbers. */
  lemma RoundedClampIsNearest(x: real, lim: Limits, y: real)
    requires InLimits(y, lim) && IsWhole(y)
    ensures Distance(x, Clamped(RoundHalfAway(x), lim, true)) <= Distance(x, y)
  {
    var r := RoundHalfAway(x);
    var w := Clamped(r, lim, true);
    RoundIsWhole(x);
    NearestWhole(x, y);
    if lim.min.Some? { WholeBounds(r, lim.min.value); WholeBounds(y, lim.min.value); }
    if lim.max.Some? { WholeBounds(r, lim.max.value); WholeBounds(y, lim.max.value); }
    if w > r { WholeApart(w, r); }
    if w < r { WholeApart(r, w); }
  }

  /** A number, or a string that writes one. */
  predicate Writes(v: Json, x: real) {
    v == Num(x) || (v.Str? && JsNumbers.DecimalString(v.s) == Some(x))
  }

  /**
   What is suggested for a number, or a string that writes one, is the nearest number the declaration allows; for
   anything else nothing is.
   */
  lemma SuggestedNumberIsNearest(gp: Json, v: Json, text: real -> string, y: real)
    requires IsType(gp, "int") || IsType(gp, "flags") || IsType(gp, "float")
    requires CheckValue(gp, v, text).Some? && Legal(gp, Num(y))
    ensures var fix := CheckValue(gp, v, text).value.fix;
            if exists x :: Writes(v, x)
            then fix.Set? && Legal(gp, fix.value) && fix.value.Num?
                 && forall x | Writes(v, x) :: Distance(x, fix.value.n) <= Distance(x, y)
            else fix == Delete
  {
    var lim, whole := LimitsOf(gp), TypeOf(gp) != "float";
    WithinIsInLimits(gp, y);
    if x :| Writes(v, x) {
      assert AsNumber(v) == Some(x);
      if whole && IsWhole(x) && v.Num? {
        ClampIsNearest(x, lim, true, y);
      } else if whole {
        RoundedClampIsNearest(x, lim, y);
      } else {
        ClampIsNearest(x, lim, false, y);
      }
      HasRoom(y, lim, whole);
      FeasibleFixWorks(gp, v, text);
      PassesIffLegal(gp, CheckValue(gp, v, text).value.fix.value, text);
    } else {
      NothingWritten(v);
    }
  }

  lemma NothingWritten(v: Json)
    requires forall x :: !Writes(v, x)
    ensures AsNumber(v).None? && !v.Num?
  {
    var x := match AsNumber(v) case Some(y) => y case None => 0.0;
    assert !Writes(v, x);
  }

  lemma HasRoom(y: real, lim: Limits, whole: bool)
    requires InLimits(y, lim) && (whole ==> IsWhole(y))
    ensures Roomy(lim, whole)
  {
    if lim.min.Some? && lim.max.Some? && whole {
      WholeBounds(y, lim.min.value);
      WholeBounds(y, lim.max.value);
    }
  }

  // ---------------------------------------------------------------- for vectors and curves

  /** `w` has the numbers `xs`, each moved to the nearest the declaration allows. */
  ghost predicate IsNearest(gp: Json, xs: seq<real>, w: Json) {
    && w.Arr? && |w.items| == |xs|
    && forall i, y | 0 <= i < |xs| && Within(gp, y) ::
         w.items[i].Num? && Within(gp, w.items[i].n) && Distance(xs[i], w.items[i].n) <= Distance(xs[i], y)
  }

  lemma ClampAllIsNearest(gp: Json, xs: seq<real>)
    ensures IsNearest(gp, xs, ClampAll(xs, LimitsOf(gp)))
  {
    var w := ClampAll(xs, LimitsOf(gp));
    forall i, y | 0 <= i < |xs| && Within(gp, y)
      ensures w.items[i].Num? && Within(gp, w.items[i].n) && Distance(xs[i], w.items[i].n) <= Distance(xs[i], y)
    {
      WithinIsInLimits(gp, y);
      ClampIsNearest(xs[i], LimitsOf(gp), false, y);
      WithinIsInLimits(gp, w.items[i].n);
    }
  }

  /** `xs` are the first numbers of the array `v`. */
  predicate StartsAs(v: Json, xs: seq<real>) {
    v.Arr? && |xs| <= |v.items| && forall i | 0 <= i < |xs| :: v.items[i] == Num(xs[i])
  }

  /** How many numbers a vector of this type has, for a colour at least and at most. */
  predicate HasWidth(gp: Json, least: nat, most: nat) {
    || (IsType(gp, "vec2f") && least == most == 2) || (IsType(gp, "vec3f") && least == most == 3)
    || (IsType(gp, "vec4f") && least == most == 4) || (IsType(gp, "transform") && least == most == 16)
    || (IsType(gp, "color") && least == 3 && most == 4)
  }

  /** The numbers a value that is not legal is taken to mean. */
  ghost predicate Means(gp: Json, v: Json, least: nat, most: nat, xs: seq<real>) {
    || (StartsAs(v, xs) && AllNumbers(v) && |xs| == (if |v.items| > most then most else |v.items|) && |xs| >= least)
    || (v.Num? && least != 16 && |xs| == least && forall i | 0 <= i < |xs| :: xs[i] == v.n)
    || (v.Str? && IsType(gp, "color") && HexColor(v.s) == Some(xs))
  }

  /**
   What is suggested for a vector: an array that is long enough keeps its numbers, up to the width; one number
   stands for all components, but not of a transform; a colour can be written in hexadecimal; each component becomes
   the nearest the declaration allows. For anything else nothing is suggested.
   */
  lemma SuggestedVectorIsNearest(gp: Json, v: Json, text: real -> string, least: nat, most: nat)
    requires HasWidth(gp, least, most) && CheckValue(gp, v, text).Some?
    ensures var fix := CheckValue(gp, v, text).value.fix;
            if exists xs :: Means(gp, v, least, most, xs)
            then fix.Set? && forall xs | Means(gp, v, least, most, xs) :: IsNearest(gp, xs, fix.value)
            else fix == Delete
  {
    var ty, lim := TypeOf(gp), LimitsOf(gp);
    var check := CheckVector(ty, v, lim);
    assert CheckValue(gp, v, text) == check;
    SomethingMeant(gp, v, least, most);
    if xs :| Means(gp, v, least, most, xs) {
      ClampAllIsNearest(gp, xs);
      SuggestedForMeant(gp, v, least, most, xs);
      forall zs | Means(gp, v, least, most, zs)
        ensures zs == xs
      {
        assert |zs| == |xs| && forall i | 0 <= i < |zs| :: zs[i] == xs[i];
      }
    }
  }

  lemma SomethingMeant(gp: Json, v: Json, least: nat, most: nat)
    requires HasWidth(gp, least, most)
    ensures AllNumbers(v) && |v.items| >= least ==> exists xs :: Means(gp, v, least, most, xs)
    ensures v.Num? && least != 16 ==> exists xs :: Means(gp, v, least, most, xs)
    ensures v.Str? && IsType(gp, "color") && HexColor(v.s).Some? ==> exists xs :: Means(gp, v, least, most, xs)
  {
    if AllNumbers(v) && |v.items| >= least {
      var ns := Numbers(v);
      var kept := if |ns| > most then ns[..most] else ns;
      forall i | 0 <= i < |kept|
        ensures v.items[i] == Num(kept[i])
      {
        assert v.items[i] in v.items;
      }
      assert StartsAs(v, kept);
      assert Means(gp, v, least, most, kept);
    } else if v.Num? && least != 16 {
      assert Means(gp, v, least, most, seq(least, _ => v.n));
    } else if v.Str? && IsType(gp, "color") && HexColor(v.s).Some? {
      assert Means(gp, v, least, most, HexColor(v.s).value);
    }
  }

  lemma SuggestedForMeant(gp: Json, v: Json, least: nat, most: nat, xs: seq<real>)
    requires HasWidth(gp, least, most) && Means(gp, v, least, most, xs)
    requires CheckVector(TypeOf(gp), v, LimitsOf(gp)).Some?
    ensures CheckVector(TypeOf(gp), v, LimitsOf(gp)).value.fix == Set(ClampAll(xs, LimitsOf(gp)))
  {
    hide LimitsOf, ClampAll, HexColor, AllIn;
    if v.Arr? {
      var ns := Numbers(v);
      assert xs == ns[..|xs|];
      assert |xs| == |ns| ==> xs == ns;
    } else if v.Num? {
      assert xs == seq(least, _ => v.n);
    }
  }

  /**
   A curve beyond its limits keeps its interpolation and the place of each point; each height becomes the nearest
   allowed one. For what is no curve nothing is suggested.
   */
  lemma SuggestedCurveIsNearest(gp: Json, v: Json, text: real -> string)
    requires IsType(gp, "curve") && CheckValue(gp, v, text).Some?
    ensures var fix := CheckValue(gp, v, text).value.fix;
            if !IsCurve(Bare(gp), v) then fix == Delete
            else
              && fix.Set? && CurveShape(fix.value) && Field(fix.value, "interp") == Field(v, "interp")
              && var pts, moved := PointsOf(v), PointsOf(fix.value);
                 && |moved| == |pts|
                 && forall i, y | 0 <= i < |pts| && Within(gp, y) ::
                      && moved[i].x == pts[i].x && Within(gp, moved[i].y)
                      && Distance(pts[i].y, moved[i].y) <= Distance(pts[i].y, y)
  {
    var lim := LimitsOf(gp);
    CurvePasses(Bare(gp), v);
    assert LimitsOf(Bare(gp)) == NO_LIMITS;
    if IsCurve(Bare(gp), v) {
      var w := CurveClamped(v, lim);
      var pts := PointsOf(v);
      assert CurveShape(w);
      forall i, y | 0 <= i < |pts| && Within(gp, y)
        ensures PointsOf(w)[i].x == pts[i].x && Within(gp, PointsOf(w)[i].y)
        ensures Distance(pts[i].y, PointsOf(w)[i].y) <= Distance(pts[i].y, y)
      {
        WithinIsInLimits(gp, y);
        ClampIsNearest(pts[i].y, lim, false, y);
        WithinIsInLimits(gp, PointsOf(w)[i].y);
      }
    }
  }

  // ---------------------------------------------------------------- for truth values, options and text

  /** The letters of the word, small or capital. */
  predicate IsWord(m: string, word: string) {
    |m| == |word| && forall i | 0 <= i < |word| ::
      m[i] == word[i] || (m[i] < word[i] && word[i] as int - m[i] as int == 32)
  }

  /** The text is the word, in any case, with white space around it. */
  ghost predicate Spells(s: string, word: string) {
    exists before: string, middle: string, after: string ::
      s == before + middle + after && JsNumbers.AllSpace(before) && JsNumbers.AllSpace(after) && IsWord(middle, word)
  }

  lemma LoweredSpells(m: string, word: string)
    requires word == "true" || word == "false"
    ensures Lowered(m) == word <==> IsWord(m, word)
  {
    var t := Lowered(m);
    if |m| == |word| {
      forall i | 0 <= i < |m|
        ensures t[i] == word[i] <==> m[i] == word[i] || (m[i] < word[i] && word[i] as int - m[i] as int == 32)
      {
        assert 'a' <= word[i] <= 'z';
      }
      assert t == word <==> forall i | 0 <= i < |word| :: t[i] == word[i];
    }
  }

  lemma SpellsIsLowered(s: string, word: string)
    requires word == "true" || word == "false"
    ensures Spells(s, word) <==> Lowered(JsNumbers.Trimmed(s)) == word
  {
    var m := JsNumbers.Trimmed(s);
    LoweredSpells(m, word);
    hide Lowered, JsNumbers.Trimmed;
    if IsWord(m, word) {
      var before, after := JsNumbers.TrimmedParts(s);
      assert s == before + m + after;
    }
    if Spells(s, word) {
      var before, middle, after :|
        s == before + middle + after && JsNumbers.AllSpace(before) && JsNumbers.AllSpace(after) && IsWord(middle, word);
      WordIsNoSpace(middle, word);
      JsNumbers.TrimmedIs(before, middle, after);
    }
  }

  lemma WordIsNoSpace(m: string, word: string)
    requires (word == "true" || word == "false") && IsWord(m, word)
    ensures m != "" && !JsNumbers.IsSpace(m[0]) && !JsNumbers.IsSpace(m[|m| - 1])
  {}

  /**
   What is suggested for a truth value: 1 and "true" mean true, 0 and "false" mean false, in any case; nothing
   else means either.
   */
  lemma SuggestedBool(gp: Json, v: Json, text: real -> string)
    requires IsType(gp, "bool") && !v.Bool?
    ensures CheckValue(gp, v, text) == Some(Check(Type,
              if v == Num(1.0) || (v.Str? && Spells(v.s, "true")) then Set(Bool(true))
              else if v == Num(0.0) || (v.Str? && Spells(v.s, "false")) then Set(Bool(false))
              else Delete))
  {
    if v.Str? {
      SpellsIsLowered(v.s, "true");
      SpellsIsLowered(v.s, "false");
    }
    hide Lowered, Spells;
  }

  /** What a number or a truth value is as text. */
  predicate Reads(v: Json, text: real -> string, s: string) {
    (v.Num? && s == text(v.n)) || (v == Bool(true) && s == "true") || (v == Bool(false) && s == "false")
  }

  /** For text, a number or a truth value is suggested as it prints; for an option, if it is one. */
  lemma SuggestedText(gp: Json, v: Json, text: real -> string, s: string)
    requires IsType(gp, "enum") || IsType(gp, "string") || IsType(gp, "text") || IsType(gp, "path")
    requires CheckValue(gp, v, text).Some?
    ensures Reads(v, text, s) ==>
              CheckValue(gp, v, text).value.fix ==
              if IsType(gp, "enum") && !IsOption(gp, Str(s)) then Delete else Set(Str(s))
    ensures !v.Num? && !v.Bool? ==> CheckValue(gp, v, text).value.fix == Delete
  {
    OfferedIsOption(gp, s);
    hide Offered, IsOption, OptionValues;
  }

  // ---------------------------------------------------------------- colours

  /** The bytes of a colour in lower-case hexadecimal. */
  function HexText(bytes: seq<nat>): (hex: string)
    requires forall i | 0 <= i < |bytes| :: bytes[i] < 256
    ensures |hex| == 2 * |bytes|
  {
    seq(2 * |bytes|, i requires 0 <= i < 2 * |bytes| => HexHalf(bytes[i / 2], i % 2 == 0))
  }

  function HexHalf(b: nat, high: bool): char
    requires b < 256
  {
    JsonText.HexChar(if high then b / 16 else b % 16)
  }

  lemma HalfReads(b: nat, high: bool)
    requires b < 256
    ensures JsonText.HexValue(HexHalf(b, high)) == Some(if high then b / 16 else b % 16)
    ensures !JsNumbers.IsSpace(HexHalf(b, high))
  {
    JsonText.HexRoundTrip(if high then b / 16 else b % 16);
  }

  lemma HexTextIsHex(bytes: seq<nat>)
    requires forall i | 0 <= i < |bytes| :: bytes[i] < 256
    ensures forall c <- HexText(bytes) :: JsonText.HexValue(c).Some? && !JsNumbers.IsSpace(c)
  {
    var hex := HexText(bytes);
    forall i | 0 <= i < |hex|
      ensures JsonText.HexValue(hex[i]).Some? && !JsNumbers.IsSpace(hex[i])
    {
      HalfReads(bytes[i / 2], i % 2 == 0);
    }
  }

  lemma ComponentReads(bytes: seq<nat>, i: nat)
    requires (forall k | 0 <= k < |bytes| :: bytes[k] < 256) && i < |bytes|
    ensures var hex := HexText(bytes);
            && JsonText.HexValue(hex[2 * i]) == Some(bytes[i] / 16)
            && JsonText.HexValue(hex[2 * i + 1]) == Some(bytes[i] % 16)
  {
    assert (2 * i) / 2 == i && (2 * i) % 2 == 0 && (2 * i + 1) / 2 == i && (2 * i + 1) % 2 == 1;
    HalfReads(bytes[i], true);
    HalfReads(bytes[i], false);
  }

  function Fractions(bytes: seq<nat>): seq<real> {
    seq(|bytes|, i requires 0 <= i < |bytes| => bytes[i] as real / 255.0)
  }

  lemma ComponentsRead(bytes: seq<nat>)
    requires forall i | 0 <= i < |bytes| :: bytes[i] < 256
    requires forall c <- HexText(bytes) :: JsonText.HexValue(c).Some?
    ensures HexComponents(HexText(bytes)) == Fractions(bytes)
  {
    hide HexText;
    forall i | 0 <= i < |bytes|
      ensures HexComponents(HexText(bytes))[i] == Fractions(bytes)[i]
    {
      ComponentReads(bytes, i);
      assert 16 * (bytes[i] / 16) + bytes[i] % 16 == bytes[i];
    }
  }

  /** A colour written in hexadecimal is read as its bytes over 255. */
  lemma HexColorReads(bytes: seq<nat>)
    requires (|bytes| == 3 || |bytes| == 4) && forall i | 0 <= i < |bytes| :: bytes[i] < 256
    ensures HexColor("#" + HexText(bytes)) == Some(Fractions(bytes))
  {
    var hex := HexText(bytes);
    var s := "#" + hex;
    HexTextIsHex(bytes);
    ComponentsRead(bytes);
    hide HexText, HexComponents, Fractions;
    assert hex[|hex| - 1] in hex && s[|s| - 1] == hex[|hex| - 1];
    assert JsNumbers.Trimmed(s) == s && s[1..] == hex;
  }
}
