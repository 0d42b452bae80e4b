/**
 The mismatch report of a recipe, what applying its suggestions leaves, and writing a recipe's values as
 the graph's defaults (bridge/src/recipe.rs).
 */
module RecipeReport {
  import opened Outcomes
  import opened Graphs
  import opened Sorting
  import opened CurveShapes
  import opened RecipeRepair
  import opened Rounding
  import RecipeFixes

  datatype GraphRef = GraphRef(id: string, specDigest: string)

  datatype Item = Item(param: Option<string>, check: Check)

  datatype Report = Report(items: seq<Item>, blocking: nat)

  /** What is wrong with the value recorded for `name`, if anything; a null declaration counts as none. */
  function CheckNamed(params: Values, name: string, v: Json, text: real -> string): Option<Check> {
    if name !in params || params[name] == Null then Some(Check(Extra, Delete))
    else CheckValue(params[name], v, text)
  }

  ghost function Failing(params: Values, values: Values, text: real -> string): set<string> {
    set n <- values | CheckNamed(params, n, values[n], text).Some?
  }

  /** The note that the recipe was written for another graph or for other declarations. */
  function SpecItems(docId: string, digest: string, graph: Option<GraphRef>): seq<Item> {
    if graph == Some(GraphRef(docId, digest)) then [] else [Item(None, Check(Spec, Rebase))]
  }

  ghost predicate Ascending<T>(rows: seq<Keyed<T>>) {
    forall i, j | 0 <= i < j < |rows| :: AtMost(rows[i].key, rows[j].key) && rows[i].key != rows[j].key
  }

  /** `rows` are the entries of `values`, each once, by name. */
  ghost predicate Lists(rows: seq<Keyed<Json>>, values: Values) {
    && Ascending(rows)
    && (forall r <- rows :: r.key in values && values[r.key] == r.value)
    && forall n <- values :: Keyed(n, values[n]) in rows
  }

  /** There is only one such list. */
  lemma ListsUnique(xs: seq<Keyed<Json>>, ys: seq<Keyed<Json>>, values: Values)
    requires Lists(xs, values) && Lists(ys, values)
    ensures xs == ys
  {
    forall x <- xs
      ensures x in ys
    {
      assert Keyed(x.key, values[x.key]) in ys;
    }
    forall y <- ys
      ensures y in xs
    {
      assert Keyed(y.key, values[y.key]) in xs;
    }
    SameElements(xs, ys);
    SortedUnique(xs, ys);
  }

  ghost predicate KeyIn<T>(key: string, rows: seq<Keyed<T>>) {
    exists r <- rows :: r.key == key
  }

  /** `k` comes strictly before every key of `rows`. */
  ghost predicate Before<T>(k: string, rows: seq<Keyed<T>>) {
    forall j | 0 <= j < |rows| :: AtMost(k, rows[j].key) && k != rows[j].key
  }

  lemma Prepended<T>(x: Keyed<T>, rows: seq<Keyed<T>>)
    requires Ascending(rows) && Before(x.key, rows)
    ensures Ascending([x] + rows)
  {
    var r := [x] + rows;
    forall i, j | 0 <= i < j < |r|
      ensures AtMost(r[i].key, r[j].key) && r[i].key != r[j].key
    {
      assert r[j] == rows[j - 1];
      if i > 0 { assert r[i] == rows[i - 1]; }
    }
  }

  lemma {:induction false} InsertHas<T>(rows: seq<Keyed<T>>, x: Keyed<T>)
    ensures forall y :: y in Insert(rows, x) <==> y in rows || y == x
  {
    if rows != [] {
      InsertHas(rows[1..], x);
      assert rows == [rows[0]] + rows[1..];
    }
  }

  lemma {:induction false} InsertBefore<T>(k: string, rows: seq<Keyed<T>>, x: Keyed<T>)
    requires Before(k, rows) && AtMost(k, x.key) && k != x.key
    ensures Before(k, Insert(rows, x))
  {
    if rows != [] {
      assert AtMost(k, rows[0].key) && k != rows[0].key;
      InsertBefore(k, rows[1..], x);
    }
  }

  lemma {:induction false} InsertAscends<T>(rows: seq<Keyed<T>>, x: Keyed<T>)
    requires Ascending(rows) && !KeyIn(x.key, rows)
    ensures Ascending(Insert(rows, x))
  {
    if rows != [] {
      assert rows[0] in rows;
      AtMostTotal(x.key, rows[0].key);
      if AtMost(x.key, rows[0].key) {
        forall j | 0 <= j < |rows|
          ensures AtMost(x.key, rows[j].key) && x.key != rows[j].key
        {
          assert rows[j] in rows;
          if j > 0 { AtMostTransitive(x.key, rows[0].key, rows[j].key); }
        }
        Prepended(x, rows);
      } else {
        assert forall r <- rows[1..] :: r in rows;
        InsertAscends(rows[1..], x);
        InsertBefore(rows[0].key, rows[1..], x);
        Prepended(rows[0], Insert(rows[1..], x));
      }
    }
  }

  /** The values in the order of their names. */
  method SortedValues(values: Values) returns (rows: seq<Keyed<Json>>)
    ensures Lists(rows, values)
  {
    rows := [];
    var rest := values.Keys;
    while rest != {}
      invariant rest <= values.Keys
      invariant forall r <- rows :: r.key in values && r.key !in rest && values[r.key] == r.value
      invariant forall n <- values.Keys - rest :: Keyed(n, values[n]) in rows
      invariant Ascending(rows)
      decreases rest
    {
      var n :| n in rest;
      InsertAscends(rows, Keyed(n, values[n]));
      InsertHas(rows, Keyed(n, values[n]));
      rest := rest - {n};
      rows := Insert(rows, Keyed(n, values[n]));
    }
  }

  function RowItems(params: Values, row: Keyed<Json>, text: real -> string): seq<Item> {
    match CheckNamed(params, row.key, row.value, text)
    case None => []
    case Some(c) => [Item(Some(row.key), c)]
  }

  /** One item for each of the rows that fails. */
  function ItemsOf(params: Values, rows: seq<Keyed<Json>>, text: real -> string): seq<Item> {
    if rows == [] then []
    else
      ItemsOf(params, rows[..|rows| - 1], text) + RowItems(params, rows[|rows| - 1], text)
  }

  lemma ItemsGrow(params: Values, rows: seq<Keyed<Json>>, i: nat, text: real -> string)
    requires i < |rows|
    ensures ItemsOf(params, rows[..i + 1], text) == ItemsOf(params, rows[..i], text) + RowItems(params, rows[i], text)
  {
    assert rows[..i + 1][..i] == rows[..i];
  }

  ghost function FailingKeys(params: Values, rows: seq<Keyed<Json>>, text: real -> string): set<string> {
    set r <- rows | CheckNamed(params, r.key, r.value, text).Some? :: r.key
  }

  lemma KeysGrow(params: Values, front: seq<Keyed<Json>>, row: Keyed<Json>, text: real -> string)
    ensures FailingKeys(params, front + [row], text)
            == FailingKeys(params, front, text)
               + if CheckNamed(params, row.key, row.value, text).Some? then {row.key} else {}
  {
    assert row in front + [row];
    assert forall r <- front :: r in front + [row];
  }

  lemma {:induction false} OneItemEach(params: Values, rows: seq<Keyed<Json>>, text: real -> string)
    requires Ascending(rows)
    ensures |ItemsOf(params, rows, text)| == |FailingKeys(params, rows, text)|
  {
    if rows != [] {
      var front, row := rows[..|rows| - 1], rows[|rows| - 1];
      assert rows == front + [row];
      hide CheckNamed;
      OneItemEach(params, front, text);
      KeysGrow(params, front, row, text);
      RowAppended(params, rows, text);
      assert row.key !in FailingKeys(params, front, text);
      hide ItemsOf, FailingKeys, AtMost;
    }
  }

  /** An item is in the report exactly when it says what is first wrong with one of the values. */
  lemma {:induction false} ItemsAreFailures(params: Values, rows: seq<Keyed<Json>>, text: real -> string, item: Item)
    ensures item in ItemsOf(params, rows, text)
            <==> exists r ::
              && r in rows && item.param == Some(r.key)
              && CheckNamed(params, r.key, r.value, text) == Some(item.check)
  {
    if rows != [] {
      var front, row := rows[..|rows| - 1], rows[|rows| - 1];
      assert rows == front + [row];
      ItemsAreFailures(params, front, text, item);
      assert row in rows;
    }
  }

  /** What the report has to say of one value: an undeclared one is to be deleted, any other as the check has it. */
  ghost predicate SaysWrong(params: Values, name: string, v: Json, text: real -> string, check: Check) {
    if name in params && params[name] != Null then CheckValue(params[name], v, text) == Some(check)
    else check == Check(Extra, Delete)
  }

  /** The value is declared and one its declaration allows. */
  ghost predicate FitsNamed(params: Values, name: string, v: Json) {
    name in params && params[name] != Null && RecipeFixes.Legal(params[name], v)
  }

  ghost predicate ByName(items: seq<Item>) {
    && (forall x <- items :: x.param.Some?)
    && forall i, j | 0 <= i < j < |items| ::
         items[i].param != items[j].param && AtMost(items[i].param.value, items[j].param.value)
  }

  /** One item for each value that does not fit, by name. */
  ghost predicate AreItems(params: Values, values: Values, text: real -> string, items: seq<Item>) {
    && (forall x <- items ::
          && x.param.Some? && x.param.value in values
          && SaysWrong(params, x.param.value, values[x.param.value], text, x.check))
    && ByName(items)
    && (forall n <- values | !FitsNamed(params, n, values[n]) :: exists x <- items :: x.param == Some(n))
  }

  lemma NamedSays(params: Values, name: string, v: Json, text: real -> string)
    ensures forall check :: CheckNamed(params, name, v, text) == Some(check) ==> SaysWrong(params, name, v, text, check)
    ensures CheckNamed(params, name, v, text).None? <==> FitsNamed(params, name, v)
  {
    if name in params { RecipeFixes.PassesIffLegal(params[name], v, text); }
  }

  lemma ByNameGrows(items: seq<Item>, key: string, check: Option<Check>)
    requires ByName(items) && forall x <- items :: x.param.value != key && AtMost(x.param.value, key)
    ensures ByName(items + if check.Some? then [Item(Some(key), check.value)] else [])
  {
    hide AtMost;
  }

  lemma {:induction false} ItemsByName(params: Values, rows: seq<Keyed<Json>>, text: real -> string)
    requires Ascending(rows)
    ensures ByName(ItemsOf(params, rows, text))
    decreases |rows|
  {
    if rows != [] {
      var front, row := rows[..|rows| - 1], rows[|rows| - 1];
      ItemsByName(params, front, text);
      var items := ItemsOf(params, front, text);
      var check := CheckNamed(params, row.key, row.value, text);
      hide ItemsOf, CheckNamed;
      forall x <- items
        ensures x.param.value != row.key && AtMost(x.param.value, row.key)
      {
        ItemsAreFailures(params, front, text, x);
        var r :| r in front && x.param == Some(r.key);
        var i :| 0 <= i < |front| && front[i] == r;
        assert rows[i].key == r.key;
      }
      ByNameGrows(items, row.key, check);
      RowAppended(params, rows, text);
      hide ByName;
    }
  }

  lemma RowAppended(params: Values, rows: seq<Keyed<Json>>, text: real -> string)
    requires rows != []
    ensures var row := rows[|rows| - 1];
            var check := CheckNamed(params, row.key, row.value, text);
            ItemsOf(params, rows, text) == ItemsOf(params, rows[..|rows| - 1], text)
                                           + if check.Some? then [Item(Some(row.key), check.value)] else []
  {
    hide CheckNamed;
  }

  lemma ItemsHold(params: Values, values: Values, rows: seq<Keyed<Json>>, text: real -> string)
    requires Lists(rows, values)
    ensures AreItems(params, values, text, ItemsOf(params, rows, text))
  {
    var items := ItemsOf(params, rows, text);
    ItemsByName(params, rows, text);
    hide ItemsOf, SaysWrong, FitsNamed, CheckNamed;
    forall x <- items
      ensures x.param.Some? && x.param.value in values
              && SaysWrong(params, x.param.value, values[x.param.value], text, x.check)
    {
      ItemsAreFailures(params, rows, text, x);
      NamedSays(params, x.param.value, values[x.param.value], text);
    }
    forall n <- values | !FitsNamed(params, n, values[n])
      ensures exists x <- items :: x.param == Some(n)
    {
      NamedSays(params, n, values[n], text);
      var x := Item(Some(n), CheckNamed(params, n, values[n], text).value);
      assert Keyed(n, values[n]) in rows;
      ItemsAreFailures(params, rows, text, x);
      assert x in items;
    }
  }

  /**
   Checks the values by name: one item for each that fails, with the first thing wrong with it, and how many
   there are.
   */
  method CheckValues(params: Values, values: Values, text: real -> string) returns (items: seq<Item>, blocking: nat)
    ensures exists rows :: Lists(rows, values) && items == ItemsOf(params, rows, text)
    ensures AreItems(params, values, text, items)
    ensures blocking == |items| == |Failing(params, values, text)|
  {
    var rows := SortedValues(values);
    items, blocking := [], 0;
    for i := 0 to |rows|
      invariant items == ItemsOf(params, rows[..i], text)
      invariant |items| == blocking
    {
      ItemsGrow(params, rows, i, text);
      var check := CheckNamed(params, rows[i].key, rows[i].value, text);
      if check.Some? {
        blocking := blocking + 1;
        items := items + [Item(Some(rows[i].key), check.value)];
      }
    }
    assert rows[..|rows|] == rows;
    OneItemEach(params, rows, text);
    FailingListed(params, values, rows, text);
    ItemsHold(params, values, rows, text);
  }

  /** The report: first the note about the graph, then the items; `blocking` counts the failing values. */
  method RecipeReport(docId: string, params: Values, digest: string, values: Values, graph: Option<GraphRef>,
                      text: real -> string) returns (r: Report)
    ensures exists rows ::
              && Lists(rows, values)
              && r.items == SpecItems(docId, digest, graph) + ItemsOf(params, rows, text)
    ensures graph == Some(GraphRef(docId, digest)) ==> AreItems(params, values, text, r.items)
    ensures graph != Some(GraphRef(docId, digest)) ==>
              && r.items != [] && r.items[0] == Item(None, Check(Spec, Rebase))
              && AreItems(params, values, text, r.items[1..])
    ensures r.blocking == |Failing(params, values, text)|
  {
    var head := [];
    if graph.None? || graph.value.id != docId || graph.value.specDigest != digest {
      head := [Item(None, Check(Spec, Rebase))];
    }
    assert head == SpecItems(docId, digest, graph);
    var items, blocking := CheckValues(params, values, text);
    r := Report(head + items, blocking);
    assert head != [] ==> r.items[1..] == items;
    assert head == [] ==> r.items == items;
  }

  lemma FailingListed(params: Values, values: Values, rows: seq<Keyed<Json>>, text: real -> string)
    requires Lists(rows, values)
    ensures FailingKeys(params, rows, text) == Failing(params, values, text)
  {
    forall n <- Failing(params, values, text)
      ensures n in FailingKeys(params, rows, text)
    {
      assert Keyed(n, values[n]) in rows;
    }
  }

  /** Every value is declared and one its declaration allows. */
  ghost predicate Fits(params: Values, values: Values) {
    forall n <- values :: FitsNamed(params, n, values[n])
  }

  /** However numbers print: no value fails exactly when all fit. */
  lemma NoneFailsIffFits(params: Values, values: Values, text: real -> string)
    ensures Failing(params, values, text) == {} <==> Fits(params, values)
  {
    forall n <- values
      ensures n in Failing(params, values, text) <==> !FitsNamed(params, n, values[n])
    {
      NamedSays(params, n, values[n], text);
    }
  }

  // ---------------------------------------------------------------- applying every suggestion

  /** What a suggestion makes of a value. */
  function AfterFix(v: Json, check: Option<Check>): Option<Json> {
    match check
    case Some(Check(_, Delete)) => None
    case Some(Check(_, Set(w))) => Some(w)
    case _ => Some(v)
  }

  /** The values after every suggestion of the report is applied. */
  function Repaired(params: Values, values: Values, text: real -> string): Values {
    map n | n in values && AfterFix(values[n], CheckNamed(params, n, values[n], text)).Some?
      :: AfterFix(values[n], CheckNamed(params, n, values[n], text)).value
  }

  ghost predicate AllFeasible(params: Values) {
    forall n <- params :: Feasible(params[n])
  }

  lemma CheckNeverRebases(gp: Json, v: Json, text: real -> string)
    ensures CheckValue(gp, v, text).Some? ==> !CheckValue(gp, v, text).value.fix.Rebase?
  {}

  /** One pass is enough when every declared range holds a legal value, and it leaves alone what passed. */
  lemma RepairLeavesNoneFailing(params: Values, values: Values, text: real -> string)
    requires AllFeasible(params)
    ensures Failing(params, Repaired(params, values, text), text) == {}
    ensures forall n <- values | n !in Failing(params, values, text) ::
              n in Repaired(params, values, text) && Repaired(params, values, text)[n] == values[n]
  {
    var fixed := Repaired(params, values, text);
    forall n <- fixed
      ensures CheckNamed(params, n, fixed[n], text) == None
    {
      var check := CheckNamed(params, n, values[n], text);
      if check.Some? {
        CheckNeverRebases(params[n], values[n], text);
        FeasibleFixWorks(params[n], values[n], text);
      }
    }
  }

  /** One pass is enough for every recipe exactly when every declared range holds a legal value. */
  lemma RepairIsCompleteIffFeasible(params: Values, text: real -> string)
    ensures (forall values :: Failing(params, Repaired(params, values, text), text) == {}) <==> AllFeasible(params)
  {
    if AllFeasible(params) {
      forall values
        ensures Failing(params, Repaired(params, values, text), text) == {}
      {
        RepairLeavesNoneFailing(params, values, text);
      }
    } else {
      var n :| n in params && !Feasible(params[n]);
      var gp := params[n];
      SampleIsFixed(gp, text);
      var values: Values := map[n := Sample(gp)];
      var w := CheckValue(gp, Sample(gp), text).value.fix.value;
      NothingPasses(gp, w, text);
      assert Repaired(params, values, text)[n] == w;
      assert n in Failing(params, Repaired(params, values, text), text);
    }
  }

  // ---------------------------------------------------------------- values as defaults

  function DefaultOf(decl: Json): Json {
    match Field(decl, "default")
    case Some(d) => d
    case None => Null
  }

  /** What a run is given: for every declared name the recipe's value, or the default. */
  function Effective(params: Values, values: Values): Values {
    map n <- params :: if n in values then values[n] else DefaultOf(params[n])
  }

  function WithDefault(decl: Json, v: Json): Json {
    if decl.Obj? then Obj(decl.fields["default" := v]) else decl
  }

  /** The declarations with the recipe's values written as their defaults. */
  ghost function Defaulted(params: Values, values: Values): Values {
    map n <- params :: if n in values then WithDefault(params[n], values[n]) else params[n]
  }

  /** Writes each value as the default of the declared object of its name; says which names changed. */
  method WriteAsDefaults(doc: GraphDoc, values: Values) returns (changed: seq<string>)
    modifies doc
    ensures doc.Abstract() == old(doc.Abstract()).(params := Defaulted(old(doc.params), values))
    ensures forall n :: n in changed <==> n in doc.params && doc.params[n] != old(doc.params)[n]
  {
    changed := [];
    var rest := values.Keys;
    while rest != {}
      invariant rest <= values.Keys
      invariant doc.Abstract() == old(doc.Abstract()).(params := doc.params) && doc.params.Keys == old(doc.params.Keys)
      invariant forall n <- doc.params ::
          doc.params[n] ==
          if n in values && n !in rest then WithDefault(old(doc.params)[n], values[n]) else old(doc.params)[n]
      invariant forall n :: n in changed <==> n in doc.params && doc.params[n] != old(doc.params)[n]
      decreases rest
    {
      var name :| name in rest;
      rest := rest - {name};
      if name in doc.params && doc.params[name].Obj? {
        var decl := doc.params[name];
        if Field(decl, "default") != Some(values[name]) {
          doc.params := doc.params[name := WithDefault(decl, values[name])];
          assert doc.params[name].fields["default"] == values[name];
          changed := changed + [name];
        } else {
          assert decl.fields["default" := values[name]] == decl.fields;
        }
      }
    }
  }

  /** A declared name whose declaration cannot take a default, though the recipe has a value for it. */
  ghost predicate Homeless(params: Values, values: Values, n: string) {
    n in params && n in values && !params[n].Obj? && values[n] != Null
  }

  /** Writing a recipe as defaults gives the same run without the recipe, exactly when no value is homeless. */
  lemma DefaultsReplaceRecipe(params: Values, values: Values)
    ensures Effective(Defaulted(params, values), values) == Effective(params, values)
    ensures Effective(Defaulted(params, values), map[]) == Effective(params, values)
            <==> forall n :: !Homeless(params, values, n)
  {
    var a, b := Effective(Defaulted(params, values), map[]), Effective(params, values);
    forall n <- params
      ensures a[n] == b[n] <==> !Homeless(params, values, n)
    {}
    if forall n :: !Homeless(params, values, n) {
      assert a == b;
    }
  }

  /** Writing the same values again changes nothing. */
  lemma DefaultsSettle(params: Values, values: Values)
    ensures Defaulted(Defaulted(params, values), values) == Defaulted(params, values)
  {
    forall n <- params | n in values && params[n].Obj?
      ensures WithDefault(WithDefault(params[n], values[n]), values[n]) == WithDefault(params[n], values[n])
    {
      var fields := params[n].fields["default" := values[n]];
      assert fields["default" := values[n]] == fields;
    }
  }

  // ---------------------------------------------------------------- what a default has no part in

  /** Two declarations that can differ in their default only. */
  ghost predicate SameSpec(a: Json, b: Json) {
    if a.Obj? && b.Obj? then a.fields - {"default"} == b.fields - {"default"} else a == b
  }

  lemma SameField(a: Json, b: Json, key: string)
    requires SameSpec(a, b) && key != "default"
    ensures Field(a, key) == Field(b, key)
  {
    if a.Obj? && b.Obj? {
      var x, y := a.fields - {"default"}, b.fields - {"default"};
      assert key in a.fields <==> key in x;
      assert key in b.fields <==> key in y;
    }
  }

  /** What a declaration allows does not depend on its default. */
  lemma SameLegal(a: Json, b: Json, v: Json)
    requires SameSpec(a, b)
    ensures RecipeFixes.Legal(a, v) <==> RecipeFixes.Legal(b, v)
  {
    SameField(a, b, "type");
    SameField(a, b, "min");
    SameField(a, b, "max");
    SameField(a, b, "options");
    LegalFields(a, b, v);
  }

  lemma LegalFields(a: Json, b: Json, v: Json)
    requires Field(a, "type") == Field(b, "type") && Field(a, "options") == Field(b, "options")
    requires Field(a, "min") == Field(b, "min") && Field(a, "max") == Field(b, "max")
    ensures RecipeFixes.Legal(a, v) <==> RecipeFixes.Legal(b, v)
  {
    SameShapes(a, b, v);
    hide RecipeFixes.IsCurve, RecipeFixes.IsVectorOf, RecipeFixes.Within, RecipeFixes.IsOption;
    if Field(a, "type").Some? && Field(a, "type").value.Str? { SameAs(a, b, Field(a, "type").value.s, v); }
    hide RecipeFixes.LegalAs;
  }

  lemma SameAs(a: Json, b: Json, ty: string, v: Json)
    requires RecipeFixes.IsOption(a, v) <==> RecipeFixes.IsOption(b, v)
    requires forall x :: RecipeFixes.Within(a, x) <==> RecipeFixes.Within(b, x)
    requires RecipeFixes.IsCurve(a, v) <==> RecipeFixes.IsCurve(b, v)
    requires forall n :: RecipeFixes.IsVectorOf(a, v, n) <==> RecipeFixes.IsVectorOf(b, v, n)
    ensures RecipeFixes.LegalAs(a, ty, v) <==> RecipeFixes.LegalAs(b, ty, v)
  {
    hide RecipeFixes.IsCurve, RecipeFixes.IsVectorOf, RecipeFixes.Within, RecipeFixes.IsOption, IsWhole;
  }

  lemma SameShapes(a: Json, b: Json, v: Json)
    requires Field(a, "options") == Field(b, "options")
    requires Field(a, "min") == Field(b, "min") && Field(a, "max") == Field(b, "max")
    ensures RecipeFixes.IsOption(a, v) <==> RecipeFixes.IsOption(b, v)
    ensures forall x :: RecipeFixes.Within(a, x) <==> RecipeFixes.Within(b, x)
    ensures RecipeFixes.IsCurve(a, v) <==> RecipeFixes.IsCurve(b, v)
    ensures forall n :: RecipeFixes.IsVectorOf(a, v, n) <==> RecipeFixes.IsVectorOf(b, v, n)
  {
    SameLimits(a, b, v);
    hide RecipeFixes.Within, RecipeFixes.IsOption;
    SameCurves(a, b, v);
    hide RecipeFixes.IsCurve;
  }

  lemma SameCurves(a: Json, b: Json, v: Json)
    requires forall x :: RecipeFixes.Within(a, x) <==> RecipeFixes.Within(b, x)
    ensures RecipeFixes.IsCurve(a, v) <==> RecipeFixes.IsCurve(b, v)
  {
    hide RecipeFixes.Within, CurveShape, PointsOf, Field;
  }

  lemma SameLimits(a: Json, b: Json, v: Json)
    requires Field(a, "options") == Field(b, "options")
    requires Field(a, "min") == Field(b, "min") && Field(a, "max") == Field(b, "max")
    ensures RecipeFixes.IsOption(a, v) <==> RecipeFixes.IsOption(b, v)
    ensures forall x :: RecipeFixes.Within(a, x) <==> RecipeFixes.Within(b, x)
  {
    hide Field;
  }

  lemma DefaultKeepsSpec(decl: Json, v: Json)
    ensures SameSpec(WithDefault(decl, v), decl)
  {
    if decl.Obj? {
      assert decl.fields["default" := v] - {"default"} == decl.fields - {"default"};
    }
  }

  /** A default written over two such declarations makes them equal. */
  lemma DefaultMakesEqual(a: Json, b: Json, v: Json)
    requires SameSpec(a, b)
    ensures WithDefault(a, v) == WithDefault(b, v)
  {
    if a.Obj? && b.Obj? {
      assert (a.fields - {"default"})["default" := v] == a.fields["default" := v];
      assert (b.fields - {"default"})["default" := v] == b.fields["default" := v];
    }
  }
}
