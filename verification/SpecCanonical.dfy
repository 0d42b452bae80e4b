/**
 The canonical form of a table of graph parameters (bridge/src/recipe.rs): one row a parameter with its
 name, type, limits and option values, rows ordered by name and options by their JSON text. Two tables
 have the same text exactly when they declare the same things.
 */
module SpecCanonical {
  import opened Outcomes
  import opened Sorting
  import opened JsNumbers
  import opened JsonText
  import opened JsonWriting

  /**
   A declared graph parameter. A limit that is not a number counts as absent, as does a list of options
   that is not an array; an option's value is given as JavaScript would print it, object keys in place.
   */
  datatype ParamSpec = ParamSpec(kind: Option<string>, min: Option<Double>, max: Option<Double>,
                                 options: Option<seq<JsonTree>>, cosmetic: map<string, string>)

  type Table = seq<Keyed<ParamSpec>>

  /** `JSON.stringify`: no white space. */
  function Compact(j: JsonTree): string {
    TextTo(j, 0, 0, "")
  }

  predicate LimitOk(x: Option<Double>) {
    x.Some? ==> DoubleOk(x.value)
  }

  ghost predicate TableOk(table: Table) {
    && (forall p <- table :: LimitOk(p.value.min) && LimitOk(p.value.max) && OptionsOk(p.value.options))
    && (forall i, j | 0 <= i < j < |table| :: table[i].key != table[j].key)
  }

  ghost predicate OptionsOk(options: Option<seq<JsonTree>>) {
    options.Some? ==> forall v <- options.value :: NumbersOk(v)
  }

  function LimitTree(x: Option<Double>): JsonTree
    requires LimitOk(x)
  {
    if x.Some? then JsonTree.Num(JsNumber(x.value)) else JsonTree.Null
  }

  function TextKey(v: JsonTree): Keyed<JsonTree> {
    Keyed(Compact(v), v)
  }

  function ByText(values: seq<JsonTree>): seq<Keyed<JsonTree>> {
    Mapped(TextKey, values)
  }

  function Unkeyed(x: Keyed<JsonTree>): JsonTree {
    x.value
  }

  function Plain(xs: seq<Keyed<JsonTree>>): seq<JsonTree> {
    Mapped(Unkeyed, xs)
  }

  function Listed(options: Option<seq<JsonTree>>): seq<JsonTree> {
    if options.Some? then options.value else []
  }

  /** The option values in the order of their JSON text; none at all counts as null. */
  function OptionsTree(options: Option<seq<JsonTree>>): JsonTree {
    if Listed(options) == [] then JsonTree.Null else Arr(Plain(Sort(ByText(Listed(options)))))
  }

  function Row(name: string, gp: ParamSpec): JsonTree
    requires LimitOk(gp.min) && LimitOk(gp.max)
  {
    match gp.kind
    case Some(t) => Arr([Str(name), Str(t), LimitTree(gp.min), LimitTree(gp.max), OptionsTree(gp.options)])
    case None => Arr([Str(name), JsonTree.Null, JsonTree.Null, JsonTree.Null, JsonTree.Null])
  }

  function Rows(table: Table): (rows: seq<Keyed<JsonTree>>)
    requires forall p <- table :: LimitOk(p.value.min) && LimitOk(p.value.max)
    ensures |rows| == |table|
  {
    seq(|table|, i requires 0 <= i < |table| => Keyed(table[i].key, Row(table[i].key, table[i].value)))
  }

  function Joined(rows: seq<Keyed<JsonTree>>): string {
    if rows == [] then ""
    else if |rows| == 1 then Compact(rows[0].value)
    else Compact(rows[0].value) + "," + Joined(rows[1..])
  }

  /** The canonical text. */
  function Canonical(table: Table): string
    requires forall p <- table :: LimitOk(p.value.min) && LimitOk(p.value.max)
  {
    "[" + Joined(Sort(Rows(table))) + "]"
  }

  // ---------------------------------------------------------------- the canonical text is one JSON text

  /** Compact text does not depend on the depth, and what follows it stands behind it. */
  lemma Enclosed(open: string, a: string, close: string, rest: string)
    ensures open + (a + ("" + close + rest)) == (open + (a + ("" + close + ""))) + rest
  {}

  lemma {:induction false} CompactSplits(j: JsonTree, depth: nat, rest: string)
    ensures TextTo(j, 0, depth, rest) == Compact(j) + rest
    decreases j, 0
  {
    match j
    case Arr(items) =>
      ItemsSplit(items, depth + 1, false, "" + "]" + rest);
      ItemsSplit(items, 1, false, "" + "]" + "");
      var a := ItemsTo(items, 0, 1, false, "");
      Enclosed("[", a, "]", rest);
      assert (if items != [] then NewLine(0, depth) else "") == "" && (if items != [] then NewLine(0, 0) else "") == "";
    case Obj(members) =>
      MembersSplit(members, depth + 1, false, "" + "}" + rest);
      MembersSplit(members, 1, false, "" + "}" + "");
      var a := MembersTo(members, 0, 1, false, "");
      Enclosed("{", a, "}", rest);
      assert (if members != [] then NewLine(0, depth) else "") == ""
             && (if members != [] then NewLine(0, 0) else "") == "";
    case Null => assert "null" + "" == "null";
    case Bool(b) => assert (if b then "true" else "false") + "" == if b then "true" else "false";
    case Num(text) => assert text + "" == text;
    case Str(v) => assert Escaped(v) + "" == Escaped(v);
  }

  lemma {:induction false} ItemsSplit(items: seq<JsonTree>, depth: nat, comma: bool, rest: string)
    ensures ItemsTo(items, 0, depth, comma, rest) == ItemsTo(items, 0, 1, comma, "") + rest
    decreases items, 0
  {
    if items == [] {
      assert "" + rest == rest;
    } else {
      var t, t' := ItemsTo(items[1..], 0, depth, true, rest), ItemsTo(items[1..], 0, 1, true, "");
      ItemsSplit(items[1..], depth, true, rest);
      CompactSplits(items[0], depth, t);
      CompactSplits(items[0], 1, t');
      var c, x := Comma(comma), Compact(items[0]);
      assert c + ("" + (x + (t' + rest))) == c + ("" + (x + t')) + rest;
    }
  }

  lemma Regrouped(c: string, k: string, x: string, t: string, rest: string)
    ensures c + ("" + (k + (":" + ("" + (x + (t + rest)))))) == c + ("" + (k + (":" + ("" + (x + t))))) + rest
  {}

  lemma {:induction false} MembersSplit(members: seq<Member>, depth: nat, comma: bool, rest: string)
    ensures MembersTo(members, 0, depth, comma, rest) == MembersTo(members, 0, 1, comma, "") + rest
    decreases members, 0
  {
    if members == [] {
      assert "" + rest == rest;
    } else {
      var t, t' := MembersTo(members[1..], 0, depth, true, rest), MembersTo(members[1..], 0, 1, true, "");
      MembersSplit(members[1..], depth, true, rest);
      CompactSplits(members[0].value, depth, t);
      CompactSplits(members[0].value, 1, t');
      var c, k, x := Comma(comma), Escaped(members[0].key), Compact(members[0].value);
      Regrouped(c, k, x, t', rest);
    }
  }

  lemma {:induction false} JoinedIsItems(rows: seq<Keyed<JsonTree>>)
    ensures Joined(rows) == ItemsTo(Plain(rows), 0, 1, false, "")
    decreases |rows|
  {
    if rows != [] {
      var items := Plain(rows);
      assert items[1..] == Plain(rows[1..]);
      var t := ItemsTo(items[1..], 0, 1, true, "");
      CompactSplits(items[0], 1, t);
      var x := Compact(items[0]);
      assert Comma(false) + (NewLine(0, 1) + (x + t)) == x + t;
      if |rows| == 1 {
        assert t == "" && x + "" == x;
      } else {
        JoinedIsItems(rows[1..]);
        var more := ItemsTo(items[1..], 0, 1, false, "");
        assert t == "," + more by {
          var y := NewLine(0, 1) + TextTo(items[1], 0, 1, ItemsTo(items[1..][1..], 0, 1, true, ""));
          assert Comma(false) + y == y;
        }
        assert x + ("," + more) == x + "," + more;
      }
    }
  }

  /** The canonical text is the compact text of the array of all rows. */
  lemma CanonicalIsJson(table: Table)
    requires forall p <- table :: LimitOk(p.value.min) && LimitOk(p.value.max)
    ensures Canonical(table) == Compact(Arr(Plain(Sort(Rows(table)))))
  {
    var rows := Sort(Rows(table));
    var items := Plain(rows);
    JoinedIsItems(rows);
    ItemsSplit(items, 1, false, "" + "]" + "");
    var a := ItemsTo(items, 0, 1, false, "");
    assert "[" + (a + ("" + "]" + "")) == "[" + a + "]";
    assert (if items != [] then NewLine(0, 0) else "") == "";
  }

  // ---------------------------------------------------------------- order does not matter

  lemma CompactInjective(a: JsonTree, b: JsonTree)
    requires NumbersOk(a) && NumbersOk(b) && Compact(a) == Compact(b)
    ensures a == b
  {
    ReadText(a, 0, 0, "");
    ReadText(b, 0, 0, "");
  }

  lemma ByTextFunctional(values: seq<JsonTree>)
    requires forall v <- values :: NumbersOk(v)
    ensures Functional(ByText(values))
  {
    var xs := ByText(values);
    forall x <- xs, y <- xs | x.key == y.key
      ensures x == y
    {
      var i :| 0 <= i < |xs| && xs[i] == x;
      var j :| 0 <= j < |xs| && xs[j] == y;
      assert x.value == values[i] && y.value == values[j] && values[i] in values && values[j] in values;
      CompactInjective(x.value, y.value);
    }
  }

  /** The same declaration: options in any order, cosmetic fields aside. */
  ghost predicate SameDeclaration(a: ParamSpec, b: ParamSpec) {
    && a.kind == b.kind
    && (a.kind.Some? ==> a.min == b.min && a.max == b.max && multiset(Listed(a.options)) == multiset(Listed(b.options)))
  }

  lemma SameRow(name: string, a: ParamSpec, b: ParamSpec)
    requires LimitOk(a.min) && LimitOk(a.max) && LimitOk(b.min) && LimitOk(b.max) && OptionsOk(a.options)
    requires SameDeclaration(a, b)
    ensures Row(name, a) == Row(name, b)
  {
    if a.kind.Some? {
      var x, y := Listed(a.options), Listed(b.options);
      assert |x| == |multiset(x)| == |multiset(y)| == |y|;
      ByTextFunctional(x);
      MappedMultiset(TextKey, x, y);
      SortIgnoresOrder(ByText(x), ByText(y));
    }
  }

  /** Each declaration of one table is in the other. */
  ghost predicate Declares(a: Table, b: Table) {
    forall x <- a :: exists y :: y in b && x.key == y.key && SameDeclaration(x.value, y.value)
  }

  lemma RowsWithin(a: Table, b: Table)
    requires TableOk(a) && TableOk(b) && Declares(a, b)
    ensures forall r <- Rows(a) :: r in Rows(b)
  {
    forall r <- Rows(a)
      ensures r in Rows(b)
    {
      var i :| 0 <= i < |a| && Rows(a)[i] == r;
      assert a[i] in a;
      var y :| y in b && a[i].key == y.key && SameDeclaration(a[i].value, y.value);
      var j :| 0 <= j < |b| && b[j] == y;
      SameRow(y.key, a[i].value, y.value);
      assert Rows(b)[j] == r;
    }
  }

  /** Tables that declare the same things have the same canonical text. */
  lemma CanonicalIgnoresOrder(a: Table, b: Table)
    requires TableOk(a) && TableOk(b) && Declares(a, b) && Declares(b, a)
    ensures Canonical(a) == Canonical(b)
  {
    RowsWithin(a, b);
    RowsWithin(b, a);
    RowsDistinct(a);
    RowsDistinct(b);
    SameElements(Rows(a), Rows(b));
    SortIgnoresOrder(Rows(a), Rows(b));
  }

  lemma RowsDistinct(a: Table)
    requires TableOk(a)
    ensures DistinctKeys(Rows(a)) && Functional(Rows(a))
  {
    var rows := Rows(a);
    forall x <- rows, y <- rows | x.key == y.key
      ensures x == y
    {
      var i :| 0 <= i < |rows| && rows[i] == x;
      var j :| 0 <= j < |rows| && rows[j] == y;
      assert a[i].key == a[j].key;
      assert i == j;
    }
  }

  // ---------------------------------------------------------------- nothing else is lost

  /** Limits of the same value. */
  ghost predicate SameLimit(a: Option<Double>, b: Option<Double>)
    requires LimitOk(a) && LimitOk(b)
  {
    a.Some? == b.Some? && (a.Some? ==> RealOf(a.value) == RealOf(b.value))
  }

  ghost predicate SameMeaning(a: ParamSpec, b: ParamSpec)
    requires LimitOk(a.min) && LimitOk(a.max) && LimitOk(b.min) && LimitOk(b.max)
  {
    && a.kind == b.kind
    && (a.kind.Some? ==>
          SameLimit(a.min, b.min) && SameLimit(a.max, b.max)
          && multiset(Listed(a.options)) == multiset(Listed(b.options)))
  }

  lemma SortedTextsBack(values: seq<JsonTree>)
    ensures multiset(Plain(Sort(ByText(values)))) == multiset(values)
  {
    SortSorts(ByText(values));
    MappedMultiset(Unkeyed, Sort(ByText(values)), ByText(values));
    assert Plain(ByText(values)) == values;
  }

  lemma LimitInjective(a: Option<Double>, b: Option<Double>)
    requires LimitOk(a) && LimitOk(b) && LimitTree(a) == LimitTree(b)
    ensures SameLimit(a, b)
  {
    if a.Some? && b.Some? { JsNumberInjective(a.value, b.value); }
  }

  lemma OptionsInjective(a: Option<seq<JsonTree>>, b: Option<seq<JsonTree>>)
    requires OptionsTree(a) == OptionsTree(b)
    ensures multiset(Listed(a)) == multiset(Listed(b))
  {
    SortedTextsBack(Listed(a));
    SortedTextsBack(Listed(b));
  }

  lemma RowInjective(x: string, a: ParamSpec, y: string, b: ParamSpec)
    requires LimitOk(a.min) && LimitOk(a.max) && LimitOk(b.min) && LimitOk(b.max) && Row(x, a) == Row(y, b)
    ensures x == y && SameMeaning(a, b)
  {
    var r, s := Row(x, a).items, Row(y, b).items;
    assert r[0] == s[0] && r[1] == s[1] && r[2] == s[2] && r[3] == s[3] && r[4] == s[4];
    if a.kind.Some? {
      LimitInjective(a.min, b.min);
      LimitInjective(a.max, b.max);
      OptionsInjective(a.options, b.options);
    }
  }

  lemma OptionsNumbers(options: Option<seq<JsonTree>>)
    requires OptionsOk(options)
    ensures NumbersOk(OptionsTree(options))
  {
    var values := Listed(options);
    var sorted := Plain(Sort(ByText(values)));
    SortedTextsBack(values);
    forall v <- sorted
      ensures NumbersOk(v)
    {
      assert v in multiset(sorted);
      assert v in values;
    }
  }

  lemma RowNumbers(name: string, gp: ParamSpec)
    requires LimitOk(gp.min) && LimitOk(gp.max) && OptionsOk(gp.options)
    ensures NumbersOk(Row(name, gp))
  {
    if gp.min.Some? { JsNumberIsJson(gp.min.value); }
    if gp.max.Some? { JsNumberIsJson(gp.max.value); }
    OptionsNumbers(gp.options);
  }

  lemma RowsNumbers(table: Table)
    requires TableOk(table)
    ensures NumbersOk(Arr(Plain(Sort(Rows(table)))))
  {
    var items := Plain(Sort(Rows(table)));
    SortSorts(Rows(table));
    forall v <- items
      ensures NumbersOk(v)
    {
      var k :| 0 <= k < |items| && items[k] == v;
      var i := RowBehind(table, k);
      assert table[i] in table;
      hide Row;
      RowNumbers(table[i].key, table[i].value);
    }
  }

  /** Tables with the same canonical text declare the same names, types, limits and option values. */
  lemma CanonicalInjective(a: Table, b: Table)
    requires TableOk(a) && TableOk(b) && Canonical(a) == Canonical(b)
    ensures forall x <- a :: exists y :: y in b && x.key == y.key && SameMeaning(x.value, y.value)
  {
    CanonicalIsJson(a);
    CanonicalIsJson(b);
    RowsNumbers(a);
    RowsNumbers(b);
    CompactInjective(Arr(Plain(Sort(Rows(a)))), Arr(Plain(Sort(Rows(b)))));
    SortSorts(Rows(a));
    SortSorts(Rows(b));
    forall x <- a
      ensures exists y :: y in b && x.key == y.key && SameMeaning(x.value, y.value)
    {
      var y := FindsPartner(a, b, x);
    }
  }

  /** What stands at `k` in the sorted rows is the row of some declaration. */
  lemma RowBehind(table: Table, k: nat) returns (j: nat)
    requires TableOk(table) && multiset(Sort(Rows(table))) == multiset(Rows(table)) && k < |Sort(Rows(table))|
    ensures j < |table| && Plain(Sort(Rows(table)))[k] == Row(table[j].key, table[j].value)
    ensures Sort(Rows(table))[k].key == table[j].key
  {
    var rows := Rows(table);
    assert Sort(rows)[k] in multiset(rows);
    j :| 0 <= j < |rows| && rows[j] == Sort(rows)[k];
  }

  lemma RowPlace(table: Table, i: nat) returns (k: nat)
    requires TableOk(table) && multiset(Sort(Rows(table))) == multiset(Rows(table)) && i < |table|
    ensures k < |Sort(Rows(table))| && Plain(Sort(Rows(table)))[k] == Row(table[i].key, table[i].value)
  {
    var rows := Rows(table);
    assert rows[i] in multiset(Sort(rows));
    k :| 0 <= k < |Sort(rows)| && Sort(rows)[k] == rows[i];
  }

  lemma FindsPartner(a: Table, b: Table, x: Keyed<ParamSpec>) returns (y: Keyed<ParamSpec>)
    requires TableOk(a) && TableOk(b) && x in a
    requires multiset(Sort(Rows(a))) == multiset(Rows(a)) && multiset(Sort(Rows(b))) == multiset(Rows(b))
    requires Plain(Sort(Rows(a))) == Plain(Sort(Rows(b)))
    ensures y in b && x.key == y.key && SameMeaning(x.value, y.value)
  {
    var i :| 0 <= i < |a| && a[i] == x;
    var k := RowPlace(a, i);
    var j := RowBehind(b, k);
    y := b[j];
    assert y in b;
    RowInjective(x.key, x.value, y.key, y.value);
  }

  // ---------------------------------------------------------------- what the text says, column by column

  /** A limit as its number, or null. */
  predicate SaysLimit(j: JsonTree, x: Option<Double>)
    requires LimitOk(x)
  {
    if x.Some? then j == JsonTree.Num(JsNumber(x.value)) else j == JsonTree.Null
  }

  /** The option values, by their text, or null for none. */
  ghost predicate SaysOptions(j: JsonTree, options: Option<seq<JsonTree>>) {
    if options.None? || options.value == [] then j == JsonTree.Null
    else
      && j.Arr? && multiset(j.items) == multiset(options.value)
      && forall a, b | 0 <= a < b < |j.items| :: AtMost(Compact(j.items[a]), Compact(j.items[b]))
  }

  /** The five columns: name, type, least value, greatest value, options; without a type only the name. */
  ghost predicate SaysRow(j: JsonTree, name: string, gp: ParamSpec)
    requires LimitOk(gp.min) && LimitOk(gp.max)
  {
    && j.Arr? && |j.items| == 5 && j.items[0] == Str(name)
    && match gp.kind
       case None => forall c | 1 <= c < 5 :: j.items[c] == JsonTree.Null
       case Some(t) =>
         && j.items[1] == Str(t) && SaysLimit(j.items[2], gp.min) && SaysLimit(j.items[3], gp.max)
         && SaysOptions(j.items[4], gp.options)
  }

  lemma OptionsSay(options: Option<seq<JsonTree>>)
    ensures SaysOptions(OptionsTree(options), options)
  {
    var values := Listed(options);
    if values != [] {
      var keyed := ByText(values);
      var sorted := Sort(keyed);
      SortedTextsBack(values);
      SortSorts(keyed);
      var items := Plain(sorted);
      forall a | 0 <= a < |sorted|
        ensures sorted[a].key == Compact(items[a])
      {
        assert sorted[a] in multiset(keyed);
        var i :| 0 <= i < |keyed| && keyed[i] == sorted[a];
      }
    }
  }

  lemma RowSays(name: string, gp: ParamSpec)
    requires LimitOk(gp.min) && LimitOk(gp.max)
    ensures SaysRow(Row(name, gp), name, gp)
  {
    OptionsSay(gp.options);
    hide OptionsTree, SaysOptions;
  }

  /**
   Read as JSON, the canonical text is an array with one row for each declaration, by name, that says its name,
   type, limits and options in this order.
   */
  lemma CanonicalReads(table: Table) returns (rows: seq<JsonTree>, of: seq<nat>)
    requires TableOk(table)
    ensures Read(Canonical(table)) == Some((Arr(rows), ""))
    ensures |rows| == |of| == |table| && forall k | 0 <= k < |of| :: of[k] < |table|
    ensures forall k | 0 <= k < |of| :: SaysRow(rows[k], table[of[k]].key, table[of[k]].value)
    ensures forall a, b | 0 <= a < b < |of| ::
              table[of[a]].key != table[of[b]].key && AtMost(table[of[a]].key, table[of[b]].key)
  {
    var keyed := Rows(table);
    var sorted := Sort(keyed);
    rows := Plain(sorted);
    SortSorts(keyed);
    RowsNumbers(table);
    CanonicalIsJson(table);
    ReadText(Arr(rows), 0, 0, "");
    hide Canonical, Compact, Row, Read;
    of := RowsBehind(table, sorted, |rows|);
    forall k | 0 <= k < |of|
      ensures of[k] < |table| && SaysRow(rows[k], table[of[k]].key, table[of[k]].value)
    {
      assert StandsFor(table, sorted, k, of[k]);
      assert table[of[k]] in table;
      RowSays(table[of[k]].key, table[of[k]].value);
    }
    SortedDistinct(table, sorted);
  }

  lemma SortedDistinct(table: Table, sorted: seq<Keyed<JsonTree>>)
    requires TableOk(table) && sorted == Sort(Rows(table))
    ensures |sorted| == |table|
    ensures forall a, b | 0 <= a < b < |sorted| ::
              sorted[a].key != sorted[b].key && AtMost(sorted[a].key, sorted[b].key)
  {
    SortSorts(Rows(table));
    assert |multiset(sorted)| == |multiset(Rows(table))|;
    RowsDistinct(table);
    DistinctSorted(Rows(table), sorted);
  }

  /** What stands at `k` is the row of declaration `j`. */
  ghost predicate StandsFor(table: Table, sorted: seq<Keyed<JsonTree>>, k: nat, j: nat)
    requires TableOk(table)
  {
    && k < |sorted| && j < |table|
    && Plain(sorted)[k] == Row(table[j].key, table[j].value) && sorted[k].key == table[j].key
  }

  lemma {:induction false} RowsBehind(table: Table, sorted: seq<Keyed<JsonTree>>, n: nat) returns (of: seq<nat>)
    requires TableOk(table) && sorted == Sort(Rows(table)) && multiset(sorted) == multiset(Rows(table))
    requires n <= |sorted|
    ensures |of| == n && forall k | 0 <= k < n :: StandsFor(table, sorted, k, of[k])
  {
    if n == 0 {
      of := [];
    } else {
      of := RowsBehind(table, sorted, n - 1);
      var j := RowBehind(table, n - 1);
      hide Row, Rows, TableOk;
      of := of + [j];
    }
  }
}
