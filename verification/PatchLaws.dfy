/**
 What a patch command as a whole does to a graph, said in terms of its specifications and the graph alone
 (bridge/src/patch.rs).
 */
module PatchLaws {
  import opened Outcomes
  import opened Graphs
  import opened Patch
  import Glob
  import RecipeFixes
  import RecipeReport

  // ---------------------------------------------------------------- removals

  ghost predicate Dropped(patterns: seq<string>, id: string) {
    exists p <- patterns :: Glob.Accepts(p, 0, id, 0)
  }

  /** Some node of the graph that a pattern hits is an end of the edge. */
  ghost predicate Loses(nodes: seq<Node>, patterns: seq<string>, e: Edge) {
    exists n <- nodes :: Dropped(patterns, n.id) && (e.from.node == n.id || e.to.node == n.id)
  }

  lemma RemoveOne(g: Graph, pattern: string, h: Graph)
    requires Removed(g, pattern) == Ok(h)
    ensures h == g.(nodes := h.nodes, edges := h.edges)
    ensures forall n :: n in h.nodes <==> n in g.nodes && !Glob.Accepts(pattern, 0, n.id, 0)
    ensures forall e :: e in h.edges <==> e in g.edges && !Touches(e, HitIds(g, pattern))
  {
    var ids := HitIds(g, pattern);
    var keepNode, keepEdge := (n: Node) => n.id !in ids, (e: Edge) => !Touches(e, ids);
    RetainedMembers(g.nodes, keepNode);
    RetainedMembers(g.edges, keepEdge);
    forall n
      ensures n in h.nodes <==> n in g.nodes && !Glob.Accepts(pattern, 0, n.id, 0)
    {
      if n in g.nodes {
        assert n.id in ids ==> exists m :: m in g.nodes && Hits(pattern, m.id) && m.id == n.id;
        var k :| 0 <= k < |g.nodes| && g.nodes[k] == n;
        assert keepNode(g.nodes[k]) ==> g.nodes[k] in Retained(g.nodes, keepNode);
      }
    }
    forall e
      ensures e in h.edges <==> e in g.edges && !Touches(e, ids)
    {
      if e in g.edges {
        var k :| 0 <= k < |g.edges| && g.edges[k] == e;
        assert keepEdge(g.edges[k]) ==> g.edges[k] in Retained(g.edges, keepEdge);
      }
    }
  }

  lemma TouchesIsLoses(g: Graph, pattern: string, e: Edge)
    ensures Touches(e, HitIds(g, pattern)) <==> Loses(g.nodes, [pattern], e)
  {
    assert forall id :: Dropped([pattern], id) <==> Glob.Accepts(pattern, 0, id, 0);
    if Touches(e, HitIds(g, pattern)) {
      var id := if e.from.node in HitIds(g, pattern) then e.from.node else e.to.node;
      var n :| n in g.nodes && Hits(pattern, n.id) && n.id == id;
    }
  }

  lemma {:induction false} RemovesLaw(g: Graph, patterns: seq<string>, h: Graph)
    requires Each(Removed, g, patterns) == Ok(h)
    ensures h == g.(nodes := h.nodes, edges := h.edges)
    ensures forall n :: n in h.nodes <==> n in g.nodes && !Dropped(patterns, n.id)
    ensures forall e :: e in h.edges <==> e in g.edges && !Loses(g.nodes, patterns, e)
    decreases |patterns|
  {
    if patterns != [] {
      var p, rest := patterns[0], patterns[1..];
      assert patterns == [p] + rest;
      var u := Removed(g, p).value;
      RemoveOne(g, p, u);
      RemovesLaw(u, rest, h);
      assert forall id :: Dropped(patterns, id) <==> Glob.Accepts(p, 0, id, 0) || Dropped(rest, id);
      assert forall id :: Dropped([p], id) <==> Glob.Accepts(p, 0, id, 0);
      hide Dropped, Touches;
      forall e
        ensures e in h.edges <==> e in g.edges && !Loses(g.nodes, patterns, e)
      {
        TouchesIsLoses(g, p, e);
        assert Loses(g.nodes, patterns, e) <==> Loses(g.nodes, [p], e) || Loses(u.nodes, rest, e);
      }
    }
  }

  // ---------------------------------------------------------------- additions, rewires, connections

  lemma {:induction false} AddsLaw(g: Graph, adds: seq<Node>, h: Graph)
    requires Each(Added, g, adds) == Ok(h)
    ensures h == g.(nodes := g.nodes + adds)
    decreases |adds|
  {
    if adds == [] {
      assert g.nodes + adds == g.nodes;
    } else {
      AddsLaw(Added(g, adds[0]).value, adds[1..], h);
      assert g.nodes + adds == g.nodes + [adds[0]] + adds[1..];
    }
  }

  /** The port an edge out of `from` leaves after the rewires, one after the other. */
  function Follow(rewires: seq<PortPair>, from: PortRef): PortRef {
    if rewires == [] then from
    else Follow(rewires[1..], if rewires[0].from == from then rewires[0].to else from)
  }

  lemma {:induction false} RewiresLaw(g: Graph, rewires: seq<PortPair>, h: Graph)
    requires Each(Rewired, g, rewires) == Ok(h)
    ensures h == g.(edges := h.edges) && |h.edges| == |g.edges|
    ensures forall k | 0 <= k < |g.edges| :: h.edges[k] == g.edges[k].(from := Follow(rewires, g.edges[k].from))
    decreases |rewires|
  {
    if rewires != [] { RewiresLaw(Rewired(g, rewires[0]).value, rewires[1..], h); }
  }

  /**
   The edges behind the first `n` join ports that `ps` asks to join and are named after their nodes, and all of
   `ps` are joined.
   */
  ghost predicate Joins(edges: seq<Edge>, n: nat, ps: seq<PortPair>) {
    && n <= |edges|
    && (forall k | n <= k < |edges| ::
          && PortPair(edges[k].from, edges[k].to) in ps
          && "e_" + edges[k].from.node + "_" + edges[k].to.node <= edges[k].id)
    && (forall p <- ps :: exists e <- edges :: e.from == p.from && e.to == p.to)
  }

  lemma {:induction false} ConnectsLaw(g: Graph, ps: seq<PortPair>, h: Graph)
    requires Each(Connected, g, ps) == Ok(h)
    ensures h == g.(edges := h.edges) && g.edges <= h.edges && Joins(h.edges, |g.edges|, ps)
    decreases |ps|
  {
    ConnectsAreThere(g, ps, h);
    if ps != [] {
      var p := ps[0];
      var u := Connected(g, p).value;
      assert ps == [p] + ps[1..];
      ConnectsLaw(u, ps[1..], h);
      forall k | |g.edges| <= k < |h.edges|
        ensures PortPair(h.edges[k].from, h.edges[k].to) in ps
        ensures "e_" + h.edges[k].from.node + "_" + h.edges[k].to.node <= h.edges[k].id
      {
        if k < |u.edges| { assert h.edges[k] == u.edges[k]; }
      }
    }
    forall p <- ps
      ensures exists e <- h.edges :: e.from == p.from && e.to == p.to
    {
      assert HasEdge(h.edges, p);
    }
  }

  // ---------------------------------------------------------------- settings

  predicate Sets(s: Setting, node: string, param: string) {
    s.node == node && s.param == param
  }

  /** The `k`th setting is the last one of this parameter. */
  ghost predicate Decides(ss: seq<Setting>, k: nat, node: string, param: string) {
    k < |ss| && Sets(ss[k], node, param) && forall j | k < j < |ss| :: !Sets(ss[j], node, param)
  }

  /** What a parameter is: there and with which value, or not there. */
  function Lookup(params: map<string, Json>, param: string): Option<Json> {
    if param in params then Some(params[param]) else None
  }

  /** `after` is the node with the last setting of each parameter made, and nothing else changed. */
  ghost predicate IsSet(before: Node, after: Node, ss: seq<Setting>) {
    && after == before.(params := after.params)
    && forall param: string ::
         && (forall k: nat | Decides(ss, k, before.id, param) :: Lookup(after.params, param) == Some(ss[k].value))
         && ((forall k | 0 <= k < |ss| :: !Sets(ss[k], before.id, param)) ==>
               Lookup(after.params, param) == Lookup(before.params, param))
  }

  ghost predicate AreSet(before: seq<Node>, after: seq<Node>, ss: seq<Setting>) {
    |after| == |before| && forall i | 0 <= i < |before| :: IsSet(before[i], after[i], ss)
  }

  /** One setting first, then the others. */
  lemma SetFirst(before: Node, between: Node, after: Node, ss: seq<Setting>)
    requires ss != [] && IsSet(between, after, ss[1..]) && between == before.(params := between.params)
    requires between.params ==
             if ss[0].node == before.id then before.params[ss[0].param := ss[0].value] else before.params
    ensures IsSet(before, after, ss)
  {
    var rest := ss[1..];
    forall param: string, k: nat | Decides(ss, k, before.id, param)
      ensures Lookup(after.params, param) == Some(ss[k].value)
    {
      assert forall j | 0 <= j < |rest| :: rest[j] == ss[j + 1];
      if k > 0 { assert Decides(rest, k - 1, before.id, param); }
    }
    forall param: string | forall k | 0 <= k < |ss| :: !Sets(ss[k], before.id, param)
      ensures Lookup(after.params, param) == Lookup(before.params, param)
    {
      assert !Sets(ss[0], before.id, param);
      assert forall j | 0 <= j < |rest| :: rest[j] == ss[j + 1];
    }
  }

  lemma {:induction false} SetsLaw(g: Graph, ss: seq<Setting>, h: Graph)
    requires Each(SetTo, g, ss) == Ok(h) && (ss != [] ==> NodesOk(g.nodes))
    ensures h == g.(nodes := h.nodes) && AreSet(g.nodes, h.nodes, ss)
    decreases |ss|
  {
    if ss != [] {
      var s := ss[0];
      var u := SetTo(g, s).value;
      OneSetTouchesKey(g, s);
      SetsLaw(u, ss[1..], h);
      forall i | 0 <= i < |g.nodes|
        ensures IsSet(g.nodes[i], h.nodes[i], ss)
      {
        OneSetting(g, s, u, i);
        SetFirst(g.nodes[i], u.nodes[i], h.nodes[i], ss);
      }
    }
  }

  lemma OneSetting(g: Graph, s: Setting, u: Graph, i: nat)
    requires SetTo(g, s) == Ok(u) && NodesOk(g.nodes) && i < |g.nodes|
    ensures |u.nodes| == |g.nodes| && u.nodes[i] == g.nodes[i].(params := u.nodes[i].params)
    ensures u.nodes[i].params ==
            if s.node == g.nodes[i].id then g.nodes[i].params[s.param := s.value] else g.nodes[i].params
  {}

  // ---------------------------------------------------------------- defaults

  /** The `k`th default is the last one of this name. */
  ghost predicate IsLast(ds: seq<Default>, k: nat, name: string) {
    k < |ds| && ds[k].name == name && forall j | k < j < |ds| :: ds[j].name != name
  }

  /** `after` is the declaration with this default, if it can take one. */
  predicate TakesDefault(before: Json, after: Json, v: Json) {
    if before.Obj? then
      after.Obj? && Field(after, "default") == Some(v) && after.fields - {"default"} == before.fields - {"default"}
    else after == before
  }

  /** `after` is the declaration with the last default given for its name, and nothing else changed. */
  ghost predicate IsDefaulted(before: Json, after: Json, ds: seq<Default>, name: string) {
    && (forall k: nat | IsLast(ds, k, name) :: TakesDefault(before, after, ds[k].value))
    && ((forall k | 0 <= k < |ds| :: ds[k].name != name) ==> after == before)
  }

  lemma WritesDefault(decl: Json, v: Json)
    ensures TakesDefault(decl, RecipeReport.WithDefault(decl, v), v)
  {
    RecipeReport.DefaultKeepsSpec(decl, v);
  }

  lemma TakenOver(a: Json, b: Json, c: Json, v: Json, w: Json)
    requires TakesDefault(a, b, v) && TakesDefault(b, c, w)
    ensures TakesDefault(a, c, w)
  {}

  lemma DefaultFirst(before: Json, between: Json, after: Json, ds: seq<Default>, name: string)
    requires ds != [] && IsDefaulted(between, after, ds[1..], name)
    requires if ds[0].name == name then TakesDefault(before, between, ds[0].value) else between == before
    ensures IsDefaulted(before, after, ds, name)
  {
    hide TakesDefault;
    var rest := ds[1..];
    assert forall j | 0 <= j < |rest| :: rest[j] == ds[j + 1];
    forall k: nat | IsLast(ds, k, name)
      ensures TakesDefault(before, after, ds[k].value)
    {
      if k > 0 {
        assert IsLast(rest, k - 1, name);
        if ds[0].name == name { TakenOver(before, between, after, ds[0].value, ds[k].value); }
      }
    }
  }

  lemma {:induction false} DefaultsLaw(params: Values, ds: seq<Default>)
    ensures WithDefaults(params, ds).Keys == params.Keys
    ensures forall name <- params :: IsDefaulted(params[name], WithDefaults(params, ds)[name], ds, name)
    decreases |ds|
  {
    if ds != [] {
      var u := WithDefault(params, ds[0]);
      DefaultsLaw(u, ds[1..]);
      forall name <- params
        ensures IsDefaulted(params[name], WithDefaults(params, ds)[name], ds, name)
      {
        if ds[0].name == name { WritesDefault(params[name], ds[0].value); }
        DefaultFirst(params[name], u[name], WithDefaults(params, ds)[name], ds, name);
      }
    }
  }

  /** The recipe first, then the single defaults. */
  ghost predicate IsTuned(before: Json, after: Json, recipes: seq<Values>, ds: seq<Default>, name: string) {
    if recipes != [] && name in recipes[0] && forall k | 0 <= k < |ds| :: ds[k].name != name
    then TakesDefault(before, after, recipes[0][name])
    else IsDefaulted(before, after, ds, name)
  }

  lemma TunedLaw(before: Json, between: Json, after: Json, recipes: seq<Values>, ds: seq<Default>, name: string)
    requires IsDefaulted(between, after, ds, name)
    requires if recipes != [] && name in recipes[0] then TakesDefault(before, between, recipes[0][name])
             else between == before
    ensures IsTuned(before, after, recipes, ds, name)
  {
    hide TakesDefault;
    if recipes != [] && name in recipes[0] {
      forall k: nat | IsLast(ds, k, name)
        ensures TakesDefault(before, after, ds[k].value)
      {
        TakenOver(before, between, after, recipes[0][name], ds[k].value);
      }
    }
  }

  lemma RewrittenLaw(params: Values, recipes: seq<Values>, ds: seq<Default>)
    ensures Rewritten(params, recipes, ds).Keys == params.Keys
    ensures forall name <- params :: IsTuned(params[name], Rewritten(params, recipes, ds)[name], recipes, ds, name)
  {
    var u := if recipes == [] then params else RecipeReport.Defaulted(params, recipes[0]);
    DefaultsLaw(u, ds);
    forall name <- params
      ensures IsTuned(params[name], Rewritten(params, recipes, ds)[name], recipes, ds, name)
    {
      if recipes != [] && name in recipes[0] { WritesDefault(params[name], recipes[0][name]); }
      TunedLaw(params[name], u[name], Rewritten(params, recipes, ds)[name], recipes, ds, name);
    }
  }

  // ---------------------------------------------------------------- the whole command

  /** The node was in the graph and no pattern hits it, or it was added. */
  ghost predicate IsSource(g: Graph, c: Command, n: Node) {
    (n in g.nodes && !Dropped(c.removes, n.id)) || n in c.adds
  }

  /** The nodes are those kept and those added, with the settings made. */
  ghost predicate NodesOf(g: Graph, c: Command, nodes: seq<Node>) {
    && (forall n <- nodes :: exists b :: IsSource(g, c, b) && IsSet(b, n, c.sets))
    && (forall b | IsSource(g, c, b) :: exists n <- nodes :: IsSet(b, n, c.sets))
  }

  /** The edges are those kept, rewired, and then the connections. */
  ghost predicate EdgesOf(g: Graph, c: Command, edges: seq<Edge>) {
    exists kept: seq<Edge> :: KeptEdges(g, c, kept) && MovedAndJoined(c, kept, edges)
  }

  ghost predicate KeptEdges(g: Graph, c: Command, kept: seq<Edge>) {
    forall e :: e in kept <==> e in g.edges && !Loses(g.nodes, c.removes, e)
  }

  ghost predicate MovedAndJoined(c: Command, kept: seq<Edge>, edges: seq<Edge>) {
    && Joins(edges, |kept|, c.connects)
    && forall k | 0 <= k < |kept| :: edges[k] == kept[k].(from := Follow(c.rewires, kept[k].from))
  }

  lemma ReshapedLaw(g: Graph, c: Command, h: Graph)
    requires Reshaped(g, c) == Ok(h)
    ensures h == g.(nodes := h.nodes, edges := h.edges) && (Reshapes(c) ==> WellFormed(h))
    ensures (forall n :: n in h.nodes <==> IsSource(g, c, n)) && EdgesOf(g, c, h.edges)
  {
    var a := Stage(Removed, Ok(g), c.removes);
    var b := Stage(Added, a, c.adds);
    var d := Stage(Rewired, b, c.rewires);
    assert Each(Removed, g, c.removes) == a && Each(Added, a.value, c.adds) == b;
    assert Each(Rewired, b.value, c.rewires) == d && Each(Connected, d.value, c.connects) == Ok(h);
    hide Removed, Added, Rewired, Connected, WellFormed, Loses, Dropped, Joins;
    RemovesLaw(g, c.removes, a.value);
    AddsLaw(a.value, c.adds, b.value);
    RewiresLaw(b.value, c.rewires, d.value);
    ConnectsLaw(d.value, c.connects, h);
    var kept := b.value.edges;
    assert KeptEdges(g, c, kept);
    assert MovedAndJoined(c, kept, h.edges);
  }

  /**
   What a command that goes through has done: the nodes no pattern hits are there, and those added; every parameter
   with a setting has the value of the last one and every other the one it had; the kept edges leave the port the
   rewires lead to, and what was to be connected is; of a graph parameter nothing but the default has changed, which
   is the last one given, or the recipe's, or the one it had. The graph is well formed and its outputs are as before.
   */
  lemma PatchDoes(g: Graph, c: Command, r: Graph)
    requires Patched(g, c) == Ok(r)
    ensures WellFormed(r) && r.schemaVersion == g.schemaVersion && r.outputs == g.outputs
    ensures NodesOf(g, c, r.nodes) && EdgesOf(g, c, r.edges)
    ensures r.params.Keys == g.params.Keys
    ensures forall name <- g.params :: IsTuned(g.params[name], r.params[name], c.recipes, c.params, name)
  {
    var h := Reshaped(g, c).value;
    ReshapedLaw(g, c, h);
    TuningStages(h, c, r);
    assert WellFormed(r) && WellFormed(h);
    WellFormedNodes(h);
    var s := Stage(SetTo, Ok(h), c.sets).value;
    hide Reshaped, Tuned, Stage, SetTo, WellFormed, EdgesOf, NodesOf, AreSet, IsTuned, IsSource, Rewritten;
    SetsLaw(h, c.sets, s);
    RewrittenLaw(s.params, c.recipes, c.params);
    NodesLaw(g, c, h.nodes, r.nodes);
  }

  lemma NodesLaw(g: Graph, c: Command, before: seq<Node>, after: seq<Node>)
    requires (forall n :: n in before <==> IsSource(g, c, n)) && AreSet(before, after, c.sets)
    ensures NodesOf(g, c, after)
  {
    hide IsSet, IsSource;
    forall n <- after
      ensures exists b :: IsSource(g, c, b) && IsSet(b, n, c.sets)
    {
      var i :| 0 <= i < |after| && after[i] == n;
      assert IsSet(before[i], n, c.sets) && before[i] in before;
    }
    forall b | IsSource(g, c, b)
      ensures exists n <- after :: IsSet(b, n, c.sets)
    {
      var i :| 0 <= i < |before| && before[i] == b;
      assert IsSet(b, after[i], c.sets) && after[i] in after;
    }
  }

  // ---------------------------------------------------------------- what is refused

  predicate HasNode(g: Graph, id: string) {
    exists n <- g.nodes :: n.id == id
  }

  /** A removal is refused exactly when an output names a node the pattern hits. */
  lemma RemoveRefused(g: Graph, pattern: string)
    ensures Removed(g, pattern).Err? <==>
            exists name <- g.outputs  ::
              HasNode(g, g.outputs[name].node) && Glob.Accepts(pattern, 0, g.outputs[name].node, 0)
    ensures Removed(g, pattern).Err? ==> Removed(g, pattern).error == StillReferenced(pattern)
  {
    forall id
      ensures id in HitIds(g, pattern) <==> HasNode(g, id) && Glob.Accepts(pattern, 0, id, 0)
    {}
  }

  /** An addition is refused exactly when the node has no id or no operator, or its id is taken. */
  lemma AddRefused(g: Graph, node: Node)
    ensures Added(g, node).Err? <==> node.id == "" || node.op == "" || HasNode(g, node.id)
  {}

  /** A rewire or a connection is refused exactly when one of its nodes is not there; the first such node is named. */
  lemma JoinRefused(g: Graph, p: PortPair)
    ensures var missing := if !HasNode(g, p.from.node) then Some(p.from.node)
                           else if !HasNode(g, p.to.node) then Some(p.to.node) else None;
            && (missing.Some? ==>
                  Rewired(g, p) == Err(NoSuchNode(missing.value)) && Connected(g, p) == Err(NoSuchNode(missing.value)))
            && (missing.None? ==> Rewired(g, p).Ok? && Connected(g, p).Ok?)
  {
    assert forall id :: HasNode(g, id) <==> id in NodeIds(g.nodes);
  }

  /** A graph parameter lists "node.param" among what it drives. */
  ghost predicate IsDriven(g: Graph, node: string, param: string) {
    exists name <- g.params :: Field(g.params[name], "binds").Some? && Field(g.params[name], "binds").value.Arr?
                               && Str(node + "." + param) in Field(g.params[name], "binds").value.items
  }

  /** A setting is refused exactly when a graph parameter drives what it sets, or its node is not there. */
  lemma SetRefused(g: Graph, s: Setting)
    ensures if IsDriven(g, s.node, s.param) then SetTo(g, s) == Err(ParamConflict(s.node, s.param))
            else if !HasNode(g, s.node) then SetTo(g, s) == Err(NoSuchNode(s.node))
            else SetTo(g, s).Ok?
  {
    assert HasNode(g, s.node) <==> s.node in NodeIds(g.nodes);
    assert Bound(g.params, s.node, s.param) <==> IsDriven(g, s.node, s.param);
  }

  /** Recipes are refused exactly when there are two, or a value is not declared or not one its declaration allows. */
  lemma RecipeRefused(g: Graph, recipes: seq<Values>)
    ensures if |recipes| > 1 then Applied(g, recipes) == Err(SecondRecipe)
            else if recipes != [] && exists n <- recipes[0] ::
                   n !in g.params || g.params[n] == Null || !RecipeFixes.Legal(g.params[n], recipes[0][n])
            then Applied(g, recipes) == Err(RecipeMismatch)
            else Applied(g, recipes).Ok?
  {}

  /** A default is refused exactly when its name is not declared as an object. */
  lemma DefaultRefused(g: Graph, d: Default)
    ensures if d.name in g.params && g.params[d.name].Obj? then Defaulted(g, d).Ok?
            else Defaulted(g, d) == Err(UnknownParam(d.name))
  {}

  lemma {:induction false} EachKeepsFrom<T>(action: (Graph, T) -> Result<Graph, Error>, g: Graph, specs: seq<T>,
                                           e: Error)
    requires forall h: Graph, x: T :: action(h, x) != Err(e)
    ensures Each(action, g, specs) != Err(e)
    decreases |specs|
  {
    if specs != [] && action(g, specs[0]).Ok? {
      EachKeepsFrom(action, action(g, specs[0]).value, specs[1..], e);
    }
  }

  lemma StageKeepsFrom<T>(action: (Graph, T) -> Result<Graph, Error>, before: Result<Graph, Error>, specs: seq<T>)
    requires forall h: Graph, x: T :: action(h, x) != Err(NoAction)
    ensures Stage(action, before, specs) == Err(NoAction) ==> before == Err(NoAction)
  {
    if before.Ok? { EachKeepsFrom(action, before.value, specs, NoAction); }
  }

  /** A command that asks for something is refused for what it asks; only an empty one is refused for asking nothing. */
  lemma EmptyCommandRefused(g: Graph, c: Command)
    ensures Patched(g, c) == Err(NoAction) <==>
            |c.removes| + |c.adds| + |c.rewires| + |c.connects| + |c.sets| + |c.recipes| + |c.params| == 0
  {
    var a := Stage(Removed, Ok(g), c.removes);
    var b := Stage(Added, a, c.adds);
    var d := Stage(Rewired, b, c.rewires);
    var h := Reshaped(g, c);
    var s := Stage(SetTo, h, c.sets);
    StageKeepsFrom(Removed, Ok(g), c.removes);
    StageKeepsFrom(Added, a, c.adds);
    StageKeepsFrom(Rewired, b, c.rewires);
    StageKeepsFrom(Connected, d, c.connects);
    StageKeepsFrom(SetTo, h, c.sets);
    StageKeepsFrom(Defaulted, RecipeStage(s, c.recipes), c.params);
    hide Stage, Removed, Added, Rewired, Connected, SetTo, Defaulted, WellFormed;
  }
}
