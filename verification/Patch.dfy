/**
 The structural edits of `lyflow patch` (bridge/src/patch.rs): seven actions in a fixed order, each
 followed by the structural check, all or nothing. Specifications are taken after parsing: a rewire or
 a connection is a pair of ports, a value is JSON.
 */
module Patch {
  import opened Outcomes
  import opened Graphs
  import Glob
  import RecipeFixes
  import RecipeReport

  datatype PortPair = PortPair(from: PortRef, to: PortRef)

  datatype Setting = Setting(node: string, param: string, value: Json)

  datatype Default = Default(name: string, value: Json)

  datatype Command = Command(removes: seq<string>, adds: seq<Node>, rewires: seq<PortPair>, connects: seq<PortPair>,
                             sets: seq<Setting>, recipes: seq<Values>, params: seq<Default>)

  datatype Error =
    | StillReferenced(pattern: string)
    | BadNode(id: string)
    | NoSuchNode(id: string)
    | ParamConflict(node: string, param: string)
    | SecondRecipe
    | RecipeMismatch
    | UnknownParam(name: string)
    | Invalid
    | NoAction

  // ---------------------------------------------------------------- the actions

  ghost predicate Hits(pattern: string, id: string) {
    Glob.Accepts(pattern, 0, id, 0)
  }

  ghost function HitIds(g: Graph, pattern: string): set<string> {
    set n | n in g.nodes && Hits(pattern, n.id) :: n.id
  }

  /** The elements to keep, in order. */
  function Retained<T>(xs: seq<T>, keep: T -> bool): seq<T> {
    if xs == [] then [] else (if keep(xs[0]) then [xs[0]] else []) + Retained(xs[1..], keep)
  }

  predicate Touches(e: Edge, ids: set<string>) {
    e.from.node in ids || e.to.node in ids
  }

  function WithoutNodes(nodes: seq<Node>, ids: set<string>): seq<Node> {
    Retained(nodes, (n: Node) => n.id !in ids)
  }

  function WithoutEdges(edges: seq<Edge>, ids: set<string>): seq<Edge> {
    Retained(edges, (e: Edge) => !Touches(e, ids))
  }

  ghost predicate Referenced(g: Graph, ids: set<string>) {
    exists name :: name in g.outputs && g.outputs[name].node in ids
  }

  /** Removes the nodes a pattern hits, with their edges, unless a named output refers to one of them. */
  ghost function Removed(g: Graph, pattern: string): Result<Graph, Error> {
    var ids := HitIds(g, pattern);
    if ids == {} then Ok(g)
    else if Referenced(g, ids) then Err(StillReferenced(pattern))
    else Ok(g.(nodes := WithoutNodes(g.nodes, ids), edges := WithoutEdges(g.edges, ids)))
  }

  ghost function Added(g: Graph, node: Node): Result<Graph, Error> {
    if node.id == "" || node.op == "" || node.id in NodeIds(g.nodes) then Err(BadNode(node.id))
    else Ok(g.(nodes := g.nodes + [node]))
  }

  function Moved(e: Edge, p: PortPair): Edge {
    if e.from == p.from then e.(from := p.to) else e
  }

  function MovedEdges(edges: seq<Edge>, p: PortPair): (r: seq<Edge>)
    ensures |r| == |edges|
  {
    seq(|edges|, i requires 0 <= i < |edges| => Moved(edges[i], p))
  }

  /** All edges out of one port go out of another. */
  ghost function Rewired(g: Graph, p: PortPair): Result<Graph, Error> {
    if p.from.node !in NodeIds(g.nodes) then Err(NoSuchNode(p.from.node))
    else if p.to.node !in NodeIds(g.nodes) then Err(NoSuchNode(p.to.node))
    else Ok(g.(edges := MovedEdges(g.edges, p)))
  }

  ghost predicate HasEdge(edges: seq<Edge>, p: PortPair) {
    exists e :: e in edges && e.from == p.from && e.to == p.to
  }

  ghost function NewEdge(g: Graph, p: PortPair): Edge {
    Edge(UniqueId(EdgeIds(g.edges), "e_" + p.from.node + "_" + p.to.node), p.from, p.to)
  }

  /** Adds the edge unless the same one is there. */
  ghost function Connected(g: Graph, p: PortPair): Result<Graph, Error> {
    if p.from.node !in NodeIds(g.nodes) then Err(NoSuchNode(p.from.node))
    else if p.to.node !in NodeIds(g.nodes) then Err(NoSuchNode(p.to.node))
    else if HasEdge(g.edges, p) then Ok(g)
    else Ok(g.(edges := g.edges + [NewEdge(g, p)]))
  }

  predicate Binds(decl: Json, target: string) {
    match Field(decl, "binds")
    case Some(Arr(items)) => Str(target) in items
    case _ => false
  }

  /** Some graph parameter drives this node parameter. */
  ghost predicate Bound(params: Values, node: string, param: string) {
    exists name :: name in params && Binds(params[name], node + "." + param)
  }

  /** The first node with this id. */
  function IndexOf(nodes: seq<Node>, id: string): (i: nat)
    ensures i <= |nodes|
    ensures i < |nodes| ==> nodes[i].id == id
    ensures forall k | 0 <= k < i :: nodes[k].id != id
    ensures i == |nodes| <==> id !in NodeIds(nodes)
  {
    if nodes == [] then 0
    else if nodes[0].id == id then 0
    else
      assert forall k | 1 <= k < |nodes| :: nodes[k] == nodes[1..][k - 1];
      var i := 1 + IndexOf(nodes[1..], id);
      assert i == |nodes| ==> forall k | 0 <= k < |nodes| :: nodes[k].id != id;
      i
  }

  /** Writes one parameter of one node, unless a graph parameter drives it. */
  ghost function SetTo(g: Graph, s: Setting): Result<Graph, Error> {
    if Bound(g.params, s.node, s.param) then Err(ParamConflict(s.node, s.param))
    else if s.node !in NodeIds(g.nodes) then Err(NoSuchNode(s.node))
    else
      var i := IndexOf(g.nodes, s.node);
      Ok(g.(nodes := g.nodes[i := g.nodes[i].(params := g.nodes[i].params[s.param := s.value])]))
  }

  /** Writes the values of a recipe as defaults. There may be one recipe only, and all its values have to fit. */
  ghost function Applied(g: Graph, recipes: seq<Values>): Result<Graph, Error> {
    if |recipes| > 1 then Err(SecondRecipe)
    else if recipes == [] then Ok(g)
    else if !RecipeReport.Fits(g.params, recipes[0]) then Err(RecipeMismatch)
    else Ok(g.(params := RecipeReport.Defaulted(g.params, recipes[0])))
  }

  /** Writes the default of a declared graph parameter. */
  ghost function Defaulted(g: Graph, d: Default): Result<Graph, Error> {
    if d.name !in g.params || !g.params[d.name].Obj? then Err(UnknownParam(d.name))
    else Ok(g.(params := g.params[d.name := RecipeReport.WithDefault(g.params[d.name], d.value)]))
  }

  // ---------------------------------------------------------------- sequences of actions

  /** One action a specification, in order; the first that fails ends it. */
  ghost function Each<T>(action: (Graph, T) -> Result<Graph, Error>, g: Graph, specs: seq<T>): Result<Graph, Error>
    decreases |specs|
  {
    if specs == [] then Ok(g)
    else
      match action(g, specs[0])
      case Err(e) => Err(e)
      case Ok(h) => Each(action, h, specs[1..])
  }

  /** A step that has nothing to do is skipped; one that has is followed by the structural check. */
  ghost function Checked(r: Result<Graph, Error>): Result<Graph, Error> {
    if r.Ok? && !WellFormed(r.value) then Err(Invalid) else r
  }

  ghost function Stage<T>(action: (Graph, T) -> Result<Graph, Error>, before: Result<Graph, Error>,
                          specs: seq<T>): Result<Graph, Error>
  {
    if before.Err? || specs == [] then before else Checked(Each(action, before.value, specs))
  }

  ghost function RecipeStage(before: Result<Graph, Error>, recipes: seq<Values>): Result<Graph, Error> {
    if before.Err? || recipes == [] then before else Checked(Applied(before.value, recipes))
  }

  /** Removing, adding and rewiring nodes, and connecting them. */
  ghost function Reshaped(g: Graph, c: Command): Result<Graph, Error> {
    Stage(Connected, Stage(Rewired, Stage(Added, Stage(Removed, Ok(g), c.removes), c.adds), c.rewires), c.connects)
  }

  /** Writing values: node parameters, the defaults of a recipe, and single defaults. */
  ghost function Tuned(before: Result<Graph, Error>, c: Command): Result<Graph, Error> {
    Stage(Defaulted, RecipeStage(Stage(SetTo, before, c.sets), c.recipes), c.params)
  }

  predicate Reshapes(c: Command) {
    c.removes != [] || c.adds != [] || c.rewires != [] || c.connects != []
  }

  predicate Tunes(c: Command) {
    c.sets != [] || c.recipes != [] || c.params != []
  }

  /** The graph that is written, or the reason nothing is. */
  ghost function Patched(g: Graph, c: Command): Result<Graph, Error> {
    if !Reshapes(c) && !Tunes(c) then Err(NoAction) else Tuned(Reshaped(g, c), c)
  }

  // ---------------------------------------------------------------- what the actions do to validity

  lemma {:induction false} RetainedMembers<T>(xs: seq<T>, keep: T -> bool)
    ensures forall k | 0 <= k < |xs| && keep(xs[k]) :: xs[k] in Retained(xs, keep)
    ensures forall x <- Retained(xs, keep) :: x in xs && keep(x)
  {
    if xs != [] {
      RetainedMembers(xs[1..], keep);
      assert xs == [xs[0]] + xs[1..];
      forall k | 0 <= k < |xs| && keep(xs[k])
        ensures xs[k] in Retained(xs, keep)
      {
        if k > 0 { assert xs[k] == xs[1..][k - 1]; }
      }
    }
  }

  /** `at` says where in `xs` the elements of `ys` stand, in the same order. */
  ghost predicate Placed<T>(xs: seq<T>, ys: seq<T>, at: seq<nat>) {
    && |at| == |ys|
    && (forall i | 0 <= i < |at| :: at[i] < |xs| && xs[at[i]] == ys[i])
    && forall i, j | 0 <= i < j < |at| :: at[i] < at[j]
  }

  lemma PlacedLater<T>(x: T, xs: seq<T>, ys: seq<T>, at: seq<nat>) returns (later: seq<nat>)
    requires Placed(xs, ys, at)
    ensures Placed([x] + xs, ys, later) && Placed([x] + xs, [x] + ys, [0] + later)
  {
    later := seq(|at|, i requires 0 <= i < |at| => at[i] + 1);
    var all, more := [x] + xs, [0] + later;
    assert forall i | 0 <= i < |later| :: all[later[i]] == xs[at[i]];
    assert forall i | 0 < i < |more| :: more[i] == later[i - 1] && ([x] + ys)[i] == ys[i - 1];
  }

  /** Where the kept elements stood, in the same order. */
  lemma {:induction false} RetainedOrder<T>(xs: seq<T>, keep: T -> bool) returns (at: seq<nat>)
    ensures Placed(xs, Retained(xs, keep), at)
  {
    if xs == [] {
      at := [];
    } else {
      var rest := RetainedOrder(xs[1..], keep);
      hide Placed;
      var later := PlacedLater(xs[0], xs[1..], Retained(xs[1..], keep), rest);
      assert xs == [xs[0]] + xs[1..];
      at := if keep(xs[0]) then [0] + later else later;
    }
  }

  lemma WithoutNodesFacts(nodes: seq<Node>, ids: set<string>)
    ensures NodeIds(WithoutNodes(nodes, ids)) == NodeIds(nodes) - ids
    ensures NodesOk(nodes) ==> NodesOk(WithoutNodes(nodes, ids))
  {
    var keep := (n: Node) => n.id !in ids;
    RetainedMembers(nodes, keep);
    var at := RetainedOrder(nodes, keep);
  }

  lemma WithoutEdgesFacts(edges: seq<Edge>, ids: set<string>)
    ensures var r := WithoutEdges(edges, ids);
            && (forall e <- r :: e in edges && !Touches(e, ids))
            && (EdgeIdsDistinct(edges) ==> EdgeIdsDistinct(r)) && (SingleInputs(edges) ==> SingleInputs(r))
            && (NoSelfLoops(edges) ==> NoSelfLoops(r))
  {
    var keep := (e: Edge) => !Touches(e, ids);
    RetainedMembers(edges, keep);
    var at := RetainedOrder(edges, keep);
  }

  /**
   A removal that goes through leaves the graph well formed exactly if no output lies inside a removed
   subgraph node; outputs naming a removed node itself have already stopped it.
   */
  lemma RemoveValidity(g: Graph, pattern: string)
    requires WellFormed(g) && Removed(g, pattern).Ok?
    ensures WellFormed(Removed(g, pattern).value) <==>
            forall name <- g.outputs :: Head(g.outputs[name].node) !in HitIds(g, pattern)
  {
    var ids := HitIds(g, pattern);
    if ids != {} {
      RemovedKeepsEdges(g, ids);
      WithoutNodesFacts(g.nodes, ids);
      OutputsLeft(g.outputs, NodeIds(g.nodes), ids);
      hide NodesOk, EdgeIdsDistinct, EdgeEndsOk, NoSelfLoops, SingleInputs, OutputsOk, HitIds, WithoutNodes,
           WithoutEdges;
    }
  }

  lemma RemovedKeepsEdges(g: Graph, ids: set<string>)
    requires WellFormed(g)
    ensures var r := WithoutEdges(g.edges, ids);
            EdgeIdsDistinct(r) && EdgeEndsOk(r, NodeIds(g.nodes) - ids) && NoSelfLoops(r) && SingleInputs(r)
  {
    var r := WithoutEdges(g.edges, ids);
    WithoutEdgesFacts(g.edges, ids);
    hide WithoutEdges, NodesOk, OutputsOk;
    forall k | 0 <= k < |r|
      ensures r[k].from.node in NodeIds(g.nodes) - ids && r[k].to.node in NodeIds(g.nodes) - ids
    {
      assert r[k] in r && r[k] in g.edges;
    }
  }

  lemma OutputsLeft(outputs: map<string, PortRef>, all: set<string>, ids: set<string>)
    requires OutputsOk(outputs, all)
    ensures OutputsOk(outputs, all - ids) <==> forall name <- outputs :: Head(outputs[name].node) !in ids
  {
    forall name <- outputs
      ensures OutputOk(name, outputs[name], all - ids) <==> Head(outputs[name].node) !in ids
    {
      assert OutputOk(name, outputs[name], all);
    }
  }

  lemma AddKeepsWellFormed(g: Graph, node: Node)
    requires WellFormed(g) && Added(g, node).Ok?
    ensures WellFormed(Added(g, node).value)
  {
    NodeAdded(g.nodes, node);
  }

  lemma MovedFacts(edges: seq<Edge>, p: PortPair)
    ensures var r := MovedEdges(edges, p);
            && (EdgeIdsDistinct(edges) ==> EdgeIdsDistinct(r)) && (SingleInputs(edges) ==> SingleInputs(r))
  {
    assert forall k | 0 <= k < |edges| ::
           MovedEdges(edges, p)[k].id == edges[k].id && MovedEdges(edges, p)[k].to == edges[k].to;
  }

  /** A rewire can spoil nothing but self-loop freedom: it does when it moves an edge onto its own target's node. */
  lemma RewireValidity(g: Graph, p: PortPair)
    requires WellFormed(g) && Rewired(g, p).Ok?
    ensures WellFormed(Rewired(g, p).value) <==> forall e <- g.edges :: e.from == p.from ==> e.to.node != p.to.node
  {
    var r := MovedEdges(g.edges, p);
    MovedFacts(g.edges, p);
    assert EdgeEndsOk(r, NodeIds(g.nodes));
    if e :| e in g.edges && e.from == p.from && e.to.node == p.to.node {
      var k :| 0 <= k < |g.edges| && g.edges[k] == e;
      assert r[k].from.node == r[k].to.node;
    } else {
      forall k | 0 <= k < |r|
        ensures r[k].from.node != r[k].to.node
      {
        assert g.edges[k] in g.edges;
      }
    }
  }

  /** A connection can spoil nothing but self-loop freedom and single inputs. */
  lemma ConnectValidity(g: Graph, p: PortPair)
    requires WellFormed(g) && Connected(g, p).Ok?
    ensures WellFormed(Connected(g, p).value) <==>
            HasEdge(g.edges, p) || (p.from.node != p.to.node && p.to !in Targets(g.edges))
  {
    if !HasEdge(g.edges, p) { EdgeAdded(g.edges, NewEdge(g, p), NodeIds(g.nodes)); }
  }

  lemma SetKeepsWellFormed(g: Graph, s: Setting)
    requires SetTo(g, s).Ok?
    ensures WellFormed(SetTo(g, s).value) <==> WellFormed(g)
  {
    var nodes := SetTo(g, s).value.nodes;
    SameIds(g.nodes, nodes);
    assert forall k | 0 <= k < |g.nodes| :: nodes[k].id == g.nodes[k].id && nodes[k].op == g.nodes[k].op;
  }

  lemma SameIds(a: seq<Node>, b: seq<Node>)
    requires |a| == |b| && forall k | 0 <= k < |a| :: a[k].id == b[k].id
    ensures NodeIds(a) == NodeIds(b)
  {
    forall id
      ensures id in NodeIds(a) <==> id in NodeIds(b)
    {
      if id in NodeIds(a) { var k :| 0 <= k < |a| && a[k].id == id; assert b[k].id == id; }
      if id in NodeIds(b) { var k :| 0 <= k < |b| && b[k].id == id; assert a[k].id == id; }
    }
  }

  // ---------------------------------------------------------------- a second pass finds nothing to remove

  lemma {:induction false} RemovesAreGone(g: Graph, patterns: seq<string>, h: Graph)
    requires Each(Removed, g, patterns) == Ok(h)
    ensures NodeIds(h.nodes) <= NodeIds(g.nodes) && h.outputs == g.outputs && h.params == g.params
    ensures forall pattern <- patterns, id <- NodeIds(h.nodes) :: !Hits(pattern, id)
    decreases |patterns|
  {
    if patterns != [] {
      var u := Removed(g, patterns[0]).value;
      WithoutNodesFacts(g.nodes, HitIds(g, patterns[0]));
      forall id <- NodeIds(u.nodes)
        ensures !Hits(patterns[0], id)
      {
        assert id in NodeIds(g.nodes) - HitIds(g, patterns[0]);
      }
      RemovesAreGone(u, patterns[1..], h);
      assert patterns == [patterns[0]] + patterns[1..];
    }
  }

  lemma {:induction false} NothingToRemove(h: Graph, patterns: seq<string>)
    requires forall pattern <- patterns, id <- NodeIds(h.nodes) :: !Hits(pattern, id)
    ensures Each(Removed, h, patterns) == Ok(h)
    decreases |patterns|
  {
    if patterns != [] {
      assert patterns[0] in patterns && forall q <- patterns[1..] :: q in patterns;
      assert HitIds(h, patterns[0]) == {};
      NothingToRemove(h, patterns[1..]);
    }
  }

  // ---------------------------------------------------------------- nor to rewire, nor to connect

  function Sources(ps: seq<PortPair>): set<PortRef> {
    set p <- ps :: p.from
  }

  function RewireTargets(ps: seq<PortPair>): set<PortRef> {
    set p <- ps :: p.to
  }

  ghost predicate NoneFrom(edges: seq<Edge>, from: set<PortRef>) {
    forall e <- edges :: e.from !in from
  }

  ghost predicate EndsExist(nodes: seq<Node>, ps: seq<PortPair>) {
    forall p <- ps :: p.from.node in NodeIds(nodes) && p.to.node in NodeIds(nodes)
  }

  lemma {:induction false} RewiresEmptySources(g: Graph, done: set<PortRef>, ps: seq<PortPair>, h: Graph)
    requires Each(Rewired, g, ps) == Ok(h)
    requires NoneFrom(g.edges, done) && RewireTargets(ps) !! done && RewireTargets(ps) !! Sources(ps)
    ensures NoneFrom(h.edges, done + Sources(ps)) && EndsExist(g.nodes, ps) && h == g.(edges := h.edges)
    decreases |ps|
  {
    if ps != [] {
      var p := ps[0];
      var u := Rewired(g, p).value;
      assert ps == [p] + ps[1..] && p in ps && forall q <- ps[1..] :: q in ps;
      assert p.to in RewireTargets(ps) && p.from in Sources(ps);
      assert RewireTargets(ps[1..]) <= RewireTargets(ps) && Sources(ps[1..]) <= Sources(ps);
      forall e <- u.edges
        ensures e.from !in done + {p.from}
      {
        var k :| 0 <= k < |u.edges| && u.edges[k] == e;
        assert g.edges[k] in g.edges;
      }
      RewiresEmptySources(u, done + {p.from}, ps[1..], h);
      assert done + Sources(ps) == done + {p.from} + Sources(ps[1..]);
    }
  }

  lemma {:induction false} NothingToRewire(h: Graph, ps: seq<PortPair>)
    requires NoneFrom(h.edges, Sources(ps)) && EndsExist(h.nodes, ps)
    ensures Each(Rewired, h, ps) == Ok(h)
    decreases |ps|
  {
    if ps != [] {
      assert ps[0] in ps && forall q <- ps[1..] :: q in ps;
      assert ps[0].from in Sources(ps) && Sources(ps[1..]) <= Sources(ps);
      forall k | 0 <= k < |h.edges|
        ensures Moved(h.edges[k], ps[0]) == h.edges[k]
      {
        assert h.edges[k] in h.edges;
      }
      assert MovedEdges(h.edges, ps[0]) == h.edges;
      NothingToRewire(h, ps[1..]);
    }
  }

  lemma {:induction false} ConnectsAreThere(g: Graph, ps: seq<PortPair>, h: Graph)
    requires Each(Connected, g, ps) == Ok(h)
    ensures g.edges <= h.edges && h == g.(edges := h.edges) && EndsExist(g.nodes, ps)
    ensures forall p <- ps :: HasEdge(h.edges, p)
    ensures forall e <- h.edges :: e in g.edges || e.from in Sources(ps)
    decreases |ps|
  {
    if ps != [] {
      var p := ps[0];
      var u := Connected(g, p).value;
      assert ps == [p] + ps[1..] && p in ps && forall q <- ps[1..] :: q in ps;
      ConnectsAreThere(u, ps[1..], h);
      if !HasEdge(g.edges, p) { assert u.edges[|g.edges|] == NewEdge(g, p); }
      var e :| e in u.edges && e.from == p.from && e.to == p.to;
      assert e in h.edges;
      assert p.from in Sources(ps) && Sources(ps[1..]) <= Sources(ps);
    }
  }

  lemma {:induction false} NothingToConnect(h: Graph, ps: seq<PortPair>)
    requires EndsExist(h.nodes, ps) && forall p <- ps :: HasEdge(h.edges, p)
    ensures Each(Connected, h, ps) == Ok(h)
    decreases |ps|
  {
    if ps != [] {
      assert ps[0] in ps && forall q <- ps[1..] :: q in ps;
      NothingToConnect(h, ps[1..]);
    }
  }

  // ---------------------------------------------------------------- settings end where they ended before

  type Key = (string, string)

  function SetKeys(ss: seq<Setting>): set<Key> {
    set s <- ss :: (s.node, s.param)
  }

  function WithSetting(nodes: seq<Node>, s: Setting): seq<Node>
    requires s.node in NodeIds(nodes)
  {
    var i := IndexOf(nodes, s.node);
    nodes[i := nodes[i].(params := nodes[i].params[s.param := s.value])]
  }

  /** The same parameters, but for those listed under this node in `except`. */
  ghost predicate ParamsAgree(a: Node, b: Node, except: set<Key>) {
    && a.(params := b.params) == b
    && (forall q: string | (a.id, q) !in except ::
       (q in a.params <==> q in b.params) && (q in a.params ==> a.params[q] == b.params[q]))
  }

  ghost predicate NodesAgree(a: seq<Node>, b: seq<Node>, except: set<Key>) {
    |a| == |b| && forall i | 0 <= i < |a| :: ParamsAgree(a[i], b[i], except)
  }

  lemma SameIndex(a: seq<Node>, b: seq<Node>, id: string)
    requires |a| == |b| && forall k | 0 <= k < |a| :: a[k].id == b[k].id
    ensures IndexOf(a, id) == IndexOf(b, id) && (id in NodeIds(a) <==> id in NodeIds(b))
  {
    SameIds(a, b);
  }

  /** Making the same setting in both leaves one disagreement fewer. */
  lemma SettingAgrees(a: seq<Node>, b: seq<Node>, s: Setting, except: set<Key>)
    requires NodesAgree(a, b, except + {(s.node, s.param)}) && NodesOk(a) && s.node in NodeIds(a)
    ensures s.node in NodeIds(b) && NodesAgree(WithSetting(a, s), WithSetting(b, s), except)
  {
    SameIndex(a, b, s.node);
    var j := IndexOf(a, s.node);
    var a', b' := WithSetting(a, s), WithSetting(b, s);
    forall i | 0 <= i < |a|
      ensures ParamsAgree(a'[i], b'[i], except)
    {
      assert ParamsAgree(a[i], b[i], except + {(s.node, s.param)});
      if i != j { assert a[i].id != s.node; }
    }
  }

  lemma SettingTouchesKey(nodes: seq<Node>, s: Setting)
    requires s.node in NodeIds(nodes)
    ensures NodesAgree(WithSetting(nodes, s), nodes, {(s.node, s.param)})
  {}

  lemma AgreeTransitive(a: seq<Node>, b: seq<Node>, c: seq<Node>, x: set<Key>, y: set<Key>)
    requires NodesAgree(a, b, x) && NodesAgree(b, c, y)
    ensures NodesAgree(a, c, x + y)
  {
    forall i | 0 <= i < |a|
      ensures ParamsAgree(a[i], c[i], x + y)
    {
      assert ParamsAgree(a[i], b[i], x) && ParamsAgree(b[i], c[i], y);
    }
  }

  /** Settings do not depend on the values of the parameters they write. */
  lemma {:induction false} SetsOverwrite(g: Graph, h: Graph, ss: seq<Setting>, r: Graph)
    requires Each(SetTo, g, ss) == Ok(r) && NodesOk(g.nodes)
    requires NodesAgree(g.nodes, h.nodes, SetKeys(ss))
    requires forall node, param :: Bound(g.params, node, param) <==> Bound(h.params, node, param)
    ensures Each(SetTo, h, ss) == Ok(h.(nodes := r.nodes))
    decreases |ss|
  {
    if ss == [] {
      assert forall i | 0 <= i < |g.nodes| :: ParamsAgree(g.nodes[i], h.nodes[i], {});
      assert forall i | 0 <= i < |g.nodes| :: g.nodes[i].params == h.nodes[i].params;
      assert g.nodes == h.nodes;
    } else {
      var s := ss[0];
      assert ss == [s] + ss[1..];
      assert SetKeys(ss) == SetKeys(ss[1..]) + {(s.node, s.param)};
      var g', h' := g.(nodes := WithSetting(g.nodes, s)), SetTo(h, s);
      SettingAgrees(g.nodes, h.nodes, s, SetKeys(ss[1..]));
      SetsOverwrite(g', h'.value, ss[1..], r);
    }
  }

  lemma OneSetTouchesKey(g: Graph, s: Setting)
    requires SetTo(g, s).Ok? && NodesOk(g.nodes)
    ensures var h := SetTo(g, s).value;
            && NodesAgree(h.nodes, g.nodes, {(s.node, s.param)}) && NodesOk(h.nodes)
            && h == g.(nodes := h.nodes) && NodeIds(h.nodes) == NodeIds(g.nodes)
  {
    SettingTouchesKey(g.nodes, s);
    SameIds(g.nodes, WithSetting(g.nodes, s));
  }

  lemma {:induction false} SetsTouchKeys(g: Graph, ss: seq<Setting>, r: Graph)
    requires Each(SetTo, g, ss) == Ok(r) && NodesOk(g.nodes)
    ensures NodesAgree(r.nodes, g.nodes, SetKeys(ss)) && NodesOk(r.nodes) && r == g.(nodes := r.nodes)
    ensures NodeIds(r.nodes) == NodeIds(g.nodes)
    decreases |ss|
  {
    if ss != [] {
      var s := ss[0];
      assert ss == [s] + ss[1..];
      var g' := SetTo(g, s).value;
      OneSetTouchesKey(g, s);
      hide NodesAgree, NodesOk, SetTo, NodeIds;
      SetsTouchKeys(g', ss[1..], r);
      AgreeTransitive(r.nodes, g'.nodes, g.nodes, SetKeys(ss[1..]), {(s.node, s.param)});
      assert SetKeys(ss) == SetKeys(ss[1..]) + {(s.node, s.param)};
    }
  }

  /** Making all settings a second time, even after the graph parameters got other defaults, changes nothing. */
  lemma SetsSettle(g: Graph, ss: seq<Setting>, r: Graph, params: Values)
    requires Each(SetTo, g, ss) == Ok(r) && NodesOk(g.nodes)
    requires forall node, param :: Bound(g.params, node, param) <==> Bound(params, node, param)
    ensures Each(SetTo, r.(params := params), ss) == Ok(r.(params := params))
  {
    SetsTouchKeys(g, ss, r);
    forall i | 0 <= i < |g.nodes|
      ensures ParamsAgree(g.nodes[i], r.nodes[i], SetKeys(ss))
    {
      assert ParamsAgree(r.nodes[i], g.nodes[i], SetKeys(ss));
    }
    SetsOverwrite(g, r.(params := params), ss, r);
  }

  // ---------------------------------------------------------------- so do defaults

  function Names(ds: seq<Default>): set<string> {
    set d <- ds :: d.name
  }

  /** The same declarations, but for the defaults of those listed in `except`. */
  ghost predicate DeclsAgree(a: Values, b: Values, except: set<string>) {
    a.Keys == b.Keys && forall n <- a :: if n in except then RecipeReport.SameSpec(a[n], b[n]) else a[n] == b[n]
  }

  /** The parameters after a default is written, or as they were. */
  function WithDefault(params: Values, d: Default): Values {
    if d.name in params then params[d.name := RecipeReport.WithDefault(params[d.name], d.value)] else params
  }

  function WithDefaults(params: Values, ds: seq<Default>): Values {
    if ds == [] then params else WithDefaults(WithDefault(params, ds[0]), ds[1..])
  }

  lemma DeclsTransitive(a: Values, b: Values, c: Values, x: set<string>, y: set<string>)
    requires DeclsAgree(a, b, x) && DeclsAgree(b, c, y)
    ensures DeclsAgree(a, c, x + y)
  {}

  lemma DefaultAgrees(a: Values, b: Values, d: Default, except: set<string>)
    requires DeclsAgree(a, b, except + {d.name})
    ensures DeclsAgree(WithDefault(a, d), WithDefault(b, d), except)
  {
    hide RecipeReport.WithDefault;
    if d.name in a { RecipeReport.DefaultMakesEqual(a[d.name], b[d.name], d.value); }
  }

  lemma DefaultTouchesName(a: Values, d: Default)
    ensures DeclsAgree(WithDefault(a, d), a, {d.name})
  {
    if d.name in a { RecipeReport.DefaultKeepsSpec(a[d.name], d.value); }
  }

  lemma {:induction false} DefaultsOverwrite(a: Values, b: Values, ds: seq<Default>)
    requires DeclsAgree(a, b, Names(ds))
    ensures WithDefaults(a, ds) == WithDefaults(b, ds)
    decreases |ds|
  {
    if ds != [] {
      assert ds == [ds[0]] + ds[1..];
      assert Names(ds) == Names(ds[1..]) + {ds[0].name};
      DefaultAgrees(a, b, ds[0], Names(ds[1..]));
      DefaultsOverwrite(WithDefault(a, ds[0]), WithDefault(b, ds[0]), ds[1..]);
    }
  }

  lemma {:induction false} DefaultsTouchNames(a: Values, ds: seq<Default>)
    ensures DeclsAgree(WithDefaults(a, ds), a, Names(ds))
    decreases |ds|
  {
    if ds != [] {
      assert ds == [ds[0]] + ds[1..];
      assert Names(ds) == Names(ds[1..]) + {ds[0].name};
      DefaultTouchesName(a, ds[0]);
      DefaultsTouchNames(WithDefault(a, ds[0]), ds[1..]);
      DeclsTransitive(WithDefaults(a, ds), WithDefault(a, ds[0]), a, Names(ds[1..]), {ds[0].name});
    }
  }

  /** The parameters after a recipe, or none, and single defaults. */
  ghost function Rewritten(params: Values, recipes: seq<Values>, ds: seq<Default>): Values {
    WithDefaults(if recipes == [] then params else RecipeReport.Defaulted(params, recipes[0]), ds)
  }

  function RecipeNames(recipes: seq<Values>): set<string> {
    if recipes == [] then {} else recipes[0].Keys
  }

  lemma RecipeTouchesNames(a: Values, values: Values)
    ensures DeclsAgree(RecipeReport.Defaulted(a, values), a, values.Keys)
  {
    forall n <- a | n in values
      ensures RecipeReport.SameSpec(RecipeReport.WithDefault(a[n], values[n]), a[n])
    {
      RecipeReport.DefaultKeepsSpec(a[n], values[n]);
    }
  }

  lemma RecipeOverwrites(a: Values, b: Values, values: Values, except: set<string>)
    requires DeclsAgree(a, b, except + values.Keys)
    ensures DeclsAgree(RecipeReport.Defaulted(a, values), RecipeReport.Defaulted(b, values), except)
  {
    forall n <- a | n in values
      ensures RecipeReport.WithDefault(a[n], values[n]) == RecipeReport.WithDefault(b[n], values[n])
    {
      RecipeReport.DefaultMakesEqual(a[n], b[n], values[n]);
    }
  }

  lemma RewritingTouchesNames(a: Values, recipes: seq<Values>, ds: seq<Default>)
    ensures DeclsAgree(Rewritten(a, recipes, ds), a, RecipeNames(recipes) + Names(ds))
  {
    hide DeclsAgree;
    var b := if recipes == [] then a else RecipeReport.Defaulted(a, recipes[0]);
    DefaultsTouchNames(b, ds);
    if recipes == [] {
      assert {} + Names(ds) == Names(ds);
    } else {
      RecipeTouchesNames(a, recipes[0]);
      DeclsTransitive(Rewritten(a, recipes, ds), b, a, Names(ds), RecipeNames(recipes));
      assert Names(ds) + RecipeNames(recipes) == RecipeNames(recipes) + Names(ds);
    }
  }

  /** Writing all defaults a second time ends with the same declarations, whatever names repeat. */
  lemma DefaultsSettle(a: Values, recipes: seq<Values>, ds: seq<Default>)
    ensures var r := Rewritten(a, recipes, ds); Rewritten(r, recipes, ds) == r
  {
    hide DeclsAgree;
    var r := Rewritten(a, recipes, ds);
    RewritingTouchesNames(a, recipes, ds);
    if recipes == [] {
      assert {} + Names(ds) == Names(ds);
      DefaultsOverwrite(r, a, ds);
    } else {
      assert RecipeNames(recipes) + Names(ds) == Names(ds) + recipes[0].Keys;
      RecipeOverwrites(r, a, recipes[0], Names(ds));
      DefaultsOverwrite(RecipeReport.Defaulted(r, recipes[0]), RecipeReport.Defaulted(a, recipes[0]), ds);
    }
  }

  /** Each name is declared as an object. */
  predicate Declared(params: Values, names: set<string>) {
    forall n <- names :: n in params && params[n].Obj?
  }

  lemma AgreeDeclared(a: Values, b: Values, except: set<string>, names: set<string>)
    requires DeclsAgree(a, b, except)
    ensures Declared(a, names) <==> Declared(b, names)
  {}

  lemma {:induction false} DefaultedIsWritten(g: Graph, ds: seq<Default>)
    ensures Each(Defaulted, g, ds).Ok? <==> Declared(g.params, Names(ds))
    ensures Each(Defaulted, g, ds).Ok? ==> Each(Defaulted, g, ds).value == g.(params := WithDefaults(g.params, ds))
    decreases |ds|
  {
    if ds != [] {
      assert ds == [ds[0]] + ds[1..];
      assert Names(ds) == Names(ds[1..]) + {ds[0].name};
      assert ds[0].name in Names(ds);
      if ds[0].name in g.params && g.params[ds[0].name].Obj? {
        var params := WithDefault(g.params, ds[0]);
        DefaultTouchesName(g.params, ds[0]);
        AgreeDeclared(params, g.params, {ds[0].name}, Names(ds[1..]));
        DefaultedIsWritten(g.(params := params), ds[1..]);
      }
    }
  }

  lemma AgreeBinds(a: Values, b: Values, except: set<string>, n: string, target: string)
    requires DeclsAgree(a, b, except) && n in a
    ensures n in b && (Binds(a[n], target) <==> Binds(b[n], target))
  {
    if n in except { RecipeReport.SameField(a[n], b[n], "binds"); }
  }

  lemma SameBindings(a: Values, b: Values, except: set<string>)
    requires DeclsAgree(a, b, except)
    ensures forall node, param :: Bound(a, node, param) <==> Bound(b, node, param)
  {
    forall node, param
      ensures Bound(a, node, param) <==> Bound(b, node, param)
    {
      var target := node + "." + param;
      if Bound(a, node, param) {
        var n :| n in a && Binds(a[n], target);
        AgreeBinds(a, b, except, n, target);
      }
      if Bound(b, node, param) {
        var n :| n in b && Binds(b[n], target);
        AgreeBinds(a, b, except, n, target);
      }
    }
  }

  /** Whether a recipe fits does not depend on the defaults. */
  lemma SameFits(a: Values, b: Values, except: set<string>, values: Values)
    requires DeclsAgree(a, b, except) && RecipeReport.Fits(a, values)
    ensures RecipeReport.Fits(b, values)
  {
    forall n <- values
      ensures n in b && b[n] != Null && RecipeFixes.Legal(b[n], values[n])
    {
      assert n in a && a[n] != Null;
      if n in except { RecipeReport.SameLegal(a[n], b[n], values[n]); }
    }
  }

  // ---------------------------------------------------------------- the fixed point

  /** No port is both moved from and moved to, and nothing is connected from a port that is moved from. */
  ghost predicate Settles(c: Command) {
    && c.adds == []
    && RewireTargets(c.rewires) !! Sources(c.rewires)
    && Sources(c.connects) !! Sources(c.rewires)
  }

  lemma ParamsKeepWellFormed(g: Graph, params: Values)
    ensures WellFormed(g.(params := params)) <==> WellFormed(g)
  {}

  lemma {:induction false} SetsKeepWellFormed(g: Graph, ss: seq<Setting>, r: Graph)
    requires Each(SetTo, g, ss) == Ok(r)
    ensures WellFormed(r) <==> WellFormed(g)
    decreases |ss|
  {
    if ss != [] {
      SetKeepsWellFormed(g, ss[0]);
      SetsKeepWellFormed(SetTo(g, ss[0]).value, ss[1..], r);
    }
  }

  /** What the result of the structural actions still has to offer them. */
  ghost predicate AtRest(h: Graph, c: Command) {
    && (forall pattern <- c.removes, id <- NodeIds(h.nodes) :: !Hits(pattern, id))
    && NoneFrom(h.edges, Sources(c.rewires)) && EndsExist(h.nodes, c.rewires)
    && EndsExist(h.nodes, c.connects) && (forall p <- c.connects :: HasEdge(h.edges, p))
  }

  lemma ReshapedIsAtRest(g: Graph, c: Command, h: Graph)
    requires Settles(c) && Reshaped(g, c) == Ok(h)
    ensures AtRest(h, c)
  {
    var a := Stage(Removed, Ok(g), c.removes);
    if c.removes != [] { RemovesAreGone(g, c.removes, a.value); }
    var b := Stage(Rewired, a, c.rewires);
    if c.rewires != [] { RewiresEmptySources(a.value, {}, c.rewires, b.value); }
    assert NoneFrom(b.value.edges, Sources(c.rewires));
    if c.connects != [] { ConnectsAreThere(b.value, c.connects, h); }
  }

  lemma AtRestStays(h: Graph, c: Command)
    requires c.adds == [] && AtRest(h, c) && WellFormed(h)
    ensures Reshaped(h, c) == Ok(h)
  {
    NothingToRemove(h, c.removes);
    NothingToRewire(h, c.rewires);
    NothingToConnect(h, c.connects);
  }

  /** The three value-writing stages, one by one. */
  lemma TuningStages(h: Graph, c: Command, r: Graph)
    requires Tuned(Ok(h), c) == Ok(r)
    ensures Stage(SetTo, Ok(h), c.sets).Ok?
    ensures var s := Stage(SetTo, Ok(h), c.sets).value;
            && Each(SetTo, h, c.sets) == Ok(s)
            && |c.recipes| <= 1 && (c.recipes != [] ==> RecipeReport.Fits(s.params, c.recipes[0]))
            && Declared(s.params, Names(c.params))
            && r == s.(params := Rewritten(s.params, c.recipes, c.params))
            && (Tunes(c) ==> WellFormed(r)) && (WellFormed(r) <==> WellFormed(h))
  {
    var s := Stage(SetTo, Ok(h), c.sets).value;
    assert Each(SetTo, h, c.sets) == Ok(s);
    SetsKeepWellFormed(h, c.sets, s);
    var u := RecipeStage(Ok(s), c.recipes).value;
    var params := if c.recipes == [] then s.params else RecipeReport.Defaulted(s.params, c.recipes[0]);
    assert u == s.(params := params);
    hide SetTo, WellFormed, RecipeReport.Fits, RecipeReport.Defaulted;
    DefaultedIsWritten(u, c.params);
    assert Each(Defaulted, u, c.params) == Ok(r);
    if c.recipes != [] {
      RecipeTouchesNames(s.params, c.recipes[0]);
      AgreeDeclared(params, s.params, c.recipes[0].Keys, Names(c.params));
    }
    ParamsKeepWellFormed(s, r.params);
  }

  /** What writes all values again gets the same graph. */
  lemma TuningFrom(r: Graph, c: Command)
    requires WellFormed(r) && Each(SetTo, r, c.sets) == Ok(r) && |c.recipes| <= 1
    requires c.recipes != [] ==> RecipeReport.Fits(r.params, c.recipes[0])
    requires Declared(r.params, Names(c.params)) && Rewritten(r.params, c.recipes, c.params) == r.params
    ensures Tuned(Ok(r), c) == Ok(r)
  {
    hide SetTo, WellFormed, RecipeReport.Fits, RecipeReport.Defaulted;
    assert Stage(SetTo, Ok(r), c.sets) == Ok(r);
    var params := if c.recipes == [] then r.params else RecipeReport.Defaulted(r.params, c.recipes[0]);
    var u := r.(params := params);
    ParamsKeepWellFormed(r, params);
    assert RecipeStage(Ok(r), c.recipes) == Ok(u);
    if c.recipes != [] {
      RecipeTouchesNames(r.params, c.recipes[0]);
      AgreeDeclared(params, r.params, c.recipes[0].Keys, Names(c.params));
    }
    DefaultedIsWritten(u, c.params);
    assert r.(params := r.params) == r;
  }

  lemma TuningSettles(h: Graph, c: Command, r: Graph)
    requires WellFormed(h) && Tuned(Ok(h), c) == Ok(r)
    ensures WellFormed(r) && Tuned(Ok(r), c) == Ok(r)
    ensures r.edges == h.edges && NodeIds(r.nodes) == NodeIds(h.nodes)
  {
    TuningStages(h, c, r);
    hide Tuned, Stage, SetTo, WellFormed, RecipeReport.Fits, DeclsAgree, Rewritten;
    var s := Stage(SetTo, Ok(h), c.sets).value;
    WellFormedNodes(h);
    SetsTouchKeys(h, c.sets, s);
    var except := RecipeNames(c.recipes) + Names(c.params);
    RewritingTouchesNames(s.params, c.recipes, c.params);
    SameBindings(r.params, s.params, except);
    SetsSettle(h, c.sets, s, r.params);
    DefaultsSettle(s.params, c.recipes, c.params);
    AgreeDeclared(r.params, s.params, except, Names(c.params));
    if c.recipes != [] {
      AgreeSymmetric(r.params, s.params, except);
      SameFits(s.params, r.params, except, c.recipes[0]);
    }
    TuningFrom(r, c);
  }

  lemma WellFormedNodes(g: Graph)
    requires WellFormed(g)
    ensures NodesOk(g.nodes)
  {}

  lemma AgreeSymmetric(a: Values, b: Values, except: set<string>)
    requires DeclsAgree(a, b, except)
    ensures DeclsAgree(b, a, except)
  {}

  /** A settling command, run on its own result, gives the same graph again. */
  lemma PatchReachesFixedPoint(g: Graph, c: Command, r: Graph)
    requires Settles(c) && Patched(g, c) == Ok(r)
    ensures Patched(r, c) == Ok(r)
  {
    var h := Reshaped(g, c).value;
    ReshapedIsAtRest(g, c, h);
    TuningStages(h, c, r);
    assert WellFormed(h);
    hide Reshaped, Tuned, WellFormed;
    TuningSettles(h, c, r);
    assert AtRest(r, c);
    AtRestStays(r, c);
  }
}
