/**
 Inserting a perturbation node behind an output port (bridge/src/perturb.rs). Everything that read the
 port then reads the new node, which reads the port; with a zero translation the graph computes what it
 computed before.
 */
module Perturb {
  import opened Outcomes
  import opened Graphs
  import opened Meaning
  import opened TranslateRegion

  function Numbers(xs: seq<real>): Json {
    Arr(seq(|xs|, i requires 0 <= i < |xs| => Num(xs[i])))
  }

  /** The parameters of the inserted node; its translation is zero. */
  function RegionParams(region: Region): map<string, Json> {
    (match region
     case Halfspace(point, normal) =>
       map["regionKind" := Str("halfspace"), "point" := Numbers(point), "normal" := Numbers(normal)]
     case Box(min, max) =>
       map["regionKind" := Str("box"), "boxMin" := Numbers(min), "boxMax" := Numbers(max)])
    ["translation" := Numbers([0.0, 0.0, 0.0])]
  }

  const BASE_ID := "__perturb"
  const PORT := "cloud"

  function NewNode(id: string, region: Region): Node {
    Node(id, "edit.translate_region", None, false, RegionParams(region))
  }

  function Redirect(r: PortRef, at: PortRef, to: PortRef): PortRef {
    if r == at then to else r
  }

  function RedirectedEdges(edges: seq<Edge>, at: PortRef, to: PortRef): (r: seq<Edge>)
    ensures |r| == |edges|
  {
    seq(|edges|, i requires 0 <= i < |edges| => edges[i].(from := Redirect(edges[i].from, at, to)))
  }

  function RedirectedOutputs(outputs: map<string, PortRef>, at: PortRef, to: PortRef): map<string, PortRef> {
    map name | name in outputs :: Redirect(outputs[name], at, to)
  }

  ghost function NewId(g: Graph): string {
    UniqueId(NodeIds(g.nodes), BASE_ID)
  }

  ghost function Inserted(g: Graph, at: PortRef, region: Region): Graph {
    var id := NewId(g);
    var to := PortRef(id, PORT);
    var edges := RedirectedEdges(g.edges, at, to);
    g.(nodes := g.nodes + [NewNode(id, region)],
       edges := edges + [Edge(UniqueId(EdgeIds(edges), "__perturb_in_" + id), at, to)],
       outputs := RedirectedOutputs(g.outputs, at, to))
  }

  datatype Error = NoSuchNode(id: string)

  /** A node of the region operator, as it comes from the editor: for this region, and with no shift yet. */
  ghost predicate IsRegionNode(n: Node, region: Region) {
    && n.op == "edit.translate_region" && n.opVersion.None? && !n.bypass
    && (Shaped(region) ==>
          RegionOf(n.params) == Some(region) && TranslationOf(n.params) == Some([0.0, 0.0, 0.0]))
    && n.params.Keys == (if region.Halfspace? then {"regionKind", "point", "normal", "translation"}
                         else {"regionKind", "boxMin", "boxMax", "translation"})
  }

  /** Node `id` is new, for this region, and takes in what left the port; what read the port reads the new node. */
  ghost predicate IsInserted(g: Graph, h: Graph, id: string, at: PortRef, region: Region) {
    && h == g.(nodes := h.nodes, edges := h.edges, outputs := h.outputs)
    && "__perturb" <= id && id !in NodeIds(g.nodes)
    && |h.nodes| == |g.nodes| + 1 && h.nodes[..|g.nodes|] == g.nodes
    && h.nodes[|g.nodes|].id == id && IsRegionNode(h.nodes[|g.nodes|], region)
    && |h.edges| == |g.edges| + 1
    && h.edges[|g.edges|].from == at && h.edges[|g.edges|].to == PortRef(id, "cloud")
    && (forall k | 0 <= k < |g.edges| ::
          h.edges[k] == if g.edges[k].from == at then g.edges[k].(from := PortRef(id, "cloud")) else g.edges[k])
    && h.outputs.Keys == g.outputs.Keys
    && forall name <- g.outputs ::
         h.outputs[name] == if g.outputs[name] == at then PortRef(id, "cloud") else g.outputs[name]
  }

  lemma InsertedIs(g: Graph, at: PortRef, region: Region)
    ensures IsInserted(g, Inserted(g, at, region), NewId(g), at, region)
  {
    var h := Inserted(g, at, region);
    if Shaped(region) { InsertedParams(region); }
    hide RegionOf, TranslationOf;
    assert IsRegionNode(NewNode(NewId(g), region), region);
    hide IsRegionNode, NewNode, UniqueId;
    assert h.nodes[..|g.nodes|] == g.nodes;
  }

  /** The edit, in place: one more node, behind the port, with an id not in use. */
  method InsertAfter(doc: GraphDoc, at: PortRef, region: Region) returns (r: Result<string, Error>)
    modifies doc
    ensures r.Ok? <==> at.node in NodeIds(old(doc.nodes))
    ensures r.Ok? ==>
              && r.value == NewId(old(doc.Abstract()))
              && doc.Abstract() == Inserted(old(doc.Abstract()), at, region)
              && IsInserted(old(doc.Abstract()), doc.Abstract(), r.value, at, region)
    ensures r.Err? ==> doc.Abstract() == old(doc.Abstract())
  {
    var known := doc.IsNodeTaken(at.node);
    if !known {
      return Err(NoSuchNode(at.node));
    }
    var id := doc.UniqueNodeId(BASE_ID);
    var to := PortRef(id, PORT);
    ghost var before := doc.Abstract();
    for i := 0 to |doc.edges|
      invariant doc.Abstract() == before.(edges := doc.edges) && |doc.edges| == |before.edges|
      invariant forall k | 0 <= k < i :: doc.edges[k] == RedirectedEdges(before.edges, at, to)[k]
      invariant forall k | i <= k < |doc.edges| :: doc.edges[k] == before.edges[k]
    {
      if doc.edges[i].from == at {
        doc.edges := doc.edges[i := doc.edges[i].(from := to)];
      }
    }
    assert doc.edges == RedirectedEdges(before.edges, at, to);
    doc.outputs := RedirectedOutputs(doc.outputs, at, to);
    var edgeId := doc.UniqueEdgeId("__perturb_in_" + id);
    doc.edges := doc.edges + [Edge(edgeId, at, to)];
    doc.nodes := doc.nodes + [NewNode(id, region)];
    InsertedIs(before, at, region);
    return Ok(id);
  }

  // ---------------------------------------------------------------- validity and acyclicity survive

  lemma RedirectedFacts(edges: seq<Edge>, at: PortRef, to: PortRef)
    ensures var r := RedirectedEdges(edges, at, to);
            && EdgeIds(r) == EdgeIds(edges) && Targets(r) == Targets(edges)
            && (EdgeIdsDistinct(edges) ==> EdgeIdsDistinct(r)) && (SingleInputs(edges) ==> SingleInputs(r))
  {
    var r := RedirectedEdges(edges, at, to);
    assert forall k | 0 <= k < |edges| :: r[k].id == edges[k].id && r[k].to == edges[k].to;
    forall x
      ensures x in EdgeIds(r) <==> x in EdgeIds(edges)
    {
      if x in EdgeIds(edges) { var k :| 0 <= k < |edges| && edges[k].id == x; assert r[k].id == x; }
    }
    forall x
      ensures x in Targets(r) <==> x in Targets(edges)
    {
      if x in Targets(edges) { var k :| 0 <= k < |edges| && edges[k].to == x; assert r[k].to == x; }
    }
  }

  /** The edited graph is well formed, and the only new node id is one that was not in use. */
  lemma InsertKeepsWellFormed(g: Graph, at: PortRef, region: Region)
    requires WellFormed(g) && at.node in NodeIds(g.nodes)
    ensures WellFormed(Inserted(g, at, region))
    ensures NewId(g) !in NodeIds(g.nodes) && NodeIds(Inserted(g, at, region).nodes) == NodeIds(g.nodes) + {NewId(g)}
  {
    var id := NewId(g);
    var to := PortRef(id, PORT);
    var g' := Inserted(g, at, region);
    var ids := NodeIds(g'.nodes);
    NodeAdded(g.nodes, NewNode(id, region));
    RedirectedFacts(g.edges, at, to);
    var edges := RedirectedEdges(g.edges, at, to);
    assert EdgeEndsOk(edges, ids) && NoSelfLoops(edges);
    assert to !in Targets(g.edges);
    EdgeAdded(edges, g'.edges[|edges|], ids);
    NewIdIsPlain(g);
    hide NewId, Head, UniqueId;
  }

  lemma NewIdIsPlain(g: Graph)
    ensures '/' !in NewId(g) && Head(NewId(g)) == NewId(g)
  {
    hide Head;
  }

  /** Old ranks doubled leave room for the new node right behind the port. */
  ghost function NewRank(g: Graph, at: PortRef, rank: map<string, nat>): map<string, nat>
    requires at.node in rank
  {
    (map id | id in rank :: 2 * rank[id])[NewId(g) := 2 * rank[at.node] + 1]
  }

  lemma NewRankClimbs(g: Graph, at: PortRef, region: Region, rank: map<string, nat>)
    requires WellFormed(g) && at.node in NodeIds(g.nodes) && Ranked(g, rank)
    ensures Ranked(Inserted(g, at, region), NewRank(g, at, rank))
  {
    var id := NewId(g);
    var to := PortRef(id, PORT);
    var g', rank' := Inserted(g, at, region), NewRank(g, at, rank);
    NodeAdded(g.nodes, NewNode(id, region));
    var edges := RedirectedEdges(g.edges, at, to);
    forall e | e in g'.edges
      ensures e.from.node in rank' && e.to.node in rank' && rank'[e.from.node] < rank'[e.to.node]
    {
      if e in edges {
        var k :| 0 <= k < |edges| && edges[k] == e;
        assert g.edges[k] in g.edges;
        EdgeEnds(g, g.edges[k]);
      }
    }
  }

  // ---------------------------------------------------------------- meaning survives

  /** What the operator reads from the inserted node: the region it was inserted with, and no shift. */
  lemma InsertedParams(region: Region)
    requires Shaped(region)
    ensures RegionOf(RegionParams(region)) == Some(region)
    ensures TranslationOf(RegionParams(region)) == Some([0.0, 0.0, 0.0])
  {
    match region
    case Halfspace(point, normal) =>
      assert point == [point[0], point[1], point[2]] && normal == [normal[0], normal[1], normal[2]];
    case Box(min, max) =>
      assert min == [min[0], min[1], min[2]] && max == [max[0], max[1], max[2]];
  }

  /** A node whose operator shifts a region it can tell the points of by nothing. */
  ghost predicate ShiftsNothing(n: Node) {
    && n.op == "edit.translate_region" && !n.bypass
    && TranslationOf(n.params) == Some([0.0, 0.0, 0.0])
    && RegionOf(n.params).Some? && Proper(RegionOf(n.params).value)
  }

  /** The operator hands the cloud through wherever it shifts nothing. */
  ghost predicate HandsThrough<V(!new)>(ops: Operators<V>) {
    forall n: Node, x: V | ShiftsNothing(n) :: ops(n, map["cloud" := x], "", "cloud") == x
  }

  /** What travels along an edge: a cloud, or the failure of what should have made it. */
  datatype Value = Made(cloud: PointCloud) | Failed

  /** For nodes of the region operator `ops` gives what `Compute` gives. */
  ghost predicate Computes(ops: Operators<Value>) {
    forall n: Node, x: Value | n.op == "edit.translate_region" && !n.bypass ::
      IsComputed(n, x, ops(n, map["cloud" := x], "", "cloud"))
  }

  ghost predicate IsComputed(n: Node, x: Value, y: Value) {
    var region, t := RegionOf(n.params), TranslationOf(n.params);
    if x.Failed? || region.None? || t.None? || !Proper(region.value) then y == Failed
    else
      && y.Made? && y.cloud == x.cloud.(xyz := y.cloud.xyz)
      && (|x.cloud.xyz| % 3 == 0 ==> Moved(x.cloud.xyz, y.cloud.xyz, region.value, t.value))
      && (|x.cloud.xyz| % 3 != 0 ==> y == x)
  }

  /** The operator does hand the cloud through. */
  lemma ComputeHandsThrough(ops: Operators<Value>)
    requires Computes(ops)
    ensures HandsThrough(ops)
  {
    forall n: Node, x: Value | ShiftsNothing(n)
      ensures ops(n, map["cloud" := x], "", "cloud") == x
    {
      var y := ops(n, map["cloud" := x], "", "cloud");
      assert IsComputed(n, x, y);
      if x.Made? && |x.cloud.xyz| % 3 == 0 {
        var region := RegionOf(n.params).value;
        ZeroMovesNothing(x.cloud.xyz, region);
        MovedUnique(x.cloud.xyz, x.cloud.xyz, y.cloud.xyz, region, [0.0, 0.0, 0.0]);
      }
    }
  }

  lemma NewNodePassesOn<V(!new)>(ops: Operators<V>, region: Region, x: V)
    requires Proper(region) && HandsThrough(ops)
    ensures ops(NewNode("", region), map[PORT := x], "", PORT) == x
  {
    InsertedParams(region);
    hide Proper, RegionOf, RegionParams;
    assert ShiftsNothing(NewNode("", region));
  }

  ghost function EntryEdge(g: Graph, at: PortRef): Edge {
    var id := NewId(g);
    var to := PortRef(id, PORT);
    Edge(UniqueId(EdgeIds(RedirectedEdges(g.edges, at, to)), "__perturb_in_" + id), at, to)
  }

  ghost function Carried(g: Graph, at: PortRef, e: Edge): Edge {
    e.(from := Redirect(e.from, at, PortRef(NewId(g), PORT)))
  }

  /** The edges of the edited graph: the old ones, redirected, and the one into the new node. */
  lemma InsertedEdges(g: Graph, at: PortRef, region: Region)
    ensures var edges := Inserted(g, at, region).edges;
            && EntryEdge(g, at) in edges
            && (forall e <- g.edges :: Carried(g, at, e) in edges)
            && (forall e <- edges :: e == EntryEdge(g, at) || exists o :: o in g.edges && e == Carried(g, at, o))
  {
    var edges := Inserted(g, at, region).edges;
    assert edges[|g.edges|] == EntryEdge(g, at);
    forall k | 0 <= k < |g.edges|
      ensures edges[k] == Carried(g, at, g.edges[k])
    {
    }
    forall e <- edges
      ensures e == EntryEdge(g, at) || exists o :: o in g.edges && e == Carried(g, at, o)
    {
      var k :| 0 <= k < |edges| && edges[k] == e;
      if k < |g.edges| { assert g.edges[k] in g.edges; }
    }
  }

  /** A rank of the edited graph is one of the graph it was edited from. */
  lemma OldEdgesClimb(g: Graph, at: PortRef, region: Region, rank: map<string, nat>)
    requires WellFormed(g) && at.node in NodeIds(g.nodes) && Ranked(Inserted(g, at, region), rank)
    ensures Ranked(g, rank)
  {
    InsertKeepsWellFormed(g, at, region);
    InsertedEdges(g, at, region);
    var g' := Inserted(g, at, region);
    hide Inserted, NewId, UniqueId, WellFormed;
    assert EntryEdge(g, at) in g'.edges;
    forall e <- g.edges
      ensures e.from.node in rank && e.to.node in rank && rank[e.from.node] < rank[e.to.node]
    {
      assert Carried(g, at, e) in g'.edges;
    }
  }

  /** The edited graph is acyclic exactly when the graph it was edited from is. */
  lemma InsertKeepsAcyclic(g: Graph, at: PortRef, region: Region)
    requires WellFormed(g) && at.node in NodeIds(g.nodes)
    ensures Acyclic(Inserted(g, at, region)) <==> Acyclic(g)
  {
    if Acyclic(g) {
      var rank :| Ranked(g, rank);
      NewRankClimbs(g, at, region, rank);
    }
    if Acyclic(Inserted(g, at, region)) {
      var rank :| Ranked(Inserted(g, at, region), rank);
      OldEdgesClimb(g, at, region, rank);
    }
  }

  /** The old nodes are still there and no old node reads the new edge. */
  lemma InsertedNodes(g: Graph, at: PortRef, region: Region, id: string)
    requires WellFormed(g) && at.node in NodeIds(g.nodes) && id in NodeIds(g.nodes)
    ensures WellFormed(Inserted(g, at, region)) && id in NodeIds(Inserted(g, at, region).nodes) && id != NewId(g)
    ensures NodeOf(Inserted(g, at, region), id) == NodeOf(g, id)
  {
    InsertKeepsWellFormed(g, at, region);
    var n := NodeOf(g, id);
    assert n in Inserted(g, at, region).nodes;
    NodeIsUnique(Inserted(g, at, region), n);
  }

  lemma InsertedPorts(g: Graph, at: PortRef, region: Region, id: string)
    requires id != NewId(g)
    ensures InputPorts(Inserted(g, at, region), id) == InputPorts(g, id)
  {
    var g' := Inserted(g, at, region);
    InsertedEdges(g, at, region);
    forall port | port in InputPorts(g, id)
      ensures port in InputPorts(g', id)
    {
      var e :| e in g.edges && e.to.node == id && e.to.port == port;
      assert Carried(g, at, e) in g'.edges;
    }
    forall port | port in InputPorts(g', id)
      ensures port in InputPorts(g, id)
    {
      var e :| e in g'.edges && e.to.node == id && e.to.port == port;
      var o :| o in g.edges && e == Carried(g, at, o);
      assert o.to == e.to;
    }
  }

  lemma InsertedSource(g: Graph, at: PortRef, region: Region, id: string, port: string)
    requires SingleInputs(g.edges) && SingleInputs(Inserted(g, at, region).edges) && port in InputPorts(g, id)
    ensures port in InputPorts(Inserted(g, at, region), id)
    ensures Source(Inserted(g, at, region), id, port) == Redirect(Source(g, id, port), at, PortRef(NewId(g), PORT))
  {
    InsertedEdges(g, at, region);
    var e :| e in g.edges && e.to.node == id && e.to.port == port;
    SourceIsUnique(g, e);
    SourceIsUnique(Inserted(g, at, region), Carried(g, at, e));
  }

  /** The new node has one input, the port it stands behind. */
  lemma NewNodeInputs(g: Graph, at: PortRef, region: Region)
    requires WellFormed(g) && at.node in NodeIds(g.nodes)
    ensures var g' := Inserted(g, at, region);
            && WellFormed(g') && InputPorts(g', NewId(g)) == {PORT} && Source(g', NewId(g), PORT) == at
  {
    var g' := Inserted(g, at, region);
    InsertKeepsWellFormed(g, at, region);
    InsertedEdges(g, at, region);
    SourceIsUnique(g', EntryEdge(g, at));
    forall port | port in InputPorts(g', NewId(g))
      ensures port == PORT
    {
      var e :| e in g'.edges && e.to.node == NewId(g) && e.to.port == port;
      assert forall o <- g.edges :: o.to.node in NodeIds(g.nodes);
    }
  }

  lemma NewNodeIs(g: Graph, at: PortRef, region: Region)
    requires WellFormed(g) && at.node in NodeIds(g.nodes)
    ensures WellFormed(Inserted(g, at, region)) && NewId(g) in NodeIds(Inserted(g, at, region).nodes)
    ensures NodeOf(Inserted(g, at, region), NewId(g)) == NewNode(NewId(g), region)
  {
    var g' := Inserted(g, at, region);
    InsertKeepsWellFormed(g, at, region);
    assert g'.nodes[|g.nodes|] == NewNode(NewId(g), region);
    NodeIsUnique(g', NewNode(NewId(g), region));
  }

  /** The new node carries what the port it stands behind carries. */
  lemma NewNodePasses<V(!new)>(g: Graph, at: PortRef, region: Region, g': Graph, rank': map<string, nat>,
                                ops: Operators<V>)
    requires WellFormed(g) && at.node in NodeIds(g.nodes) && Proper(region) && HandsThrough(ops)
    requires g' == Inserted(g, at, region) && WellFormed(g') && Ranked(g', rank')
    ensures NewId(g) in NodeIds(g'.nodes) && at.node in NodeIds(g'.nodes)
    ensures ValueOf(g', rank', ops, PortRef(NewId(g), PORT)) == ValueOf(g', rank', ops, at)
  {
    InsertedNodes(g, at, region, at.node);
    NewNodeIs(g, at, region);
    NewNodeInputs(g, at, region);
    OneInput(g', rank', ops, NewId(g), PORT);
    NewNodePassesOn(ops, region, ValueOf(g', rank', ops, at));
  }

  lemma OneInput<V>(g: Graph, rank: map<string, nat>, ops: Operators<V>, id: string, port: string)
    requires WellFormed(g) && Ranked(g, rank) && id in NodeIds(g.nodes) && InputPorts(g, id) == {port}
    requires Source(g, id, port).node in NodeIds(g.nodes)
    ensures Inputs(g, rank, ops, id) == map[port := ValueOf(g, rank, ops, Source(g, id, port))]
  {}

  /** Every original port keeps its value. */
  lemma {:induction false} PortsKeepValues<V(!new)>(g: Graph, at: PortRef, region: Region, rank: map<string, nat>,
                                              rank': map<string, nat>, ops: Operators<V>, r: PortRef)
    requires WellFormed(g) && at.node in NodeIds(g.nodes) && Ranked(g, rank) && Proper(region) && HandsThrough(ops)
    requires WellFormed(Inserted(g, at, region)) && Ranked(Inserted(g, at, region), rank')
    requires r.node in NodeIds(g.nodes)
    ensures r.node in NodeIds(Inserted(g, at, region).nodes)
    ensures ValueOf(Inserted(g, at, region), rank', ops, r) == ValueOf(g, rank, ops, r)
    decreases rank[r.node], 1
  {
    InsertedNodes(g, at, region, r.node);
    NodesKeepInputs(g, at, region, rank, rank', ops, r.node);
  }

  /** Every original node gets the inputs it got before. */
  lemma {:induction false} NodesKeepInputs<V(!new)>(g: Graph, at: PortRef, region: Region, rank: map<string, nat>,
                                              rank': map<string, nat>, ops: Operators<V>, id: string)
    requires WellFormed(g) && at.node in NodeIds(g.nodes) && Ranked(g, rank) && Proper(region) && HandsThrough(ops)
    requires WellFormed(Inserted(g, at, region)) && Ranked(Inserted(g, at, region), rank')
    requires id in NodeIds(g.nodes)
    ensures id in NodeIds(Inserted(g, at, region).nodes)
    ensures Inputs(Inserted(g, at, region), rank', ops, id) == Inputs(g, rank, ops, id)
    decreases rank[id], 0
  {
    var g' := Inserted(g, at, region);
    InsertedNodes(g, at, region, id);
    InsertedPorts(g, at, region, id);
    forall port <- InputPorts(g, id)
      ensures InputValue(g, rank, ops, id, port) == InputValue(g', rank', ops, id, port)
    {
      var from := Source(g, id, port);
      var e :| e in g.edges && e.to == PortRef(id, port) && e.from == from;
      EdgeEnds(g, e);
      InsertedSource(g, at, region, id, port);
      PortsKeepValues(g, at, region, rank, rank', ops, from);
      if from == at { NewNodePasses(g, at, region, g', rank', ops); }
    }
    SameInputs(g, rank, g', rank', ops, id);
  }

  /**
   Inserting the identity behind a port changes neither the value of any original port nor that of any
   named output, whatever the operators compute; the graph stays well formed and acyclic.
   */
  lemma InsertPreservesMeaning<V(!new)>(g: Graph, at: PortRef, region: Region, rank: map<string, nat>,
                                         ops: Operators<V>)
    requires WellFormed(g) && at.node in NodeIds(g.nodes) && '/' !in at.node
    requires Ranked(g, rank) && Proper(region) && HandsThrough(ops)
    ensures var g', rank' := Inserted(g, at, region), NewRank(g, at, rank);
            && WellFormed(g') && Ranked(g', rank')
            && NodeIds(g'.nodes) == NodeIds(g.nodes) + {NewId(g)}
            && (forall r: PortRef | r.node in NodeIds(g.nodes) ::
               ValueOf(g', rank', ops, r) == ValueOf(g, rank, ops, r))
            && g'.outputs.Keys == g.outputs.Keys
            && (forall name <- g.outputs :: OutputValue(g', rank', ops, name) == OutputValue(g, rank, ops, name))
  {
    var g', rank' := Inserted(g, at, region), NewRank(g, at, rank);
    InsertKeepsWellFormed(g, at, region);
    NewRankClimbs(g, at, region, rank);
    forall r: PortRef | r.node in NodeIds(g.nodes)
      ensures ValueOf(g', rank', ops, r) == ValueOf(g, rank, ops, r)
    {
      PortsKeepValues(g, at, region, rank, rank', ops, r);
    }
    forall name <- g.outputs
      ensures OutputValue(g', rank', ops, name) == OutputValue(g, rank, ops, name)
    {
      if g.outputs[name] == at {
        MovedOutputKeepsValue(g, at, region, g', rank, rank', ops, name);
      } else {
        OtherOutputKeepsValue(g, at, region, g', rank, rank', ops, name);
      }
    }
  }

  lemma MovedOutputKeepsValue<V(!new)>(g: Graph, at: PortRef, region: Region, g': Graph, rank: map<string, nat>,
                            rank': map<string, nat>, ops: Operators<V>, name: string)
    requires WellFormed(g) && at.node in NodeIds(g.nodes) && Ranked(g, rank) && Proper(region) && HandsThrough(ops)
    requires g' == Inserted(g, at, region) && WellFormed(g') && Ranked(g', rank')
    requires '/' !in at.node && name in g.outputs && g.outputs[name] == at
    ensures OutputValue(g', rank', ops, name) == OutputValue(g, rank, ops, name)
  {
    hide *;
    MovedOutput(g, at, region, name);
    NewNodePasses(g, at, region, g', rank', ops);
    PortsKeepValues(g, at, region, rank, rank', ops, at);
    SamePlainOutputs(g, rank, g', rank', ops, name);
  }

  lemma MovedOutput(g: Graph, at: PortRef, region: Region, name: string)
    requires WellFormed(g) && at.node in NodeIds(g.nodes) && name in g.outputs && g.outputs[name] == at
    ensures var g' := Inserted(g, at, region);
            name in g'.outputs && g'.outputs[name] == PortRef(NewId(g), PORT) && '/' !in NewId(g)
  {
    NewIdIsPlain(g);
    hide WellFormed, NewId, RedirectedEdges;
  }

  lemma SamePlainOutputs<V>(g: Graph, rank: map<string, nat>, g': Graph, rank': map<string, nat>, ops: Operators<V>,
                            name: string)
    requires WellFormed(g) && Ranked(g, rank) && WellFormed(g') && Ranked(g', rank')
    requires name in g.outputs && name in g'.outputs && '/' !in g.outputs[name].node && '/' !in g'.outputs[name].node
    requires g.outputs[name].node in NodeIds(g.nodes) && g'.outputs[name].node in NodeIds(g'.nodes)
    requires ValueOf(g, rank, ops, g.outputs[name]) == ValueOf(g', rank', ops, g'.outputs[name])
    ensures OutputValue(g, rank, ops, name) == OutputValue(g', rank', ops, name)
  {
    PlainOutput(g, rank, ops, name);
    PlainOutput(g', rank', ops, name);
  }

  lemma OtherOutputKeepsValue<V(!new)>(g: Graph, at: PortRef, region: Region, g': Graph, rank: map<string, nat>,
                            rank': map<string, nat>, ops: Operators<V>, name: string)
    requires WellFormed(g) && at.node in NodeIds(g.nodes) && Ranked(g, rank) && Proper(region) && HandsThrough(ops)
    requires g' == Inserted(g, at, region) && WellFormed(g') && Ranked(g', rank')
    requires name in g.outputs && g.outputs[name] != at
    ensures OutputValue(g', rank', ops, name) == OutputValue(g, rank, ops, name)
  {
    var head := Head(g.outputs[name].node);
    assert OutputOk(name, g.outputs[name], NodeIds(g.nodes));
    assert g'.outputs[name] == g.outputs[name];
    InsertedNodes(g, at, region, head);
    NodesKeepInputs(g, at, region, rank, rank', ops, head);
  }

  /** An output that is not inside a subgraph is the port itself. */
  lemma PlainOutput<V>(g: Graph, rank: map<string, nat>, ops: Operators<V>, name: string)
    requires WellFormed(g) && Ranked(g, rank) && name in g.outputs && '/' !in g.outputs[name].node
    ensures g.outputs[name].node in NodeIds(g.nodes)
    ensures OutputValue(g, rank, ops, name) == ValueOf(g, rank, ops, g.outputs[name])
  {
    var out := g.outputs[name];
    assert OutputOk(name, out, NodeIds(g.nodes));
    assert out.node[|Head(out.node)|..] == "";
  }
}
