/**
 What an acyclic, well-formed graph computes. Operators are uninterpreted deterministic functions of the
 node (without its id), the values on its connected inputs, the path into a subgraph ("" at the top
 level) and the port asked for. A rank that grows along every edge witnesses acyclicity; the values do
 not depend on which rank is used.
 */
module Meaning {
  import opened Outcomes
  import opened Graphs

  type Operators<!V> = (Node, map<string, V>, string, string) -> V

  /** Every edge climbs. */
  ghost predicate Ranked(g: Graph, rank: map<string, nat>) {
    && NodeIds(g.nodes) <= rank.Keys
    && (forall e <- g.edges :: e.from.node in rank && e.to.node in rank && rank[e.from.node] < rank[e.to.node])
  }

  ghost predicate Acyclic(g: Graph) {
    exists rank :: Ranked(g, rank)
  }

  ghost function NodeOf(g: Graph, id: string): (n: Node)
    requires id in NodeIds(g.nodes)
    ensures n in g.nodes && n.id == id
  {
    var n :| n in g.nodes && n.id == id;
    n
  }

  ghost function InputPorts(g: Graph, id: string): set<string> {
    set e | e in g.edges && e.to.node == id :: e.to.port
  }

  ghost function Source(g: Graph, id: string, port: string): (from: PortRef)
    requires port in InputPorts(g, id)
    ensures exists e :: e in g.edges && e.to == PortRef(id, port) && e.from == from
  {
    var e :| e in g.edges && e.to == PortRef(id, port);
    e.from
  }

  ghost function Anonymous(n: Node): Node {
    n.(id := "")
  }

  /** The value on an output port. */
  ghost function ValueOf<V>(g: Graph, rank: map<string, nat>, ops: Operators<V>, r: PortRef): V
    requires WellFormed(g) && Ranked(g, rank) && r.node in NodeIds(g.nodes)
    decreases rank[r.node], 2
  {
    ops(Anonymous(NodeOf(g, r.node)), Inputs(g, rank, ops, r.node), "", r.port)
  }

  ghost function Inputs<V>(g: Graph, rank: map<string, nat>, ops: Operators<V>, id: string): map<string, V>
    requires WellFormed(g) && Ranked(g, rank) && id in NodeIds(g.nodes)
    decreases rank[id], 1
  {
    map port | port in InputPorts(g, id) :: InputValue(g, rank, ops, id, port)
  }

  ghost function InputValue<V>(g: Graph, rank: map<string, nat>, ops: Operators<V>, id: string, port: string): V
    requires WellFormed(g) && Ranked(g, rank) && id in NodeIds(g.nodes) && port in InputPorts(g, id)
    decreases rank[id], 0
  {
    var from := Source(g, id, port);
    ValueOf(g, rank, ops, from)
  }

  /** The value of a named output; one inside a subgraph is what its top-level node yields there. */
  ghost function OutputValue<V>(g: Graph, rank: map<string, nat>, ops: Operators<V>, name: string): V
    requires WellFormed(g) && Ranked(g, rank) && name in g.outputs
  {
    var out := g.outputs[name];
    var head := Head(out.node);
    assert OutputOk(name, out, NodeIds(g.nodes));
    ops(Anonymous(NodeOf(g, head)), Inputs(g, rank, ops, head), out.node[|head|..], out.port)
  }

  // ---------------------------------------------------------------- uniqueness

  lemma NodeIsUnique(g: Graph, n: Node)
    requires NodesOk(g.nodes) && n in g.nodes
    ensures NodeOf(g, n.id) == n
  {}

  lemma SourceIsUnique(g: Graph, e: Edge)
    requires SingleInputs(g.edges) && e in g.edges
    ensures e.to.port in InputPorts(g, e.to.node) && Source(g, e.to.node, e.to.port) == e.from
  {
    assert e.to.port in InputPorts(g, e.to.node);
    assert e.to == PortRef(e.to.node, e.to.port);
  }

  lemma EdgeEnds(g: Graph, e: Edge)
    requires WellFormed(g) && e in g.edges
    ensures e.from.node in NodeIds(g.nodes) && e.to.node in NodeIds(g.nodes) && e.from.node != e.to.node
  {}

  /**
   Two graphs whose ports below some rank carry the same values give the same inputs to a node, if the
   sources of that node's inputs carry the same values in both.
   */
  lemma SameInputs<V>(g: Graph, rank: map<string, nat>, g': Graph, rank': map<string, nat>, ops: Operators<V>,
                      id: string)
    requires WellFormed(g) && Ranked(g, rank) && id in NodeIds(g.nodes)
    requires WellFormed(g') && Ranked(g', rank') && id in NodeIds(g'.nodes)
    requires InputPorts(g, id) == InputPorts(g', id)
    requires forall port <- InputPorts(g, id) ::
               InputValue(g, rank, ops, id, port) == InputValue(g', rank', ops, id, port)
    ensures Inputs(g, rank, ops, id) == Inputs(g', rank', ops, id)
  {}

  /** The value on a port does not depend on the rank used to compute it. */
  lemma {:induction false} RankIrrelevant<V>(g: Graph, rank: map<string, nat>, rank': map<string, nat>,
                                             ops: Operators<V>, r: PortRef)
    requires WellFormed(g) && Ranked(g, rank) && Ranked(g, rank') && r.node in NodeIds(g.nodes)
    ensures ValueOf(g, rank, ops, r) == ValueOf(g, rank', ops, r)
    decreases rank[r.node]
  {
    forall port <- InputPorts(g, r.node)
      ensures InputValue(g, rank, ops, r.node, port) == InputValue(g, rank', ops, r.node, port)
    {
      var from := Source(g, r.node, port);
      var e :| e in g.edges && e.to == PortRef(r.node, port) && e.from == from;
      EdgeEnds(g, e);
      RankIrrelevant(g, rank, rank', ops, from);
    }
    SameInputs(g, rank, g, rank', ops, r.node);
  }
}
