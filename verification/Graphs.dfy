/**
 Graph documents and their structural check (bridge/src/graph.rs), the two generators of unused ids,
 and the meaning of an acyclic graph over uninterpreted deterministic operators.
 */
module Graphs {
  import opened Outcomes
  import Decimals

  datatype Json =
    | Null | Bool(b: bool) | Num(n: real) | Str(s: string)
    | Arr(items: seq<Json>) | Obj(fields: map<string, Json>)

  datatype PortRef = PortRef(node: string, port: string)

  datatype Edge = Edge(id: string, from: PortRef, to: PortRef)

  datatype Node = Node(id: string, op: string, opVersion: Option<string>, bypass: bool, params: map<string, Json>)

  /** The top-level graph parameters: by name a declaration, kept as the JSON it was read from. */
  type Values = map<string, Json>

  datatype Graph = Graph(schemaVersion: nat, nodes: seq<Node>, edges: seq<Edge>, outputs: map<string, PortRef>,
                         params: Values)

  const SCHEMA_VERSION := 1

  function Field(v: Json, key: string): Option<Json> {
    if v.Obj? && key in v.fields then Some(v.fields[key]) else None
  }

  function NodeIds(nodes: seq<Node>): set<string> {
    set n <- nodes :: n.id
  }

  function EdgeIds(edges: seq<Edge>): set<string> {
    set e <- edges :: e.id
  }

  /** The part of a path id before its first slash. */
  function Head(path: string): (h: string)
    ensures '/' !in h && h <= path
    ensures '/' !in path ==> h == path
  {
    if path == "" || path[0] == '/' then ""
    else
      assert path == [path[0]] + path[1..];
      [path[0]] + Head(path[1..])
  }

  // ---------------------------------------------------------------- structural validity

  ghost predicate NodesOk(nodes: seq<Node>) {
    && (forall i | 0 <= i < |nodes| :: nodes[i].id != "" && nodes[i].op != "")
    && (forall i, j | 0 <= i < j < |nodes| :: nodes[i].id != nodes[j].id)
  }

  ghost predicate OutputOk(name: string, out: PortRef, ids: set<string>) {
    name != "" && Head(out.node) in ids && out.port != ""
  }

  ghost predicate OutputsOk(outputs: map<string, PortRef>, ids: set<string>) {
    forall name <- outputs :: OutputOk(name, outputs[name], ids)
  }

  ghost predicate EdgeEndsOk(edges: seq<Edge>, ids: set<string>) {
    forall i | 0 <= i < |edges| :: edges[i].from.node in ids && edges[i].to.node in ids
  }

  ghost predicate EdgeIdsDistinct(edges: seq<Edge>) {
    forall i, j | 0 <= i < j < |edges| :: edges[i].id != edges[j].id
  }

  ghost predicate NoSelfLoops(edges: seq<Edge>) {
    forall i | 0 <= i < |edges| :: edges[i].from.node != edges[i].to.node
  }

  ghost predicate SingleInputs(edges: seq<Edge>) {
    forall i, j | 0 <= i < j < |edges| :: edges[i].to != edges[j].to
  }

  ghost predicate WellFormed(g: Graph) {
    && g.schemaVersion == SCHEMA_VERSION
    && NodesOk(g.nodes)
    && OutputsOk(g.outputs, NodeIds(g.nodes))
    && EdgeIdsDistinct(g.edges)
    && EdgeEndsOk(g.edges, NodeIds(g.nodes))
    && NoSelfLoops(g.edges)
    && SingleInputs(g.edges)
  }

  datatype Problem =
    | EmptyNodeId
    | DuplicateNode(id: string)
    | MissingOp(id: string)
    | UnnamedOutput
    | DanglingOutput(name: string)
    | PortlessOutput(name: string)
    | DuplicateEdge(id: string)
    | DanglingSource(id: string)
    | DanglingTarget(id: string)
    | SelfLoop(id: string)
    | OccupiedInput(to: PortRef)

  // ---------------------------------------------------------------- unused ids

  function Numbered(base: string, n: nat): string {
    base + "_" + Decimals.Decimal(n)
  }

  lemma NumberedInjective(base: string, a: nat, b: nat)
    requires Numbered(base, a) == Numbered(base, b)
    ensures a == b
  {
    var k := |base| + 1;
    assert Numbered(base, a)[k..] == Decimals.Decimal(a);
    assert Numbered(base, b)[k..] == Decimals.Decimal(b);
    Decimals.DecimalInjective(a, b);
  }

  /** The candidates `base_2` to `base_(n-1)`. */
  ghost function Tried(base: string, n: nat): set<string> {
    set k | 2 <= k < n :: Numbered(base, k)
  }

  /** Trying one more taken candidate uses up one more of the taken ids. */
  lemma TriedUsesUp(taken: set<string>, base: string, n: nat)
    requires n >= 2 && Numbered(base, n) in taken
    ensures |taken - Tried(base, n + 1)| < |taken - Tried(base, n)|
  {
    var c := Numbered(base, n);
    forall k | 2 <= k < n
      ensures Numbered(base, k) != c
    {
      if Numbered(base, k) == c { NumberedInjective(base, k, n); }
    }
    assert c !in Tried(base, n);
    assert Tried(base, n + 1) == Tried(base, n) + {c};
    assert taken - Tried(base, n) == (taken - Tried(base, n + 1)) + {c};
  }

  /** The first of `base_n`, `base_(n+1)`, ... that is not taken; one exists because only finitely many are. */
  ghost function FirstNumbered(taken: set<string>, base: string, n: nat): (id: string)
    requires n >= 2
    ensures id !in taken
    ensures exists k :: k >= n && id == Numbered(base, k) && forall j | n <= j < k :: Numbered(base, j) in taken
    decreases |taken - Tried(base, n)|
  {
    if Numbered(base, n) !in taken then Numbered(base, n)
    else
      TriedUsesUp(taken, base, n);
      var id := FirstNumbered(taken, base, n + 1);
      assert exists k :: k >= n + 1 && id == Numbered(base, k) && forall j | n + 1 <= j < k ::
             Numbered(base, j) in taken;
      id
  }

  ghost function UniqueId(taken: set<string>, base: string): (id: string)
    ensures id !in taken
    ensures base <= id && ('/' !in base ==> '/' !in id)
  {
    if base !in taken then base
    else
      var id := FirstNumbered(taken, base, 2);
      var k :| k >= 2 && id == Numbered(base, k);
      assert forall c <- Decimals.Decimal(k) :: c != '/';
      id
  }

  // ---------------------------------------------------------------- the document

  class GraphDoc {
    var schemaVersion: nat
    var nodes: seq<Node>
    var edges: seq<Edge>
    var outputs: map<string, PortRef>
    var params: Values

    ghost function Abstract(): Graph
      reads this
    {
      Graph(schemaVersion, nodes, edges, outputs, params)
    }

    constructor (g: Graph)
      ensures Abstract() == g
    {
      schemaVersion, nodes, edges, outputs, params := g.schemaVersion, g.nodes, g.edges, g.outputs, g.params;
    }

    method IsNodeTaken(id: string) returns (taken: bool)
      ensures taken <==> id in NodeIds(nodes)
    {
      for i := 0 to |nodes|
        invariant forall k | 0 <= k < i :: nodes[k].id != id
      {
        if nodes[i].id == id {
          return true;
        }
      }
      return false;
    }

    method IsEdgeTaken(id: string) returns (taken: bool)
      ensures taken <==> id in EdgeIds(edges)
    {
      for i := 0 to |edges|
        invariant forall k | 0 <= k < i :: edges[k].id != id
      {
        if edges[i].id == id {
          return true;
        }
      }
      return false;
    }

    /** A node id that is not in use. */
    method UniqueNodeId(base: string) returns (id: string)
      ensures id == UniqueId(NodeIds(nodes), base)
    {
      var taken := IsNodeTaken(base);
      if !taken {
        return base;
      }
      ghost var used := NodeIds(nodes);
      var n := 2;
      while true
        invariant n >= 2 && FirstNumbered(used, base, 2) == FirstNumbered(used, base, n)
        decreases |used - Tried(base, n)|
      {
        id := Numbered(base, n);
        taken := IsNodeTaken(id);
        if !taken {
          return;
        }
        TriedUsesUp(used, base, n);
        n := n + 1;
      }
    }

    /** An edge id that is not in use. */
    method UniqueEdgeId(base: string) returns (id: string)
      ensures id == UniqueId(EdgeIds(edges), base)
    {
      id := base;
      var k := 2;
      ghost var used := EdgeIds(edges);
      var taken := IsEdgeTaken(id);
      while taken
        invariant k >= 2 && (taken <==> id in used)
        invariant k == 2 ==> id == base
        invariant k > 2 ==> base in used && id == Numbered(base, k - 1)
        invariant k > 2 ==> FirstNumbered(used, base, 2) == FirstNumbered(used, base, k - 1)
        decreases |used - Tried(base, if k == 2 then 2 else k - 1)| + (if k == 2 then 1 else 0)
      {
        if k > 2 { TriedUsesUp(used, base, k - 1); }
        id := Numbered(base, k);
        k := k + 1;
        taken := IsEdgeTaken(id);
      }
    }

    method CheckNodes() returns (ids: set<string>, problems: seq<Problem>)
      ensures problems == [] <==> NodesOk(nodes)
      ensures problems == [] ==> ids == NodeIds(nodes)
    {
      ids, problems := {}, [];
      for i := 0 to |nodes|
        invariant problems == [] <==> NodesOk(nodes[..i])
        invariant problems == [] ==> ids == NodeIds(nodes[..i])
      {
        var node := nodes[i];
        assert nodes[..i + 1] == nodes[..i] + [node];
        NodeAdded(nodes[..i], node);
        if node.id == "" {
          problems := problems + [EmptyNodeId];
        } else if node.id in ids {
          problems := problems + [DuplicateNode(node.id)];
        } else {
          ids := ids + {node.id};
        }
        if node.op == "" {
          problems := problems + [MissingOp(node.id)];
        }
      }
      assert nodes[..|nodes|] == nodes;
    }

    method CheckOutputs(ids: set<string>) returns (problems: seq<Problem>)
      ensures problems == [] <==> OutputsOk(outputs, ids)
    {
      problems := [];
      var rest := outputs.Keys;
      while rest != {}
        invariant rest <= outputs.Keys
        invariant problems == [] <==> forall name <- outputs.Keys - rest :: OutputOk(name, outputs[name], ids)
        decreases rest
      {
        var name :| name in rest;
        var out := outputs[name];
        ghost var was := rest;
        if name == "" {
          problems := problems + [UnnamedOutput];
        }
        if Head(out.node) !in ids {
          problems := problems + [DanglingOutput(name)];
        }
        if out.port == "" {
          problems := problems + [PortlessOutput(name)];
        }
        rest := rest - {name};
        assert outputs.Keys - rest == (outputs.Keys - was) + {name};
      }
      assert outputs.Keys - rest == outputs.Keys;
    }

    ghost predicate EdgesOkUpTo(i: nat, ids: set<string>)
      reads this
      requires i <= |edges|
    {
      && EdgeIdsDistinct(edges[..i]) && EdgeEndsOk(edges[..i], ids) && NoSelfLoops(edges[..i])
      && SingleInputs(edges[..i])
    }

    method CheckEdges(ids: set<string>) returns (problems: seq<Problem>)
      ensures problems == [] <==>
              EdgeIdsDistinct(edges) && EdgeEndsOk(edges, ids) && NoSelfLoops(edges) && SingleInputs(edges)
    {
      problems := [];
      var edgeIds: set<string> := {};
      var occupied: set<PortRef> := {};
      assert EdgesOkUpTo(0, ids) && EdgeIds(edges[..0]) == {} && Targets(edges[..0]) == {};
      hide EdgeIdsDistinct, EdgeEndsOk, NoSelfLoops, SingleInputs, EdgeIds, Targets;
      for i := 0 to |edges|
        invariant edgeIds == EdgeIds(edges[..i]) && occupied == Targets(edges[..i])
        invariant problems == [] <==> EdgesOkUpTo(i, ids)
      {
        var edge := edges[i];
        assert edges[..i + 1] == edges[..i] + [edge];
        EdgeAdded(edges[..i], edge, ids);
        if edge.id in edgeIds {
          problems := problems + [DuplicateEdge(edge.id)];
        }
        edgeIds := edgeIds + {edge.id};
        if edge.from.node !in ids {
          problems := problems + [DanglingSource(edge.id)];
        }
        if edge.to.node !in ids {
          problems := problems + [DanglingTarget(edge.id)];
        }
        if edge.from.node == edge.to.node {
          problems := problems + [SelfLoop(edge.id)];
        }
        if edge.to in occupied {
          problems := problems + [OccupiedInput(edge.to)];
        }
        occupied := occupied + {edge.to};
      }
      assert edges[..|edges|] == edges;
    }

    /** The structural check passes exactly the well-formed graphs. */
    method ValidateStructure() returns (ok: bool, problems: seq<Problem>)
      ensures ok <==> WellFormed(Abstract())
      ensures ok ==> problems == []
    {
      problems := [];
      if schemaVersion != SCHEMA_VERSION {
        return false, problems;
      }
      var ids, nodeProblems := CheckNodes();
      var outputProblems := CheckOutputs(ids);
      var edgeProblems := CheckEdges(ids);
      problems := nodeProblems + outputProblems + edgeProblems;
      ok := problems == [];
    }
  }

  function Targets(edges: seq<Edge>): set<PortRef> {
    set e <- edges :: e.to
  }

  lemma NodeAdded(nodes: seq<Node>, node: Node)
    ensures NodeIds(nodes + [node]) == NodeIds(nodes) + {node.id}
    ensures NodesOk(nodes + [node]) <==> NodesOk(nodes) && node.id != "" && node.op != "" && node.id !in NodeIds(nodes)
  {
    var all := nodes + [node];
    assert all[|nodes|] == node;
    assert forall k | 0 <= k < |nodes| :: all[k] == nodes[k];
  }

  lemma EdgeAdded(edges: seq<Edge>, edge: Edge, ids: set<string>)
    ensures EdgeIds(edges + [edge]) == EdgeIds(edges) + {edge.id}
    ensures Targets(edges + [edge]) == Targets(edges) + {edge.to}
    ensures EdgeIdsDistinct(edges + [edge]) <==> EdgeIdsDistinct(edges) && edge.id !in EdgeIds(edges)
    ensures EdgeEndsOk(edges + [edge], ids) <==> EdgeEndsOk(edges, ids) && edge.from.node in ids && edge.to.node in ids
    ensures NoSelfLoops(edges + [edge]) <==> NoSelfLoops(edges) && edge.from.node != edge.to.node
    ensures SingleInputs(edges + [edge]) <==> SingleInputs(edges) && edge.to !in Targets(edges)
  {
    var all := edges + [edge];
    assert all[|edges|] == edge;
    assert forall k | 0 <= k < |edges| :: all[k] == edges[k];
  }
}
