/** The actions of `lyflow patch` carried out in place on a document (bridge/src/patch.rs). */
module PatchActions {
  import opened Outcomes
  import opened Graphs
  import opened Patch
  import Glob
  import RecipeReport

  datatype Unit = Unit

  /** The action has done to the document what the specifications say, or reports the first that fails. */
  ghost predicate Carries<T>(action: (Graph, T) -> Result<Graph, Error>, before: Graph, specs: seq<T>, after: Graph,
                             r: Result<Unit, Error>) {
    match r
    case Ok(_) => Each(action, before, specs) == Ok(after)
    case Err(e) => Each(action, before, specs) == Err(e)
  }

  /** The ids a pattern hits. */
  method FindHits(doc: GraphDoc, pattern: string) returns (hits: set<string>)
    ensures hits == HitIds(doc.Abstract(), pattern)
  {
    hits := {};
    for i := 0 to |doc.nodes|
      invariant hits == set k | 0 <= k < i && Hits(pattern, doc.nodes[k].id) :: doc.nodes[k].id
    {
      var hit := Glob.GlobMatch(pattern, doc.nodes[i].id);
      if hit {
        hits := hits + {doc.nodes[i].id};
      }
    }
    forall id
      ensures id in HitIds(doc.Abstract(), pattern) <==> id in hits
    {
      if id in HitIds(doc.Abstract(), pattern) {
        var k :| 0 <= k < |doc.nodes| && doc.nodes[k].id == id && Hits(pattern, id);
      }
    }
  }

  method IsReferenced(doc: GraphDoc, ids: set<string>) returns (referenced: bool)
    ensures referenced <==> Referenced(doc.Abstract(), ids)
  {
    var rest := doc.outputs.Keys;
    while rest != {}
      invariant rest <= doc.outputs.Keys
      invariant forall name <- doc.outputs.Keys - rest :: doc.outputs[name].node !in ids
      decreases rest
    {
      var name :| name in rest;
      if doc.outputs[name].node in ids {
        return true;
      }
      rest := rest - {name};
    }
    return false;
  }

  method ApplyRemoves(doc: GraphDoc, specs: seq<string>) returns (r: Result<Unit, Error>)
    modifies doc
    ensures Carries(Removed, old(doc.Abstract()), specs, doc.Abstract(), r)
  {
    for i := 0 to |specs|
      invariant Each(Removed, old(doc.Abstract()), specs) == Each(Removed, doc.Abstract(), specs[i..])
    {
      assert specs[i..] == [specs[i]] + specs[i + 1..];
      var hits := FindHits(doc, specs[i]);
      if hits != {} {
        var referenced := IsReferenced(doc, hits);
        if referenced {
          return Err(StillReferenced(specs[i]));
        }
        doc.nodes := WithoutNodes(doc.nodes, hits);
        doc.edges := WithoutEdges(doc.edges, hits);
      }
    }
    return Ok(Unit);
  }

  method ApplyAdds(doc: GraphDoc, specs: seq<Node>) returns (r: Result<Unit, Error>)
    modifies doc
    ensures Carries(Added, old(doc.Abstract()), specs, doc.Abstract(), r)
  {
    for i := 0 to |specs|
      invariant Each(Added, old(doc.Abstract()), specs) == Each(Added, doc.Abstract(), specs[i..])
    {
      assert specs[i..] == [specs[i]] + specs[i + 1..];
      var node := specs[i];
      var taken := doc.IsNodeTaken(node.id);
      if node.id == "" || node.op == "" || taken {
        return Err(BadNode(node.id));
      }
      doc.nodes := doc.nodes + [node];
    }
    return Ok(Unit);
  }

  /** Moves every edge that leaves one port to another, in place. */
  method MoveEdges(doc: GraphDoc, p: PortPair)
    modifies doc
    ensures doc.Abstract() == old(doc.Abstract()).(edges := MovedEdges(old(doc.edges), p))
  {
    ghost var before := doc.Abstract();
    for i := 0 to |doc.edges|
      invariant doc.Abstract() == before.(edges := doc.edges) && |doc.edges| == |before.edges|
      invariant forall k | 0 <= k < i :: doc.edges[k] == Moved(before.edges[k], p)
      invariant forall k | i <= k < |doc.edges| :: doc.edges[k] == before.edges[k]
    {
      if doc.edges[i].from == p.from {
        doc.edges := doc.edges[i := doc.edges[i].(from := p.to)];
      }
    }
    assert doc.edges == MovedEdges(before.edges, p);
  }

  method ApplyRewires(doc: GraphDoc, specs: seq<PortPair>) returns (r: Result<Unit, Error>)
    modifies doc
    ensures Carries(Rewired, old(doc.Abstract()), specs, doc.Abstract(), r)
  {
    for i := 0 to |specs|
      invariant Each(Rewired, old(doc.Abstract()), specs) == Each(Rewired, doc.Abstract(), specs[i..])
    {
      assert specs[i..] == [specs[i]] + specs[i + 1..];
      var p := specs[i];
      var known := doc.IsNodeTaken(p.from.node);
      if !known {
        return Err(NoSuchNode(p.from.node));
      }
      known := doc.IsNodeTaken(p.to.node);
      if !known {
        return Err(NoSuchNode(p.to.node));
      }
      MoveEdges(doc, p);
    }
    return Ok(Unit);
  }

  method ContainsEdge(doc: GraphDoc, p: PortPair) returns (there: bool)
    ensures there <==> HasEdge(doc.edges, p)
  {
    for i := 0 to |doc.edges|
      invariant forall k | 0 <= k < i :: !(doc.edges[k].from == p.from && doc.edges[k].to == p.to)
    {
      if doc.edges[i].from == p.from && doc.edges[i].to == p.to {
        assert doc.edges[i] in doc.edges;
        return true;
      }
    }
    return false;
  }

  method ApplyConnects(doc: GraphDoc, specs: seq<PortPair>) returns (r: Result<Unit, Error>)
    modifies doc
    ensures Carries(Connected, old(doc.Abstract()), specs, doc.Abstract(), r)
  {
    for i := 0 to |specs|
      invariant Each(Connected, old(doc.Abstract()), specs) == Each(Connected, doc.Abstract(), specs[i..])
    {
      assert specs[i..] == [specs[i]] + specs[i + 1..];
      var p := specs[i];
      var known := doc.IsNodeTaken(p.from.node);
      if !known {
        return Err(NoSuchNode(p.from.node));
      }
      known := doc.IsNodeTaken(p.to.node);
      if !known {
        return Err(NoSuchNode(p.to.node));
      }
      var there := ContainsEdge(doc, p);
      if !there {
        var id := doc.UniqueEdgeId("e_" + p.from.node + "_" + p.to.node);
        doc.edges := doc.edges + [Edge(id, p.from, p.to)];
      }
    }
    return Ok(Unit);
  }

  /** Whether some graph parameter drives this node parameter. */
  method IsBound(doc: GraphDoc, node: string, param: string) returns (bound: bool)
    ensures bound <==> Bound(doc.params, node, param)
  {
    var target := node + "." + param;
    var rest := doc.params.Keys;
    while rest != {}
      invariant rest <= doc.params.Keys
      invariant forall name <- doc.params.Keys - rest :: !Binds(doc.params[name], target)
      decreases rest
    {
      var name :| name in rest;
      if Binds(doc.params[name], target) {
        return true;
      }
      rest := rest - {name};
    }
    return false;
  }

  method ApplySet(doc: GraphDoc, s: Setting) returns (r: Result<Unit, Error>)
    modifies doc
    ensures r.Ok? ==> SetTo(old(doc.Abstract()), s) == Ok(doc.Abstract())
    ensures r.Err? ==> SetTo(old(doc.Abstract()), s) == Err(r.error)
  {
    var conflict := IsBound(doc, s.node, s.param);
    if conflict {
      return Err(ParamConflict(s.node, s.param));
    }
    var at := IndexOf(doc.nodes, s.node);
    if at == |doc.nodes| {
      return Err(NoSuchNode(s.node));
    }
    var node := doc.nodes[at];
    if s.param in node.params && node.params[s.param] == s.value {
      assert node.params[s.param := s.value] == node.params;
      assert doc.nodes[at := node.(params := node.params[s.param := s.value])] == doc.nodes;
    } else {
      doc.nodes := doc.nodes[at := node.(params := node.params[s.param := s.value])];
    }
    return Ok(Unit);
  }

  method ApplySets(doc: GraphDoc, specs: seq<Setting>) returns (r: Result<Unit, Error>)
    modifies doc
    ensures Carries(SetTo, old(doc.Abstract()), specs, doc.Abstract(), r)
  {
    for i := 0 to |specs|
      invariant Each(SetTo, old(doc.Abstract()), specs) == Each(SetTo, doc.Abstract(), specs[i..])
    {
      assert specs[i..] == [specs[i]] + specs[i + 1..];
      var one := ApplySet(doc, specs[i]);
      if one.Err? {
        return one;
      }
    }
    return Ok(Unit);
  }

  method ApplyRecipes(doc: GraphDoc, specs: seq<Values>, text: real -> string) returns (r: Result<Unit, Error>)
    modifies doc
    ensures match r
            case Ok(_) => Applied(old(doc.Abstract()), specs) == Ok(doc.Abstract())
            case Err(e) => Applied(old(doc.Abstract()), specs) == Err(e)
  {
    if |specs| > 1 {
      return Err(SecondRecipe);
    }
    for i := 0 to |specs|
      invariant if i == 0 then doc.Abstract() == old(doc.Abstract())
                else Applied(old(doc.Abstract()), specs) == Ok(doc.Abstract())
    {
      var _, blocking := RecipeReport.CheckValues(doc.params, specs[i], text);
      RecipeReport.NoneFailsIffFits(doc.params, specs[i], text);
      if blocking > 0 {
        return Err(RecipeMismatch);
      }
      var _ := RecipeReport.WriteAsDefaults(doc, specs[i]);
    }
    return Ok(Unit);
  }

  method ApplyParams(doc: GraphDoc, specs: seq<Default>) returns (r: Result<Unit, Error>)
    modifies doc
    ensures Carries(Defaulted, old(doc.Abstract()), specs, doc.Abstract(), r)
  {
    for i := 0 to |specs|
      invariant Each(Defaulted, old(doc.Abstract()), specs) == Each(Defaulted, doc.Abstract(), specs[i..])
    {
      assert specs[i..] == [specs[i]] + specs[i + 1..];
      var d := specs[i];
      if d.name !in doc.params || !doc.params[d.name].Obj? {
        return Err(UnknownParam(d.name));
      }
      var decl := doc.params[d.name];
      if Field(decl, "default") == Some(d.value) {
        assert decl.fields["default" := d.value] == decl.fields;
        assert doc.params[d.name := decl] == doc.params;
      } else {
        doc.params := doc.params[d.name := RecipeReport.WithDefault(decl, d.value)];
      }
    }
    return Ok(Unit);
  }

  /** The check after a step that had something to do. */
  method CheckAfter(doc: GraphDoc, worked: bool, r: Result<Unit, Error>) returns (c: Result<Unit, Error>)
    ensures c == if r.Ok? && worked && !WellFormed(doc.Abstract()) then Err(Invalid) else r
  {
    c := r;
    if r.Ok? && worked {
      var ok, _ := doc.ValidateStructure();
      if !ok {
        c := Err(Invalid);
      }
    }
  }

  /** What a stage leaves behind: the checked result, or its error. */
  ghost predicate Leaves(expected: Result<Graph, Error>, after: Graph, r: Result<Unit, Error>) {
    match r
    case Ok(_) => expected == Ok(after)
    case Err(e) => expected == Err(e)
  }

  method RemoveAndAdd(d: GraphDoc, c: Command) returns (s: Result<Unit, Error>)
    modifies d
    ensures Leaves(Stage(Added, Stage(Removed, Ok(old(d.Abstract())), c.removes), c.adds), d.Abstract(), s)
  {
    s := ApplyRemoves(d, c.removes);
    s := CheckAfter(d, c.removes != [], s);
    if s.Ok? {
      s := ApplyAdds(d, c.adds);
      s := CheckAfter(d, c.adds != [], s);
    }
  }

  method RewireAndConnect(d: GraphDoc, c: Command) returns (s: Result<Unit, Error>)
    modifies d
    ensures Leaves(Stage(Connected, Stage(Rewired, Ok(old(d.Abstract())), c.rewires), c.connects), d.Abstract(), s)
  {
    s := ApplyRewires(d, c.rewires);
    s := CheckAfter(d, c.rewires != [], s);
    if s.Ok? {
      s := ApplyConnects(d, c.connects);
      s := CheckAfter(d, c.connects != [], s);
    }
  }

  method SetAndRecipe(d: GraphDoc, c: Command, text: real -> string) returns (s: Result<Unit, Error>)
    modifies d
    ensures Leaves(RecipeStage(Stage(SetTo, Ok(old(d.Abstract())), c.sets), c.recipes), d.Abstract(), s)
  {
    s := ApplySets(d, c.sets);
    s := CheckAfter(d, c.sets != [], s);
    if s.Ok? {
      s := ApplyRecipes(d, c.recipes, text);
      s := CheckAfter(d, c.recipes != [], s);
    }
  }

  method WriteParams(d: GraphDoc, c: Command) returns (s: Result<Unit, Error>)
    modifies d
    ensures Leaves(Stage(Defaulted, Ok(old(d.Abstract())), c.params), d.Abstract(), s)
  {
    s := ApplyParams(d, c.params);
    s := CheckAfter(d, c.params != [], s);
  }

  /** All seven actions on a copy of the document; the original is what it was, whatever happens. */
  method CmdPatch(doc: GraphDoc, c: Command, text: real -> string) returns (r: Result<GraphDoc, Error>)
    ensures doc.Abstract() == old(doc.Abstract())
    ensures match r
            case Ok(after) => fresh(after) && Patched(doc.Abstract(), c) == Ok(after.Abstract())
            case Err(e) => Patched(doc.Abstract(), c) == Err(e)
  {
    if !Reshapes(c) && !Tunes(c) {
      return Err(NoAction);
    }
    var d := new GraphDoc(Graph(doc.schemaVersion, doc.nodes, doc.edges, doc.outputs, doc.params));
    var s := RemoveAndAdd(d, c);
    if s.Ok? {
      s := RewireAndConnect(d, c);
    }
    if s.Ok? {
      s := SetAndRecipe(d, c, text);
    }
    if s.Ok? {
      s := WriteParams(d, c);
    }
    r := if s.Ok? then Ok(d) else Err(s.error);
  }
}
