/** The strict and the loose gate in front of stored graphs (app/workflow/dsl.py). */
module DslGate {
  import opened Wrappers
  import opened Sequences
  import opened DslSchema
  import opened Acyclicity
  import opened DslValidation

  // --- Acceptance, stated without reference to the order of the checks ---

  predicate IsStart(n: NodeDef) {
    n.nodeType == "start"
  }

  ghost predicate OnlyStart(nodes: seq<NodeDef>, i: int) {
    0 <= i < |nodes| && forall j :: 0 <= j < |nodes| ==> (IsStart(nodes[j]) <==> j == i)
  }

  ghost predicate OneStart(nodes: seq<NodeDef>) {
    exists i :: OnlyStart(nodes, i)
  }

  function SubGraph(n: NodeDef): GraphDef
    requires n.blocks.Some?
  {
    GraphDef(n.blocks.value, if n.blockEdges.Some? then n.blockEdges.value else [])
  }

  ghost predicate BlocksOk(n: NodeDef) {
    n.blocks.Some? ==>
      && KnownEndpoints(SubGraph(n).edges, Elements(NodeIds(SubGraph(n).nodes)))
      && AcyclicGraph(SubGraph(n))
  }

  ghost predicate WellStructured(g: GraphDef) {
    && Distinct(NodeIds(g.nodes))
    && KnownEndpoints(g.edges, Elements(NodeIds(g.nodes)))
    && OneStart(g.nodes)
    && Acyclic(g.edges)
    && forall i :: 0 <= i < |g.nodes| ==> BlocksOk(g.nodes[i])
  }

  /** The graphs the strict gate lets through; the empty graph needs no start node. */
  ghost predicate Accepts(raw: RawDsl) {
    match raw
    case Null => true
    case EmptyObject => true
    case Misshapen(_) => false
    case Shaped(dsl) => dsl.graph.nodes == [] || WellStructured(dsl.graph)
  }

  // --- The first fault, in the order the code looks for it ---

  ghost function EdgeFault(edges: seq<EdgeDef>, ids: set<NodeId>): Option<DslError> {
    if edges == [] then None
    else if edges[0].source !in ids then Some(EdgeSourceNotFound(edges[0].source))
    else if edges[0].target !in ids then Some(EdgeTargetNotFound(edges[0].target))
    else EdgeFault(edges[1..], ids)
  }

  function StartCount(nodes: seq<NodeDef>): nat {
    if nodes == [] then 0
    else StartCount(nodes[..|nodes| - 1]) + (if IsStart(nodes[|nodes| - 1]) then 1 else 0)
  }

  ghost function BlockFault(nodes: seq<NodeDef>): Option<DslError> {
    if nodes == [] then None
    else if BlocksOk(nodes[0]) then BlockFault(nodes[1..])
    else if KnownEndpoints(SubGraph(nodes[0]).edges, Elements(NodeIds(SubGraph(nodes[0]).nodes))) then Some(CycleFound)
    else Some(BlockEdgeUnknown(nodes[0].id))
  }

  ghost function Fault(g: GraphDef): Option<DslError> {
    var ids := NodeIds(g.nodes);
    if !Distinct(ids) then Some(DuplicateNodeIds)
    else if EdgeFault(g.edges, Elements(ids)).Some? then EdgeFault(g.edges, Elements(ids))
    else if StartCount(g.nodes) == 0 then Some(NoStartNode)
    else if StartCount(g.nodes) > 1 then Some(MultipleStartNodes)
    else if !Acyclic(g.edges) then Some(CycleFound)
    else BlockFault(g.nodes)
  }

  ghost function ParseSpec(raw: RawDsl): Result<WorkflowDsl, DslError> {
    match raw
    case Null => Ok(EMPTY_DSL)
    case EmptyObject => Ok(EMPTY_DSL)
    case Misshapen(_) => Err(ShapeError)
    case Shaped(dsl) =>
      if dsl.graph.nodes == [] || Fault(dsl.graph).None? then Ok(dsl) else Err(Fault(dsl.graph).value)
  }

  lemma {:induction false} EdgeFaultMeaning(edges: seq<EdgeDef>, ids: set<NodeId>)
    ensures EdgeFault(edges, ids).None? <==> KnownEndpoints(edges, ids)
  {
    if edges != [] {
      EdgeFaultMeaning(edges[1..], ids);
      assert forall k :: 0 <= k < |edges[1..]| ==> edges[1..][k] == edges[k + 1];
      if KnownEndpoints(edges[1..], ids) && edges[0].source in ids && edges[0].target in ids {
        forall k | 0 <= k < |edges| ensures edges[k].source in ids && edges[k].target in ids {
          assert k > 0 ==> edges[k] == edges[1..][k - 1];
        }
      }
    }
  }

  lemma {:induction false} StartCountMeaning(nodes: seq<NodeDef>)
    ensures StartCount(nodes) == 0 <==> forall i :: 0 <= i < |nodes| ==> !IsStart(nodes[i])
    ensures StartCount(nodes) == 1 <==> OneStart(nodes)
  {
    if nodes != [] {
      var n := |nodes| - 1;
      var front := nodes[..n];
      StartCountMeaning(front);
      forall i ensures OnlyStart(nodes, i) <==>
                       if IsStart(nodes[n]) then i == n && StartCount(front) == 0 else OnlyStart(front, i)
      {
        assert forall j :: 0 <= j < n ==> front[j] == nodes[j];
      }
      assert IsStart(nodes[n]) && StartCount(front) == 0 ==> OnlyStart(nodes, n);
    }
  }

  lemma {:induction false} BlockFaultMeaning(nodes: seq<NodeDef>)
    ensures BlockFault(nodes).None? <==> forall i :: 0 <= i < |nodes| ==> BlocksOk(nodes[i])
  {
    if nodes != [] {
      var rest := nodes[1..];
      BlockFaultMeaning(rest);
      assert forall i :: 0 <= i < |rest| ==> rest[i] == nodes[i + 1];
      assert forall i :: 0 < i < |nodes| ==> nodes[i] == rest[i - 1];
    }
  }

  lemma FaultMeaning(g: GraphDef)
    ensures Fault(g).None? <==> WellStructured(g)
  {
    EdgeFaultMeaning(g.edges, Elements(NodeIds(g.nodes)));
    StartCountMeaning(g.nodes);
    BlockFaultMeaning(g.nodes);
  }

  /** The strict gate accepts exactly the values described by Accepts, and hands them on unchanged. */
  lemma ParseAccepts(raw: RawDsl)
    ensures ParseSpec(raw).Ok? <==> Accepts(raw)
    ensures ParseSpec(raw).Ok? ==> ParseSpec(raw).value == (if raw.Shaped? then raw.dsl else EMPTY_DSL)
  {
    if raw.Shaped? { FaultMeaning(raw.dsl.graph); }
  }

  // --- The code ---

  method ValidateStructure(g: GraphDef) returns (r: Result<(), DslError>)
    ensures r == match Fault(g) case None => Ok(()) case Some(e) => Err(e)
    ensures r.Ok? <==> WellStructured(g)
  {
    FaultMeaning(g);
    var ids := NodeIds(g.nodes);
    var idSet := set x | x in ids;
    assert idSet == Elements(ids);
    ElementsSize(ids);
    if |ids| != |idSet| {
      return Err(DuplicateNodeIds);
    }
    for i := 0 to |g.edges|
      invariant EdgeFault(g.edges, idSet) == EdgeFault(g.edges[i..], idSet)
    {
      var e := g.edges[i];
      if e.source !in idSet {
        return Err(EdgeSourceNotFound(e.source));
      }
      if e.target !in idSet {
        return Err(EdgeTargetNotFound(e.target));
      }
      assert g.edges[i..][1..] == g.edges[i + 1..];
    }
    EdgeFaultMeaning(g.edges, idSet);
    var starts := 0;
    for i := 0 to |g.nodes|
      invariant starts == StartCount(g.nodes[..i])
    {
      assert g.nodes[..i + 1][..i] == g.nodes[..i];
      if IsStart(g.nodes[i]) {
        starts := starts + 1;
      }
    }
    assert g.nodes[..|g.nodes|] == g.nodes;
    if starts == 0 {
      return Err(NoStartNode);
    }
    if starts > 1 {
      return Err(MultipleStartNodes);
    }
    ghost var order;
    r, order := AssertAcyclic(g);
    if r.Err? {
      return;
    }
    r := ValidateBlocks(g.nodes);
  }

  method ValidateBlocks(nodes: seq<NodeDef>) returns (r: Result<(), DslError>)
    ensures r == match BlockFault(nodes) case None => Ok(()) case Some(e) => Err(e)
  {
    for i := 0 to |nodes|
      invariant BlockFault(nodes) == BlockFault(nodes[i..])
    {
      var n := nodes[i];
      assert nodes[i..][1..] == nodes[i + 1..];
      if n.blocks.Some? {
        var sub := SubGraph(n);
        var subIds := set x | x in NodeIds(sub.nodes);
        assert subIds == Elements(NodeIds(sub.nodes));
        for j := 0 to |sub.edges|
          invariant forall k :: 0 <= k < j ==> sub.edges[k].source in subIds && sub.edges[k].target in subIds
        {
          if sub.edges[j].source !in subIds || sub.edges[j].target !in subIds {
            return Err(BlockEdgeUnknown(n.id));
          }
        }
        ghost var order;
        r, order := AssertAcyclic(sub);
        if r.Err? {
          return;
        }
      }
    }
    return Ok(());
  }

  method ParseDsl(raw: RawDsl) returns (r: Result<WorkflowDsl, DslError>)
    ensures r == ParseSpec(raw)
    ensures r.Ok? <==> Accepts(raw)
  {
    ParseAccepts(raw);
    match raw {
      case Null => return Ok(EMPTY_DSL);
      case EmptyObject => return Ok(EMPTY_DSL);
      case Misshapen(_) => return Err(ShapeError);
      case Shaped(dsl) =>
        if dsl.graph.nodes != [] {
          var v := ValidateStructure(dsl.graph);
          if v.Err? {
            return Err(v.error);
          }
        }
        return Ok(dsl);
    }
  }

  /** The draft gate checks the shape only. */
  function ParseLoose(raw: RawDsl): Result<WorkflowDsl, DslError> {
    match raw
    case Null => Ok(EMPTY_DSL)
    case EmptyObject => Ok(EMPTY_DSL)
    case Misshapen(_) => Err(ShapeError)
    case Shaped(dsl) => Ok(dsl)
  }

  /** What the strict gate accepts the loose one accepts, with the same result, but not the other way round. */
  lemma LooseIsWeaker(raw: RawDsl)
    ensures ParseSpec(raw).Ok? ==> ParseLoose(raw) == ParseSpec(raw)
    ensures ParseLoose(raw).Ok? && ParseSpec(raw).Err? <==>
            raw.Shaped? && raw.dsl.graph.nodes != [] && !WellStructured(raw.dsl.graph)
  {
    ParseAccepts(raw);
  }
}
