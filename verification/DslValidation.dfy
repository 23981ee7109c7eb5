/** Structural validation of workflow graphs (app/workflow/dsl.py): Kahn's algorithm and the gates built on it. */
module DslValidation {
  import opened Wrappers
  import opened Sequences
  import opened DslSchema
  import opened Acyclicity

  // --- What acceptance means, independently of any traversal ---

  ghost predicate AcyclicGraph(g: GraphDef) {
    Distinct(NodeIds(g.nodes)) && Acyclic(g.edges)
  }

  /** The key order and contents of the two dictionaries that Kahn's algorithm works on. */
  ghost predicate DegreesMatch(edges: seq<EdgeDef>, keys: seq<NodeId>, inDegree: map<NodeId, int>, done: set<NodeId>) {
    && inDegree.Keys == Elements(keys)
    && forall k :: k in keys ==> inDegree[k] == InCount(edges, k, done)
  }

  ghost predicate AdjacencyMatches(edges: seq<EdgeDef>, keys: seq<NodeId>, adj: map<NodeId, seq<NodeId>>) {
    && adj.Keys == Elements(keys)
    && forall k :: k in keys ==> adj[k] == Targets(edges, k)
  }

  /** Popped and queued nodes are distinct known nodes, and exactly those whose degree has reached zero. */
  ghost predicate FrontierMatches(keys: seq<NodeId>, inDegree: map<NodeId, int>, order: seq<NodeId>, queue: seq<NodeId>) {
    && Distinct(order + queue)
    && Elements(order + queue) <= Elements(keys)
    && forall k :: k in keys ==> k in inDegree && (k in order + queue <==> inDegree[k] == 0)
  }

  method InitDegrees(ids: seq<NodeId>) returns (keys: seq<NodeId>, inDegree: map<NodeId, int>, adj: map<NodeId, seq<NodeId>>)
    ensures Distinct(keys) && Elements(keys) == Elements(ids)
    ensures DegreesMatch([], keys, inDegree, {}) && AdjacencyMatches([], keys, adj)
  {
    keys, inDegree, adj := [], map[], map[];
    for i := 0 to |ids|
      invariant Distinct(keys) && Elements(keys) == Elements(ids[..i])
      invariant inDegree.Keys == adj.Keys == Elements(keys)
      invariant forall k :: k in inDegree ==> inDegree[k] == 0 && adj[k] == []
    {
      if ids[i] !in inDegree {
        keys := keys + [ids[i]];
      }
      inDegree := inDegree[ids[i] := 0];
      adj := adj[ids[i] := []];
      assert Elements(ids[..i + 1]) == Elements(ids[..i]) + {ids[i]};
    }
    assert ids[..|ids|] == ids;
  }

  method CountDegrees(g: GraphDef) returns (keys: seq<NodeId>, inDegree: map<NodeId, int>, adj: map<NodeId, seq<NodeId>>)
    ensures Distinct(keys) && Elements(keys) == Elements(NodeIds(g.nodes))
    ensures DegreesMatch(g.edges, keys, inDegree, {})
    ensures AdjacencyMatches(g.edges, keys, adj)
  {
    keys, inDegree, adj := InitDegrees(NodeIds(g.nodes));
    assert g.edges[..0] == [];
    for i := 0 to |g.edges|
      invariant DegreesMatch(g.edges[..i], keys, inDegree, {}) && AdjacencyMatches(g.edges[..i], keys, adj)
    {
      var e := g.edges[i];
      EdgeCounted(g.edges, i, keys, inDegree, adj);
      if e.target in inDegree {
        inDegree := inDegree[e.target := inDegree[e.target] + 1];
      }
      if e.source in adj {
        adj := adj[e.source := adj[e.source] + [e.target]];
      }
    }
    assert g.edges[..|g.edges|] == g.edges;
  }

  ghost function Bump(inDegree: map<NodeId, int>, e: EdgeDef): map<NodeId, int> {
    if e.target in inDegree then inDegree[e.target := inDegree[e.target] + 1] else inDegree
  }

  ghost function Link(adj: map<NodeId, seq<NodeId>>, e: EdgeDef): map<NodeId, seq<NodeId>> {
    if e.source in adj then adj[e.source := adj[e.source] + [e.target]] else adj
  }

  lemma EdgeCounted(edges: seq<EdgeDef>, i: nat, keys: seq<NodeId>, inDegree: map<NodeId, int>, adj: map<NodeId, seq<NodeId>>)
    requires i < |edges|
    requires DegreesMatch(edges[..i], keys, inDegree, {}) && AdjacencyMatches(edges[..i], keys, adj)
    ensures DegreesMatch(edges[..i + 1], keys, Bump(inDegree, edges[i]), {})
    ensures AdjacencyMatches(edges[..i + 1], keys, Link(adj, edges[i]))
  {
    assert edges[..i + 1][..i] == edges[..i];
    assert edges[i].target in inDegree <==> edges[i].target in Elements(keys);
    assert edges[i].source in adj <==> edges[i].source in Elements(keys);
    assert Bump(inDegree, edges[i]).Keys == inDegree.Keys;
    assert Link(adj, edges[i]).Keys == adj.Keys;
  }

  /** Inside the relaxation loop the counts lag by the targets already visited. */
  ghost predicate DegreesMid(edges: seq<EdgeDef>, keys: seq<NodeId>, inDegree: map<NodeId, int>, done: set<NodeId>, relaxed: seq<NodeId>) {
    && inDegree.Keys == Elements(keys)
    && forall k :: k in keys ==> inDegree[k] == InCount(edges, k, done) - multiset(relaxed)[k]
  }

  method ZeroDegrees(keys: seq<NodeId>, inDegree: map<NodeId, int>) returns (queue: seq<NodeId>)
    requires Distinct(keys) && inDegree.Keys == Elements(keys)
    ensures Distinct(queue) && Elements(queue) <= Elements(keys)
    ensures forall k :: k in keys ==> (k in queue <==> inDegree[k] == 0)
  {
    queue := [];
    for i := 0 to |keys|
      invariant Distinct(queue) && Elements(queue) <= Elements(keys[..i])
      invariant forall j :: 0 <= j < i ==> (keys[j] in queue <==> inDegree[keys[j]] == 0)
    {
      assert keys[..i + 1] == keys[..i] + [keys[i]];
      assert keys[i] !in keys[..i];
      ghost var was := queue;
      if inDegree[keys[i]] == 0 {
        assert keys[i] !in Elements(queue);
        queue := queue + [keys[i]];
        assert Elements(queue) == Elements(was) + {keys[i]};
      }
      assert forall k :: k in queue <==> k in was || (inDegree[keys[i]] == 0 && k == keys[i]);
      assert keys[i] !in was by {
        assert forall k :: k in was ==> k in Elements(was);
      }
      assert forall j :: 0 <= j < i ==> keys[j] != keys[i];
    }
    assert keys[..|keys|] == keys;
  }

  /** A node enters the queue when its last counted in-edge goes. */
  lemma FrontierGrows(keys: seq<NodeId>, inDegree: map<NodeId, int>, order: seq<NodeId>, queue: seq<NodeId>, t: NodeId)
    requires FrontierMatches(keys, inDegree, order, queue) && t in keys && t in inDegree && inDegree[t] >= 1
    ensures FrontierMatches(keys, inDegree[t := inDegree[t] - 1], order, if inDegree[t] == 1 then queue + [t] else queue)
  {
    assert t !in order + queue;
    assert order + (queue + [t]) == (order + queue) + [t];
    assert Elements((order + queue) + [t]) == Elements(order + queue) + {t};
    forall k | k in keys && inDegree[t] == 1 ensures k in (order + queue) + [t] <==> inDegree[t := inDegree[t] - 1][k] == 0 {
      assert k in (order + queue) + [t] <==> k in order + queue || k == t;
    }
  }

  lemma RelaxStep(edges: seq<EdgeDef>, keys: seq<NodeId>, nid: NodeId, order: seq<NodeId>,
                  inDegree: map<NodeId, int>, queue: seq<NodeId>, done: set<NodeId>, j: nat)
    requires j < |Targets(edges, nid)| && Targets(edges, nid)[j] in keys
    requires DegreesMid(edges, keys, inDegree, done, Targets(edges, nid)[..j])
    requires FrontierMatches(keys, inDegree, order, queue)
    requires InCount(edges, Targets(edges, nid)[j], done) - multiset(Targets(edges, nid)[..j])[Targets(edges, nid)[j]] >= 1
    ensures var t := Targets(edges, nid)[j];
            && t in inDegree
            && DegreesMid(edges, keys, inDegree[t := inDegree[t] - 1], done, Targets(edges, nid)[..j + 1])
            && FrontierMatches(keys, inDegree[t := inDegree[t] - 1], order, if inDegree[t] == 1 then queue + [t] else queue)
  {
    var ts := Targets(edges, nid);
    var t := ts[j];
    assert ts[..j + 1] == ts[..j] + [t];
    assert multiset(ts[..j + 1]) == multiset(ts[..j]) + multiset{t};
    FrontierGrows(keys, inDegree, order, queue, t);
  }

  /** The inner loop: lower the degree of every target of nid, queueing those that reach zero. */
  method Relax(ghost edges: seq<EdgeDef>, ghost keys: seq<NodeId>, ghost nid: NodeId, ts: seq<NodeId>, ghost order: seq<NodeId>,
               inDegree0: map<NodeId, int>, queue0: seq<NodeId>, ghost done: set<NodeId>)
    returns (inDegree: map<NodeId, int>, queue: seq<NodeId>)
    requires KnownEndpoints(edges, Elements(keys)) && nid !in done && ts == Targets(edges, nid)
    requires DegreesMatch(edges, keys, inDegree0, done)
    requires FrontierMatches(keys, inDegree0, order, queue0)
    ensures DegreesMatch(edges, keys, inDegree, done + {nid})
    ensures FrontierMatches(keys, inDegree, order, queue)
  {
    inDegree, queue := inDegree0, queue0;
    for j := 0 to |ts|
      invariant DegreesMid(edges, keys, inDegree, done, ts[..j])
      invariant FrontierMatches(keys, inDegree, order, queue)
    {
      var t := ts[j];
      TargetKnown(edges, nid, Elements(keys), j);
      DegreeLeft(edges, t, done, nid, j);
      RelaxStep(edges, keys, nid, order, inDegree, queue, done, j);
      inDegree := inDegree[t := inDegree[t] - 1];
      if inDegree[t] == 0 {
        queue := queue + [t];
      }
    }
    assert ts[..|ts|] == ts;
    forall k | k in keys ensures inDegree[k] == InCount(edges, k, done + {nid}) {
      InCountFinish(edges, k, done, nid);
    }
  }

  method AssertAcyclic(g: GraphDef) returns (r: Result<(), DslError>, ghost order: seq<NodeId>)
    requires KnownEndpoints(g.edges, Elements(NodeIds(g.nodes)))
    ensures r == if AcyclicGraph(g) then Ok(()) else Err(CycleFound)
    ensures Distinct(order) && SourcesFirst(g.edges, order)
    ensures Elements(order) <= Elements(NodeIds(g.nodes))
    ensures r.Ok? ==> Elements(order) == Elements(NodeIds(g.nodes)) && |order| == |g.nodes|
  {
    var keys, inDegree, adj := CountDegrees(g);
    var queue := ZeroDegrees(keys, inDegree);
    var visited := 0;
    order := [];
    assert order + queue == queue && Elements(order) == {};
    while queue != []
      invariant visited == |order|
      invariant DegreesMatch(g.edges, keys, inDegree, Elements(order))
      invariant FrontierMatches(keys, inDegree, order, queue)
      invariant SourcesFirst(g.edges, order)
      decreases |keys| - visited
    {
      var nid := queue[0];
      PopFacts(g.edges, keys, inDegree, order, queue);
      queue := queue[1..];
      visited := visited + 1;
      ghost var done := Elements(order);
      order := order + [nid];
      inDegree, queue := Relax(g.edges, keys, nid, adj[nid], order, inDegree, queue, done);
      assert Elements(order) == done + {nid};
    }
    assert order + queue == order;
    Verdict(g, keys, inDegree, order);
    if visited != |g.nodes| {
      return Err(CycleFound), order;
    }
    return Ok(()), order;
  }

  /** Popping the head of the queue keeps the frontier and extends a topological prefix. */
  lemma PopFacts(edges: seq<EdgeDef>, keys: seq<NodeId>, inDegree: map<NodeId, int>, order: seq<NodeId>, queue: seq<NodeId>)
    requires queue != []
    requires DegreesMatch(edges, keys, inDegree, Elements(order))
    requires FrontierMatches(keys, inDegree, order, queue)
    requires SourcesFirst(edges, order)
    ensures queue[0] in keys && queue[0] !in Elements(order)
    ensures FrontierMatches(keys, inDegree, order + [queue[0]], queue[1..])
    ensures SourcesFirst(edges, order + [queue[0]])
    ensures |order| < |keys|
  {
    var nid := queue[0];
    assert (order + queue)[|order|] == nid && nid in Elements(order + queue);
    assert order + [nid] + queue[1..] == order + queue;
    DistinctBound(order + queue, keys);
    PopKeepsSourcesFirst(edges, keys, inDegree, order, nid);
    forall i | 0 <= i < |order| ensures order[i] != nid {
      assert (order + queue)[i] == order[i];
    }
  }

  lemma DistinctBound(s: seq<NodeId>, keys: seq<NodeId>)
    requires Distinct(s) && Elements(s) <= Elements(keys)
    ensures |s| <= |keys|
  {
    DistinctSize(s);
    ElementsSize(keys);
    SubsetSize(Elements(s), Elements(keys));
  }

  lemma PopKeepsSourcesFirst(edges: seq<EdgeDef>, keys: seq<NodeId>, inDegree: map<NodeId, int>, order: seq<NodeId>, nid: NodeId)
    requires DegreesMatch(edges, keys, inDegree, Elements(order))
    requires nid in keys && inDegree[nid] == 0
    requires SourcesFirst(edges, order)
    ensures SourcesFirst(edges, order + [nid])
  {
    InCountZero(edges, nid, Elements(order));
    var next := order + [nid];
    forall i, k | 0 <= i < |next| && 0 <= k < |edges| && edges[k].target == next[i]
      ensures edges[k].source in next[..i]
    {
      if i < |order| {
        assert next[..i] == order[..i];
      } else {
        assert next[..i] == order;
      }
    }
  }

  lemma TargetKnown(edges: seq<EdgeDef>, nid: NodeId, ids: set<NodeId>, j: nat)
    requires KnownEndpoints(edges, ids) && j < |Targets(edges, nid)|
    ensures Targets(edges, nid)[j] in ids
  {
    TargetsAreTargets(edges, nid);
    assert HasEdge(edges, nid, Targets(edges, nid)[j]);
  }

  /** A target still to be relaxed has a positive remaining count. */
  lemma CountPast(ts: seq<NodeId>, j: nat)
    requires j < |ts|
    ensures multiset(ts)[ts[j]] >= multiset(ts[..j])[ts[j]] + 1
  {
    var (front, t, rest) := (ts[..j], ts[j], ts[j + 1..]);
    assert ts == front + [t] + rest;
    assert multiset(ts) == multiset(front) + multiset{t} + multiset(rest);
  }

  lemma DegreeLeft(edges: seq<EdgeDef>, t: NodeId, done: set<NodeId>, nid: NodeId, j: nat)
    requires nid !in done && j < |Targets(edges, nid)| && Targets(edges, nid)[j] == t
    ensures InCount(edges, t, done) - multiset(Targets(edges, nid)[..j])[t] >= 1
  {
    InCountFinish(edges, t, done, nid);
    CountPast(Targets(edges, nid), j);
  }

  /** When the queue is empty, having popped as many nodes as the graph lists decides acyclicity. */
  lemma Verdict(g: GraphDef, keys: seq<NodeId>, inDegree: map<NodeId, int>, order: seq<NodeId>)
    requires KnownEndpoints(g.edges, Elements(NodeIds(g.nodes)))
    requires Elements(keys) == Elements(NodeIds(g.nodes))
    requires DegreesMatch(g.edges, keys, inDegree, Elements(order))
    requires FrontierMatches(keys, inDegree, order, []) && Distinct(order)
    requires SourcesFirst(g.edges, order)
    ensures |order| == |g.nodes| <==> AcyclicGraph(g)
    ensures |order| == |g.nodes| ==> Elements(order) == Elements(keys)
  {
    assert order + [] == order;
    var ids := NodeIds(g.nodes);
    DistinctSize(order);
    ElementsSize(ids);
    SubsetSize(Elements(order), Elements(ids));
    if |order| == |g.nodes| {
      SourcesFirstIsAcyclic(g.edges, order);
    } else if AcyclicGraph(g) {
      var stuck := Elements(keys) - Elements(order);
      forall x | x in stuck ensures HasPredecessorIn(g.edges, stuck, x) {
        InCountZero(g.edges, x, Elements(order));
        assert inDegree[x] != 0;
        var k :| 0 <= k < |g.edges| && g.edges[k].target == x && g.edges[k].source !in Elements(order);
        assert g.edges[k].source in stuck && HasEdge(g.edges, g.edges[k].source, x);
      }
      if Elements(ids) <= Elements(order) {
        SubsetSize(Elements(ids), Elements(order));
        assert false;
      }
      var w :| w in Elements(ids) && w !in Elements(order);
      assert w in stuck;
      StuckIsCyclic(g.edges, stuck);
      assert false;
    }
  }
}
