/** Walks, cycles and in-degree counts in a directed multigraph, independent of any algorithm. */
module Acyclicity {
  import opened Sequences
  import opened DslSchema

  ghost predicate HasEdge(edges: seq<EdgeDef>, a: NodeId, b: NodeId) {
    exists k :: 0 <= k < |edges| && edges[k].source == a && edges[k].target == b
  }

  ghost predicate StepAt(edges: seq<EdgeDef>, p: seq<NodeId>, i: int)
    requires 0 <= i < |p| - 1
  {
    HasEdge(edges, p[i], p[i + 1])
  }

  ghost predicate IsWalk(edges: seq<EdgeDef>, p: seq<NodeId>) {
    forall i :: 0 <= i < |p| - 1 ==> StepAt(edges, p, i)
  }

  ghost predicate IsCycle(edges: seq<EdgeDef>, p: seq<NodeId>) {
    |p| >= 2 && p[0] == p[|p| - 1] && IsWalk(edges, p)
  }

  /** No closed walk of positive length; a self-loop is one. */
  ghost predicate Acyclic(edges: seq<EdgeDef>) {
    forall p :: !IsCycle(edges, p)
  }

  ghost predicate KnownEndpoints(edges: seq<EdgeDef>, ids: set<NodeId>) {
    forall k :: 0 <= k < |edges| ==> edges[k].source in ids && edges[k].target in ids
  }

  /** Every edge into a listed node comes from a node listed strictly earlier. */
  ghost predicate SourcesFirst(edges: seq<EdgeDef>, order: seq<NodeId>) {
    forall i, k :: 0 <= i < |order| && 0 <= k < |edges| && edges[k].target == order[i] ==> edges[k].source in order[..i]
  }

  /** The number of edges into t whose source is not done. */
  ghost function InCount(edges: seq<EdgeDef>, t: NodeId, done: set<NodeId>): nat {
    if edges == [] then 0
    else
      var e := edges[|edges| - 1];
      InCount(edges[..|edges| - 1], t, done) + (if e.target == t && e.source !in done then 1 else 0)
  }

  /** The targets of the edges leaving s, in edge order. */
  ghost function Targets(edges: seq<EdgeDef>, s: NodeId): seq<NodeId> {
    if edges == [] then []
    else
      var e := edges[|edges| - 1];
      Targets(edges[..|edges| - 1], s) + (if e.source == s then [e.target] else [])
  }

  lemma {:induction false} TargetsAreTargets(edges: seq<EdgeDef>, s: NodeId)
    ensures forall i :: 0 <= i < |Targets(edges, s)| ==> HasEdge(edges, s, Targets(edges, s)[i])
  {
    if edges != [] {
      var n := |edges| - 1;
      TargetsAreTargets(edges[..n], s);
      forall i | 0 <= i < |Targets(edges, s)| ensures HasEdge(edges, s, Targets(edges, s)[i]) {
        var before := Targets(edges[..n], s);
        if i < |before| {
          var k :| 0 <= k < n && edges[..n][k].source == s && edges[..n][k].target == before[i];
          assert edges[k].source == s && edges[k].target == before[i];
        } else {
          assert edges[n].source == s && edges[n].target == Targets(edges, s)[i];
        }
      }
    }
  }

  lemma {:induction false} InCountZero(edges: seq<EdgeDef>, t: NodeId, done: set<NodeId>)
    ensures InCount(edges, t, done) == 0 <==>
            forall k :: 0 <= k < |edges| && edges[k].target == t ==> edges[k].source in done
  {
    if edges != [] {
      var n := |edges| - 1;
      InCountZero(edges[..n], t, done);
      if InCount(edges, t, done) == 0 {
        forall k | 0 <= k < |edges| && edges[k].target == t ensures edges[k].source in done {
          if k < n { assert edges[..n][k] == edges[k]; }
        }
      } else if forall k :: 0 <= k < |edges| && edges[k].target == t ==> edges[k].source in done {
        assert edges[n].target == t ==> edges[n].source in done;
        forall k | 0 <= k < n && edges[..n][k].target == t ensures edges[..n][k].source in done {
          assert edges[k] == edges[..n][k];
        }
        assert false;
      }
    }
  }

  /** Finishing a node removes exactly its own out-edges from every count. */
  lemma {:induction false} InCountFinish(edges: seq<EdgeDef>, t: NodeId, done: set<NodeId>, s: NodeId)
    requires s !in done
    ensures InCount(edges, t, done + {s}) + multiset(Targets(edges, s))[t] == InCount(edges, t, done)
  {
    if edges != [] {
      var n := |edges| - 1;
      InCountFinish(edges[..n], t, done, s);
      var before := Targets(edges[..n], s);
      if edges[n].source == s {
        assert multiset(before + [edges[n].target]) == multiset(before) + multiset{edges[n].target};
      } else {
        assert Targets(edges, s) == before;
      }
    }
  }

  ghost function IndexOf(order: seq<NodeId>, x: NodeId): nat
    requires x in order
    ensures IndexOf(order, x) < |order| && order[IndexOf(order, x)] == x
  {
    var i :| 0 <= i < |order| && order[i] == x;
    i
  }

  lemma {:induction false} WalkClimbs(edges: seq<EdgeDef>, order: seq<NodeId>, p: seq<NodeId>, n: nat)
    requires Distinct(order) && SourcesFirst(edges, order)
    requires KnownEndpoints(edges, Elements(order))
    requires IsWalk(edges, p) && 0 < n < |p|
    ensures p[0] in order && p[n] in order && IndexOf(order, p[0]) < IndexOf(order, p[n])
  {
    assert StepAt(edges, p, n - 1);
    var k :| 0 <= k < |edges| && edges[k].source == p[n - 1] && edges[k].target == p[n];
    assert p[n - 1] in Elements(order) && p[n] in Elements(order);
    var i := IndexOf(order, p[n]);
    assert edges[k].source in order[..i];
    var j :| 0 <= j < i && order[j] == p[n - 1];
    assert IndexOf(order, p[n - 1]) == j;
    if n > 1 { WalkClimbs(edges, order, p, n - 1); }
  }

  lemma SourcesFirstIsAcyclic(edges: seq<EdgeDef>, order: seq<NodeId>)
    requires Distinct(order) && SourcesFirst(edges, order)
    requires KnownEndpoints(edges, Elements(order))
    ensures Acyclic(edges)
  {
    forall p ensures !IsCycle(edges, p) {
      if IsCycle(edges, p) {
        WalkClimbs(edges, order, p, |p| - 1);
        assert false;
      }
    }
  }

  ghost predicate HasPredecessorIn(edges: seq<EdgeDef>, pool: set<NodeId>, x: NodeId) {
    exists y :: y in pool && HasEdge(edges, y, x)
  }

  /** A walk of any length that stays in a set whose members all have predecessors in it. */
  lemma BackwardWalk(edges: seq<EdgeDef>, stuck: set<NodeId>, n: nat) returns (p: seq<NodeId>)
    requires stuck != {}
    requires forall x {:trigger HasPredecessorIn(edges, stuck, x)} :: x in stuck ==> HasPredecessorIn(edges, stuck, x)
    ensures |p| == n + 1 && IsWalk(edges, p)
    ensures forall i :: 0 <= i < |p| ==> p[i] in stuck
  {
    if n == 0 {
      var x :| x in stuck;
      p := [x];
    } else {
      var q := BackwardWalk(edges, stuck, n - 1);
      assert HasPredecessorIn(edges, stuck, q[0]);
      var y :| y in stuck && HasEdge(edges, y, q[0]);
      p := [y] + q;
      forall i | 0 <= i < |p| - 1 ensures StepAt(edges, p, i) {
        if i > 0 { assert StepAt(edges, q, i - 1); }
      }
    }
  }

  lemma StuckIsCyclic(edges: seq<EdgeDef>, stuck: set<NodeId>)
    requires stuck != {}
    requires forall x {:trigger HasPredecessorIn(edges, stuck, x)} :: x in stuck ==> HasPredecessorIn(edges, stuck, x)
    ensures !Acyclic(edges)
  {
    var p := BackwardWalk(edges, stuck, |stuck|);
    var i, j := Pigeonhole(p, stuck);
    var c := p[i..j + 1];
    forall k | 0 <= k < |c| - 1 ensures StepAt(edges, c, k) {
      assert StepAt(edges, p, i + k);
    }
    assert IsCycle(edges, c);
  }
}
