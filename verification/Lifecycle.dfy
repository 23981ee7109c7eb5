/** The workflow services over mutable tables, each method proved to take the step its specification prescribes. */
module Lifecycle {
  import opened Wrappers
  import opened DslSchema
  import opened DslGate
  import opened LifecycleSpec

  class WorkflowService {
    var workflows: map<nat, Workflow>
    var versions: map<VersionKey, RawDsl>
    var executions: map<nat, Execution>
    var nextId: nat

    function State(): Db
      reads this
    {
      Db(workflows, versions, executions, nextId)
    }

    constructor ()
      ensures State() == EMPTY_DB
    {
      workflows, versions, executions, nextId := map[], map[], map[], 0;
    }

    method Create(name: string, graph: RawDsl) returns (r: Result<nat, WorkflowError>)
      modifies this
      ensures (State(), r) == Step(old(State()), Op.Create(name, graph))
    {
      var shape := ParseLoose(graph);
      if shape.Err? {
        return Err(Invalid(shape.error));
      }
      var graphData := graph;
      if !HasAnyNode(graph) {
        graphData := SEED_GRAPH;
      }
      var id := nextId;
      workflows := workflows[id := Workflow(name, 0, Draft, graphData, None)];
      nextId := nextId + 1;
      return Ok(id);
    }

    method Update(id: nat, newName: Option<string>, graph: RawDsl) returns (r: Result<nat, WorkflowError>)
      modifies this`workflows
      ensures (State(), r) == Step(old(State()), Op.Update(id, newName, graph))
    {
      if id !in workflows {
        return Err(WorkflowNotFound);
      }
      var wf := workflows[id];
      if graph != Null {
        var shape := ParseLoose(graph);
        if shape.Err? {
          return Err(Invalid(shape.error));
        }
        wf := wf.(graphData := graph);
      }
      if newName.Some? {
        wf := wf.(name := newName.value);
      }
      workflows := workflows[id := wf];
      return Ok(id);
    }

    method Publish(id: nat) returns (r: Result<nat, WorkflowError>)
      modifies this`workflows, this`versions
      ensures (State(), r) == Step(old(State()), Op.Publish(id))
    {
      if id !in workflows {
        return Err(WorkflowNotFound);
      }
      var wf := workflows[id];
      var dsl := ParseDsl(wf.graphData);
      if dsl.Err? {
        return Err(Invalid(dsl.error));
      }
      if |dsl.value.graph.nodes| < 2 {
        return Err(Invalid(TooFewNodes));
      }
      var key := VersionKey(id, wf.version + 1);
      if key in versions {
        return Err(DuplicateVersion);
      }
      wf := wf.(version := wf.version + 1, status := Published, publishedGraphData := Some(wf.graphData));
      workflows := workflows[id := wf];
      versions := versions[key := wf.graphData];
      PruneOldVersions(id, KEEP_VERSIONS);
      return Ok(id);
    }

    /** Deletes, one by one, every row of the workflow beyond the newest keep. */
    method PruneOldVersions(id: nat, keep: nat)
      modifies this`versions
      ensures versions == old(versions) - Outdated(old(versions), id, keep)
    {
      var toDelete := Outdated(versions, id, keep);
      var gone: set<VersionKey> := {};
      while toDelete != {}
        invariant toDelete + gone == Outdated(old(versions), id, keep)
        invariant versions == old(versions) - gone
      {
        var k :| k in toDelete;
        toDelete := toDelete - {k};
        gone := gone + {k};
        if k in versions {
          versions := versions - {k};
        }
      }
    }

    method RevertToDraft(id: nat) returns (r: Result<nat, WorkflowError>)
      modifies this`workflows
      ensures (State(), r) == Step(old(State()), Op.RevertToDraft(id))
    {
      if id !in workflows {
        return Err(WorkflowNotFound);
      }
      workflows := workflows[id := workflows[id].(status := Draft)];
      return Ok(id);
    }

    method RollbackToDraft(id: nat, version: int) returns (r: Result<nat, WorkflowError>)
      modifies this`workflows
      ensures (State(), r) == Step(old(State()), Op.RollbackToDraft(id, version))
    {
      if id !in workflows {
        return Err(VersionNotFound);
      }
      var row := GetVersion(id, version);
      if row.Err? {
        return Err(row.error);
      }
      workflows := workflows[id := workflows[id].(graphData := row.value, status := Draft)];
      return Ok(id);
    }

    method GetVersion(id: nat, version: int) returns (r: Result<RawDsl, WorkflowError>)
      ensures r == if VersionKey(id, version) in versions then Ok(versions[VersionKey(id, version)]) else Err(VersionNotFound)
    {
      if VersionKey(id, version) !in versions {
        return Err(VersionNotFound);
      }
      return Ok(versions[VersionKey(id, version)]);
    }

    method Delete(id: nat) returns (r: Result<nat, WorkflowError>)
      modifies this
      ensures (State(), r) == Step(old(State()), Op.Delete(id))
    {
      if id !in workflows {
        return Err(WorkflowNotFound);
      }
      workflows := workflows - {id};
      versions := map k | k in versions && k.workflowId != id :: versions[k];
      executions := map e | e in executions && executions[e].workflowId != id :: executions[e];
      return Ok(id);
    }

    method CreateExecution(id: nat, fromDraft: bool) returns (r: Result<nat, WorkflowError>)
      modifies this`executions, this`nextId
      ensures (State(), r) == Step(old(State()), Op.CreateExecution(id, fromDraft))
    {
      if id !in workflows {
        return Err(WorkflowNotPublished);
      }
      var wf := workflows[id];
      if !fromDraft && wf.publishedGraphData.None? {
        return Err(WorkflowNotPublished);
      }
      var row := Execution(id, if fromDraft then 0 else wf.version);
      executions := executions[nextId := row];
      nextId := nextId + 1;
      return Ok(nextId - 1);
    }

    /** The start of run_and_persist: choose the draft or the published cut, then validate it strictly. */
    method LoadGraph(e: Execution) returns (r: Result<WorkflowDsl, DslError>)
      requires e.workflowId in workflows
      ensures r == ParseSpec(GraphSource(State(), e))
      ensures Inv(State()) && e in executions.Values && e.workflowVersion != 0 ==> r.Ok? && |r.value.graph.nodes| >= 2
    {
      var wf := workflows[e.workflowId];
      var source := wf.graphData;
      if e.workflowVersion != 0 {
        source := match wf.publishedGraphData case None => Null case Some(raw) => raw;
      }
      r := ParseDsl(source);
      if Inv(State()) && e in executions.Values && e.workflowVersion != 0 {
        assert PublicationOk(wf) && Runnable(source);
        ParseAccepts(source);
      }
    }
  }
}
