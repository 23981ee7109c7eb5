/**
 What each lifecycle call leaves in the tables, told by the rows themselves, and the way of a graph from the editor to an
 execution (app/workflow/service.py, version_service.py, execution_service.py).
 */
module LifecycleEffects {
  import opened Wrappers
  import opened DslSchema
  import opened DslGate
  import opened LifecycleSpec
  import opened LifecycleRuns

  /** No table changes but the row of workflow id. */
  ghost predicate OnlyRow(db: Db, db': Db, id: nat) {
    && db'.workflows.Keys == db.workflows.Keys && (forall i :: i in db.workflows && i != id ==> db'.workflows[i] == db.workflows[i])
    && db'.versions == db.versions && db'.executions == db.executions && db'.nextId == db.nextId
  }

  /** Exactly one workflow is new, under a fresh id. */
  ghost predicate OneMore(db: Db, db': Db, id: nat) {
    && id !in db.workflows && db'.workflows.Keys == db.workflows.Keys + {id}
    && (forall i :: i in db.workflows ==> db'.workflows[i] == db.workflows[i])
    && db'.versions == db.versions && db'.executions == db.executions
  }

  // --- Single calls ---

  /** A new workflow is an unpublished draft of the given graph, or of a lone start node if that has no node. */
  lemma CreateStores(db: Db, name: string, graph: RawDsl)
    requires Inv(db)
    ensures var (db', r) := Step(db, Create(name, graph));
            && (r.Ok? <==> !graph.Misshapen?)
            && (r.Err? ==> db' == db && r.error == Invalid(ShapeError))
            && (r.Ok? ==>
                  && OneMore(db, db', r.value)
                  && var wf := db'.workflows[r.value];
                  && wf.name == name && wf.version == 0 && wf.status == Draft && wf.publishedGraphData.None?
                  && (graph.Shaped? && graph.dsl.graph.nodes != [] ==> wf.graphData == graph)
                  && (!graph.Shaped? || graph.dsl.graph.nodes == [] ==>
                        wf.graphData.Shaped? && var g := wf.graphData.dsl.graph;
                        |g.nodes| == 1 && g.nodes[0].nodeType == "start" && g.edges == []))
  {
    assert db.nextId !in db.workflows;
  }

  /** Saving stores the graph and the name that are given, and nothing else. */
  lemma UpdateStores(db: Db, id: nat, newName: Option<string>, graph: RawDsl)
    ensures var (db', r) := Step(db, Update(id, newName, graph));
            && (r.Ok? <==> id in db.workflows && !graph.Misshapen?)
            && (r.Err? ==> db' == db && r.error == if id in db.workflows then Invalid(ShapeError) else WorkflowNotFound)
            && (r.Ok? ==>
                  && r.value == id && OnlyRow(db, db', id)
                  && var (was, now) := (db.workflows[id], db'.workflows[id]);
                  && now.graphData == (if graph == Null then was.graphData else graph)
                  && now.name == (if newName.Some? then newName.value else was.name)
                  && now.status == was.status && now.version == was.version && now.publishedGraphData == was.publishedGraphData)
  {
    assert Step(db, Update(id, newName, graph)) == UpdateStep(db, id, newName, graph);
  }

  lemma RevertStores(db: Db, id: nat)
    ensures var (db', r) := Step(db, RevertToDraft(id));
            && (r.Ok? <==> id in db.workflows)
            && (r.Err? ==> db' == db && r.error == WorkflowNotFound)
            && (r.Ok? ==>
                  && r.value == id && OnlyRow(db, db', id)
                  && var (was, now) := (db.workflows[id], db'.workflows[id]);
                  && now.status == Draft && now.name == was.name && now.graphData == was.graphData
                  && now.version == was.version && now.publishedGraphData == was.publishedGraphData)
  {
  }

  /** Rolling back puts the graph of the version row in the draft and leaves the publication alone. */
  lemma RollbackStores(db: Db, id: nat, version: int)
    ensures var (db', r) := Step(db, RollbackToDraft(id, version));
            && (r.Ok? <==> id in db.workflows && VersionKey(id, version) in db.versions)
            && (r.Err? ==> db' == db && r.error == VersionNotFound)
            && (r.Ok? ==>
                  && r.value == id && OnlyRow(db, db', id)
                  && var (was, now) := (db.workflows[id], db'.workflows[id]);
                  && now.graphData == db.versions[VersionKey(id, version)] && now.status == Draft && now.name == was.name
                  && now.version == was.version && now.publishedGraphData == was.publishedGraphData)
  {
    assert Step(db, RollbackToDraft(id, version)) == RollbackStep(db, id, version);
  }

  /** Deleting takes the workflow, its version rows and its executions, and nothing of any other workflow. */
  lemma DeleteStores(db: Db, id: nat)
    ensures var (db', r) := Step(db, Delete(id));
            && (r.Ok? <==> id in db.workflows)
            && (r.Err? ==> db' == db && r.error == WorkflowNotFound)
            && (r.Ok? ==>
                  && (forall i :: i in db'.workflows <==> i in db.workflows && i != id)
                  && (forall i :: i in db'.workflows ==> db'.workflows[i] == db.workflows[i])
                  && (forall k :: k in db'.versions <==> k in db.versions && k.workflowId != id)
                  && (forall k :: k in db'.versions ==> db'.versions[k] == db.versions[k])
                  && (forall e :: e in db'.executions <==> e in db.executions && db.executions[e].workflowId != id)
                  && (forall e :: e in db'.executions ==> db'.executions[e] == db.executions[e]))
  {
    assert Step(db, Delete(id)) == DeleteStep(db, id);
  }

  /** An execution records its workflow, and the version that is current, or 0 for a draft run. */
  lemma ExecutionStores(db: Db, id: nat, fromDraft: bool)
    requires Inv(db)
    ensures var (db', r) := Step(db, CreateExecution(id, fromDraft));
            && (r.Ok? <==> id in db.workflows && (fromDraft || db.workflows[id].publishedGraphData.Some?))
            && (r.Err? ==> db' == db && r.error == WorkflowNotPublished)
            && (r.Ok? ==>
                  && r.value !in db.executions && db'.executions.Keys == db.executions.Keys + {r.value}
                  && (forall e :: e in db.executions ==> db'.executions[e] == db.executions[e])
                  && db'.executions[r.value].workflowId == id
                  && db'.executions[r.value].workflowVersion == (if fromDraft then 0 else db.workflows[id].version)
                  && db'.workflows == db.workflows && db'.versions == db.versions)
  {
    assert Step(db, CreateExecution(id, fromDraft)) == ExecutionStep(db, id, fromDraft);
    assert db.nextId !in db.executions;
  }

  /** Why publishing is refused: no such workflow, the first fault of its draft, or a draft that is sound but too small. */
  ghost function PublishFault(db: Db, id: nat): WorkflowError {
    if id !in db.workflows then WorkflowNotFound
    else if ParseSpec(db.workflows[id].graphData).Err? then Invalid(ParseSpec(db.workflows[id].graphData).error)
    else Invalid(TooFewNodes)
  }

  /** Publishing succeeds exactly for a well-structured draft of two nodes or more. */
  lemma PublishSucceedsIff(db: Db, id: nat)
    requires Inv(db)
    ensures var (db', r) := Step(db, Publish(id));
            && (r.Ok? <==> id in db.workflows && Runnable(db.workflows[id].graphData))
            && (r.Err? ==> db' == db && r.error == PublishFault(db, id))
  {
    if id in db.workflows {
      ParseAccepts(db.workflows[id].graphData);
      RowsAreOk(db, id);
      assert VersionKey(id, db.workflows[id].version + 1) !in db.versions;
    }
  }

  /** No workflow but id changes, and no execution. */
  ghost predicate OthersStay(db: Db, db': Db, id: nat) {
    && db'.workflows.Keys == db.workflows.Keys && (forall i :: i in db.workflows && i != id ==> db'.workflows[i] == db.workflows[i])
    && db'.executions == db.executions
  }

  /** The draft has become the publication and the newest version row. */
  ghost predicate Promoted(db: Db, db': Db, id: nat)
    requires id in db.workflows && id in db'.workflows
  {
    var (was, now) := (db.workflows[id], db'.workflows[id]);
    && now.publishedGraphData == Some(was.graphData) && now.version == was.version + 1 && now.status == Published
    && now.graphData == was.graphData && now.name == was.name
    && var key := VersionKey(id, was.version + 1);
    && key in db'.versions && db'.versions[key] == was.graphData
  }

  lemma PublishFrame(db: Db, id: nat, db': Db)
    requires PublishStep(db, id) == (db', Ok(id))
    ensures id in db.workflows && OthersStay(db, db', id) && id in db'.workflows
    ensures var (was, now) := (db.workflows[id], db'.workflows[id]);
            now.status == Published && now.graphData == was.graphData && now.name == was.name
  {
  }

  lemma Promotes(db: Db, id: nat, db': Db)
    requires PublishStep(db, id) == (db', Ok(id)) && id in db.workflows
    requires PublicationOk(db.workflows[id]) && WindowOk(db.workflows[id], db.versions, id)
    ensures id in db'.workflows && OthersStay(db, db', id) && Promoted(db, db', id)
  {
    PublishFrame(db, id, db');
    PublishesTheDraft(db, id);
  }

  /** Publishing such a draft makes it the publication and the newest version row, and leaves every other workflow alone. */
  lemma PublishStores(db: Db, id: nat)
    requires Inv(db) && id in db.workflows && Runnable(db.workflows[id].graphData)
    ensures var (db', r) := Step(db, Publish(id));
            r == Ok(id) && OthersStay(db, db', id) && Promoted(db, db', id)
  {
    PublishSucceedsIff(db, id);
    PublishNamesTheWorkflow(db, id);
    RowsAreOk(db, id);
    Promotes(db, id, Step(db, Publish(id)).0);
  }

  lemma PublishNamesTheWorkflow(db: Db, id: nat)
    ensures PublishStep(db, id).1.Ok? ==> PublishStep(db, id).1.value == id
  {
  }

  // --- From the editor to an execution ---

  /** The operations that replace the draft of a workflow, or take the workflow away. */
  predicate ReplacesDraft(op: Op, id: nat) {
    || (op.Update? && op.id == id && op.graph != Null)
    || (op.RollbackToDraft? && op.id == id)
    || (op.Delete? && op.id == id)
  }

  lemma StepKeepsDraft(db: Db, op: Op, id: nat)
    requires Inv(db) && id in db.workflows && !ReplacesDraft(op, id)
    ensures id in Step(db, op).0.workflows && Step(db, op).0.workflows[id].graphData == db.workflows[id].graphData
  {
    match op
    case Create(name, graph) => CreateStores(db, name, graph);
    case Update(i, newName, graph) => UpdateStores(db, i, newName, graph);
    case Publish(i) =>
      PublishSucceedsIff(db, i);
      if Step(db, Publish(i)).1.Ok? { PublishStores(db, i); }
    case RevertToDraft(i) => RevertStores(db, i);
    case RollbackToDraft(i, version) => RollbackStores(db, i, version);
    case Delete(i) => DeleteStores(db, i);
    case CreateExecution(i, fromDraft) => ExecutionStores(db, i, fromDraft);
  }

  lemma {:induction false} RunKeepsDraft(db: Db, more: seq<Op>, id: nat)
    requires Inv(db) && id in db.workflows
    requires forall op :: op in more ==> !ReplacesDraft(op, id)
    ensures Inv(Run(db, more)) && id in Run(db, more).workflows
    ensures Run(db, more).workflows[id].graphData == db.workflows[id].graphData
  {
    if more != [] {
      var n := |more| - 1;
      RunKeepsDraft(db, more[..n], id);
      StepKeepsInv(Run(db, more[..n]), more[n]);
      StepKeepsDraft(Run(db, more[..n]), more[n], id);
    }
  }

  /** A draft run executes the graph that was last saved, and a publish publishes it, exactly if it is runnable. */
  lemma {:induction false} SavedIsTheDraft(ops: seq<Op>, id: nat, newName: Option<string>, graph: RawDsl, more: seq<Op>)
    requires id in Run(EMPTY_DB, ops).workflows && graph != Null && !graph.Misshapen?
    requires forall op :: op in more ==> !ReplacesDraft(op, id)
    ensures var db := Run(Step(Run(EMPTY_DB, ops), Update(id, newName, graph)).0, more);
            && Inv(db) && id in db.workflows && GraphSource(db, Execution(id, 0)) == graph
            && var (db', r) := Step(db, Publish(id));
            && (r.Ok? <==> Runnable(graph))
            && (r.Ok? ==> id in db'.workflows && db'.workflows[id].publishedGraphData == Some(graph))
  {
    RunKeepsInv(ops);
    var db0 := Run(EMPTY_DB, ops);
    UpdateStores(db0, id, newName, graph);
    StepKeepsInv(db0, Update(id, newName, graph));
    RunKeepsDraft(Step(db0, Update(id, newName, graph)).0, more, id);
    var db := Run(Step(db0, Update(id, newName, graph)).0, more);
    PublishSucceedsIff(db, id);
    if Runnable(graph) { PublishStores(db, id); }
  }

  /** Until the next publish, every execution that is not a draft run executes the graph that was published. */
  lemma {:induction false} PublishedIsWhatRuns(ops: seq<Op>, id: nat, more: seq<Op>, e: nat)
    requires Step(Run(EMPTY_DB, ops), Publish(id)).1.Ok? && Publish(id) !in more
    requires var db := Run(Step(Run(EMPTY_DB, ops), Publish(id)).0, more);
             e in db.executions && db.executions[e].workflowId == id && db.executions[e].workflowVersion != 0
    ensures id in Run(EMPTY_DB, ops).workflows
    ensures var db := Run(Step(Run(EMPTY_DB, ops), Publish(id)).0, more);
            id in db.workflows && GraphSource(db, db.executions[e]) == Run(EMPTY_DB, ops).workflows[id].graphData
  {
    var db0 := Run(EMPTY_DB, ops);
    RunKeepsInv(ops);
    PublishSucceedsIff(db0, id);
    PublishStores(db0, id);
    StepKeepsInv(db0, Publish(id));
    var all := ops + [Publish(id)];
    assert all[..|ops|] == ops;
    var db1 := Run(EMPTY_DB, all);
    RunFromKeepsInv(db1, more);
    assert id in Run(db1, more).workflows;
    OnlyPublishChangesPublished(all, more, id);
  }
}
