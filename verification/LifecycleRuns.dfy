/** What the publication lifecycle promises over every run. */
module LifecycleRuns {
  import opened Wrappers
  import opened DslSchema
  import opened DslGate
  import opened LifecycleSpec

  /** Published is always runnable: absent with version 0, or version at least 1 and accepted with two nodes or more. */
  lemma {:induction false} PublishedIsRunnable(ops: seq<Op>, id: nat)
    requires id in Run(EMPTY_DB, ops).workflows
    ensures var wf := Run(EMPTY_DB, ops).workflows[id];
            match wf.publishedGraphData
            case None => wf.version == 0 && wf.status == Draft
            case Some(raw) => wf.version >= 1 && ParseSpec(raw).Ok? && |ParseSpec(raw).value.graph.nodes| >= 2
  {
    RunKeepsInv(ops);
    var wf := Run(EMPTY_DB, ops).workflows[id];
    if wf.publishedGraphData.Some? { ParseAccepts(wf.publishedGraphData.value); }
  }

  /** The version rows are exactly the last fifty versions, and the newest one is the published graph. */
  lemma {:induction false} VersionWindow(ops: seq<Op>, id: nat)
    requires id in Run(EMPTY_DB, ops).workflows
    ensures var db := Run(EMPTY_DB, ops);
            var v := db.workflows[id].version;
            && (forall n :: VersionKey(id, n) in db.versions <==> 1 <= n <= v && v - 49 <= n)
            && (v >= 1 ==> db.workflows[id].publishedGraphData == Some(db.versions[VersionKey(id, v)]))
  {
    RunKeepsInv(ops);
    assert WindowOk(Run(EMPTY_DB, ops).workflows[id], Run(EMPTY_DB, ops).versions, id);
  }

  /** Rolling back to version n and publishing succeed, and version n's graph comes out as the next version. */
  ghost predicate CanComeBack(db: Db, id: nat, n: int)
    requires id in db.workflows && VersionKey(id, n) in db.versions
  {
    var (back, r1) := RollbackStep(db, id, n);
    var (again, r2) := PublishStep(back, id);
    var next := VersionKey(id, db.workflows[id].version + 1);
    && r1 == Ok(id) && r2 == Ok(id)
    && id in back.workflows && id in again.workflows
    && back.workflows[id].publishedGraphData == db.workflows[id].publishedGraphData
    && again.workflows[id].version == db.workflows[id].version + 1
    && again.workflows[id].publishedGraphData == Some(db.versions[VersionKey(id, n)])
    && next in again.versions && again.versions[next] == db.versions[VersionKey(id, n)]
  }

  /** Any retained version can be brought back. */
  lemma {:induction false} RollbackThenPublish(ops: seq<Op>, id: nat, n: int)
    requires VersionKey(id, n) in Run(EMPTY_DB, ops).versions
    ensures id in Run(EMPTY_DB, ops).workflows
    ensures CanComeBack(Run(EMPTY_DB, ops), id, n)
  {
    RunKeepsInv(ops);
    assert VersionKey(id, n).workflowId in Run(EMPTY_DB, ops).workflows;
    ComesBack(Run(EMPTY_DB, ops), id, n);
  }

  lemma RollbackSucceeds(db: Db, id: nat, n: int)
    requires Inv(db) && VersionKey(id, n) in db.versions
    ensures RollbackStep(db, id, n).1 == Ok(id)
    ensures PublishStep(RollbackStep(db, id, n).0, id).1 == Ok(id)
  {
    assert WindowOk(db.workflows[id], db.versions, id);
    ParseAccepts(db.versions[VersionKey(id, n)]);
    assert VersionKey(id, db.workflows[id].version + 1) !in db.versions;
  }

  lemma PublishedRow(db: Db, id: nat)
    requires PublishStep(db, id).1.Ok?
    ensures var again := PublishStep(db, id).0;
            && id in db.workflows && id in again.workflows
            && var wf, wf' := db.workflows[id], again.workflows[id];
            wf'.version == wf.version + 1 && wf'.publishedGraphData == Some(wf.graphData)
  {
  }

  lemma PublishesTheDraft(db: Db, id: nat)
    requires id in db.workflows && PublicationOk(db.workflows[id]) && WindowOk(db.workflows[id], db.versions, id)
    requires PublishStep(db, id).1.Ok?
    ensures id in PublishStep(db, id).0.workflows
    ensures var wf, again := db.workflows[id], PublishStep(db, id).0;
            var key := VersionKey(id, wf.version + 1);
            && again.workflows[id].version == wf.version + 1 && again.workflows[id].publishedGraphData == Some(wf.graphData)
            && key in again.versions && again.versions[key] == wf.graphData
  {
    PublishedRow(db, id);
    PublishWindow(db, id);
  }

  lemma RowsAreOk(db: Db, id: nat)
    requires Inv(db) && id in db.workflows
    ensures PublicationOk(db.workflows[id]) && WindowOk(db.workflows[id], db.versions, id)
  {
  }

  lemma RolledBack(db: Db, id: nat, n: int)
    requires RollbackStep(db, id, n).1.Ok?
    ensures var back := RollbackStep(db, id, n).0;
            && id in db.workflows && id in back.workflows && VersionKey(id, n) in db.versions
            && back.workflows[id].version == db.workflows[id].version
            && back.workflows[id].graphData == db.versions[VersionKey(id, n)]
  {
  }

  lemma RollbackPublishes(db: Db, id: nat, n: int, back: Db)
    requires RollbackStep(db, id, n) == (back, Ok(id)) && PublishStep(back, id).1.Ok? && id in back.workflows
    requires PublicationOk(back.workflows[id]) && WindowOk(back.workflows[id], back.versions, id)
    ensures id in db.workflows && id in PublishStep(back, id).0.workflows && VersionKey(id, n) in db.versions
    ensures var key, again := VersionKey(id, db.workflows[id].version + 1), PublishStep(back, id).0;
            && again.workflows[id].version == db.workflows[id].version + 1
            && again.workflows[id].publishedGraphData == Some(db.versions[VersionKey(id, n)])
            && key in again.versions && again.versions[key] == db.versions[VersionKey(id, n)]
  {
    RolledBack(db, id, n);
    PublishesTheDraft(back, id);
  }

  lemma ComesBack(db: Db, id: nat, n: int)
    requires Inv(db) && VersionKey(id, n) in db.versions && id in db.workflows
    ensures CanComeBack(db, id, n)
  {
    RollbackSucceeds(db, id, n);
    var back := RollbackStep(db, id, n).0;
    RollbackKeepsInv(db, id, n);
    RolledBack(db, id, n);
    RowsAreOk(back, id);
    RollbackPublishes(db, id, n, back);
    assert back.workflows[id].publishedGraphData == db.workflows[id].publishedGraphData;
    assert id in PublishStep(back, id).0.workflows;
  }

  /** Version 0 marks exactly the draft runs. */
  lemma {:induction false} ZeroMarksDraftRuns(ops: seq<Op>, id: nat, fromDraft: bool)
    requires Step(Run(EMPTY_DB, ops), CreateExecution(id, fromDraft)).1.Ok?
    ensures var s := Step(Run(EMPTY_DB, ops), CreateExecution(id, fromDraft));
            s.0.executions[s.1.value].workflowVersion == 0 <==> fromDraft
  {
    RunKeepsInv(ops);
  }

  /** However the workflow is edited after the execution was created, the gate never refuses a non-draft run. */
  lemma {:induction false} NonDraftRunParses(ops: seq<Op>, e: nat)
    requires e in Run(EMPTY_DB, ops).executions
    requires Run(EMPTY_DB, ops).executions[e].workflowVersion != 0
    ensures var db := Run(EMPTY_DB, ops);
            && db.executions[e].workflowId in db.workflows
            && Runnable(GraphSource(db, db.executions[e]))
            && ParseSpec(GraphSource(db, db.executions[e])).Ok?
  {
    RunKeepsInv(ops);
    var db := Run(EMPTY_DB, ops);
    ParseAccepts(GraphSource(db, db.executions[e]));
  }

  lemma {:induction false} RunFromKeepsInv(db: Db, more: seq<Op>)
    requires Inv(db)
    ensures Inv(Run(db, more))
  {
    if more != [] {
      RunFromKeepsInv(db, more[..|more| - 1]);
      StepKeepsInv(Run(db, more[..|more| - 1]), more[|more| - 1]);
    }
  }

  /** Ids are never reused: a workflow that existed before and exists after a run existed all along. */
  lemma StepReusesNoId(db: Db, op: Op, id: nat)
    requires id < db.nextId
    ensures id < Step(db, op).0.nextId
    ensures id in Step(db, op).0.workflows ==> id in db.workflows
  {
  }

  lemma {:induction false} RunReusesNoId(db: Db, more: seq<Op>, id: nat)
    requires id < db.nextId
    ensures id < Run(db, more).nextId
  {
    if more != [] {
      RunReusesNoId(db, more[..|more| - 1], id);
      StepReusesNoId(Run(db, more[..|more| - 1]), more[|more| - 1], id);
    }
  }

  /** The effect of one step on a workflow that it leaves in place. */
  lemma StepPublication(db: Db, op: Op, id: nat)
    requires id in db.workflows && id < db.nextId && id in Step(db, op).0.workflows
    ensures var was, now := db.workflows[id], Step(db, op).0.workflows[id];
            || (now.publishedGraphData == was.publishedGraphData && now.version == was.version)
            || (op == Publish(id) && now.version == was.version + 1)
  {
    match op
    case Create(name, graph) => assert CreateStep(db, name, graph).0 == Step(db, op).0;
    case Update(i, newName, graph) => assert UpdateStep(db, i, newName, graph).0 == Step(db, op).0;
    case Publish(i) => assert PublishStep(db, i).0 == Step(db, op).0;
    case _ =>
  }

  /** Only publishing changes what is published; saving, reverting and rolling back drafts never does. */
  lemma {:induction false} OnlyPublishChangesPublished(ops: seq<Op>, more: seq<Op>, id: nat)
    requires id in Run(EMPTY_DB, ops).workflows && id in Run(Run(EMPTY_DB, ops), more).workflows
    requires Publish(id) !in more
    ensures var was, now := Run(EMPTY_DB, ops).workflows[id], Run(Run(EMPTY_DB, ops), more).workflows[id];
            now.publishedGraphData == was.publishedGraphData && now.version == was.version
  {
    RunKeepsInv(ops);
    if more != [] {
      var db := Run(EMPTY_DB, ops);
      var n := |more| - 1;
      var mid := Run(db, more[..n]);
      RunReusesNoId(db, more[..n], id);
      StepReusesNoId(mid, more[n], id);
      OnlyPublishChangesPublished(ops, more[..n], id);
      StepPublication(mid, more[n], id);
      assert more[n] != Publish(id);
    }
  }

  lemma PublishKeepsRows(db: Db, id: nat, k: VersionKey)
    requires Inv(db) && k.workflowId in db.workflows && k.version <= db.workflows[k.workflowId].version
    requires k in PublishStep(db, id).0.versions
    ensures k in db.versions && PublishStep(db, id).0.versions[k] == db.versions[k]
  {
    if PublishStep(db, id).1.Ok? {
      assert PublicationOk(db.workflows[id]);
      PublishWindow(db, id);
      assert k == VersionKey(k.workflowId, k.version);
    }
  }

  /** One step never rewrites a version row, and a dropped version is never written again. */
  lemma StepKeepsRows(db: Db, op: Op, k: VersionKey)
    requires Inv(db) && k.workflowId in db.workflows && k.version <= db.workflows[k.workflowId].version
    requires k in Step(db, op).0.versions
    ensures k in db.versions && Step(db, op).0.versions[k] == db.versions[k]
  {
    match op
    case Publish(id) => PublishKeepsRows(db, id, k);
    case Create(name, graph) => assert CreateStep(db, name, graph).0 == Step(db, op).0;
    case Update(id, newName, graph) => assert UpdateStep(db, id, newName, graph).0 == Step(db, op).0;
    case _ =>
  }

  /** A version row never changes: as long as it is retained it holds the graph that was published. */
  lemma {:induction false} VersionRowsAreImmutable(ops: seq<Op>, more: seq<Op>, k: VersionKey)
    requires k in Run(EMPTY_DB, ops).versions && k in Run(Run(EMPTY_DB, ops), more).versions
    ensures Run(Run(EMPTY_DB, ops), more).versions[k] == Run(EMPTY_DB, ops).versions[k]
  {
    RunKeepsInv(ops);
    RowsTraceBack(Run(EMPTY_DB, ops), more, k);
  }

  lemma {:induction false} RowsTraceBack(db: Db, more: seq<Op>, k: VersionKey)
    requires Inv(db) && k in db.versions && k in Run(db, more).versions
    ensures Run(db, more).versions[k] == db.versions[k]
  {
    if more != [] {
      var n := |more| - 1;
      var mid := Run(db, more[..n]);
      RunFromKeepsInv(db, more[..n]);
      VersionsReached(db, more[..n], k);
      RunReusesNoId(db, more[..n], k.workflowId);
      StepKeepsInv(mid, more[n]);
      assert k.workflowId in Run(db, more).workflows;
      StepReusesNoId(mid, more[n], k.workflowId);
      StepKeepsRows(mid, more[n], k);
      RowsTraceBack(db, more[..n], k);
    }
  }

  /** A workflow's version never falls below one it has reached. */
  lemma {:induction false} VersionsReached(db: Db, more: seq<Op>, k: VersionKey)
    requires Inv(db) && k in db.versions
    ensures k.workflowId in Run(db, more).workflows ==> k.version <= Run(db, more).workflows[k.workflowId].version
  {
    if more == [] {
      assert WindowOk(db.workflows[k.workflowId], db.versions, k.workflowId);
      assert k == VersionKey(k.workflowId, k.version);
    } else {
      var n := |more| - 1;
      VersionsReached(db, more[..n], k);
      RunReusesNoId(db, more[..n], k.workflowId);
      StepReusesNoId(Run(db, more[..n]), more[n], k.workflowId);
      if k.workflowId in Run(db, more).workflows {
        StepPublication(Run(db, more[..n]), more[n], k.workflowId);
      }
    }
  }
}
