/**
 The publication lifecycle of workflows as a transition function over the stored tables, and what every run keeps
 (app/workflow/service.py, version_service.py, execution_service.py).
 */
module LifecycleSpec {
  import opened Wrappers
  import opened DslSchema
  import opened DslGate

  // How many version rows of a workflow survive a publish.
  const KEEP_VERSIONS := 50

  datatype Status = Draft | Published

  datatype Workflow = Workflow(
    name: string,
    version: int,
    status: Status,
    graphData: RawDsl,
    publishedGraphData: Option<RawDsl>)

  datatype VersionKey = VersionKey(workflowId: nat, version: int)

  datatype Execution = Execution(workflowId: nat, workflowVersion: int)

  // The (workflow_id, version) uniqueness constraint makes the version table a map. Ids are fresh.
  datatype Db = Db(
    workflows: map<nat, Workflow>,
    versions: map<VersionKey, RawDsl>,
    executions: map<nat, Execution>,
    nextId: nat)

  datatype WorkflowError =
    | WorkflowNotFound
    | VersionNotFound
    | WorkflowNotPublished
    | DuplicateVersion
    | Invalid(cause: DslError)

  // A Null graph means that the request leaves the graph out.
  datatype Op =
    | Create(name: string, graph: RawDsl)
    | Update(id: nat, newName: Option<string>, graph: RawDsl)
    | Publish(id: nat)
    | RevertToDraft(id: nat)
    | RollbackToDraft(id: nat, version: int)
    | Delete(id: nat)
    | CreateExecution(id: nat, fromDraft: bool)

  const EMPTY_DB := Db(map[], map[], map[], 0)

  const SEED_GRAPH := Shaped(WorkflowDsl(GraphDef([NodeDef(NodeId("start"), "start", "{}", None, None)], []), []))

  predicate HasAnyNode(raw: RawDsl) {
    raw.Shaped? && raw.dsl.graph.nodes != []
  }

  // --- One step ---

  function CreateStep(db: Db, name: string, graph: RawDsl): (Db, Result<nat, WorkflowError>) {
    match ParseLoose(graph)
    case Err(e) => (db, Err(Invalid(e)))
    case Ok(_) =>
      var wf := Workflow(name, 0, Draft, if HasAnyNode(graph) then graph else SEED_GRAPH, None);
      (db.(workflows := db.workflows[db.nextId := wf], nextId := db.nextId + 1), Ok(db.nextId))
  }

  function UpdateStep(db: Db, id: nat, newName: Option<string>, graph: RawDsl): (Db, Result<nat, WorkflowError>) {
    if id !in db.workflows then (db, Err(WorkflowNotFound))
    else if graph != Null && ParseLoose(graph).Err? then (db, Err(Invalid(ParseLoose(graph).error)))
    else
      var wf := db.workflows[id];
      var wf1 := if graph == Null then wf else wf.(graphData := graph);
      var wf2 := if newName.None? then wf1 else wf1.(name := newName.value);
      (db.(workflows := db.workflows[id := wf2]), Ok(id))
  }

  /** ORDER BY version DESC OFFSET keep: the rows that have at least keep newer rows. */
  function NewerRows(versions: map<VersionKey, RawDsl>, id: nat, version: int): set<VersionKey> {
    set k | k in versions.Keys && k.workflowId == id && k.version > version
  }

  function Outdated(versions: map<VersionKey, RawDsl>, id: nat, keep: nat): set<VersionKey> {
    set k | k in versions.Keys && k.workflowId == id && |NewerRows(versions, id, k.version)| >= keep
  }

  ghost function PublishStep(db: Db, id: nat): (Db, Result<nat, WorkflowError>) {
    if id !in db.workflows then (db, Err(WorkflowNotFound))
    else
      var wf := db.workflows[id];
      match ParseSpec(wf.graphData)
      case Err(e) => (db, Err(Invalid(e)))
      case Ok(dsl) =>
        var key := VersionKey(id, wf.version + 1);
        if |dsl.graph.nodes| < 2 then (db, Err(Invalid(TooFewNodes)))
        else if key in db.versions then (db, Err(DuplicateVersion))
        else
          var wf' := wf.(version := wf.version + 1, status := Published, publishedGraphData := Some(wf.graphData));
          var rows := db.versions[key := wf.graphData];
          (db.(workflows := db.workflows[id := wf'], versions := rows - Outdated(rows, id, KEEP_VERSIONS)), Ok(id))
  }

  function RevertStep(db: Db, id: nat): (Db, Result<nat, WorkflowError>) {
    if id !in db.workflows then (db, Err(WorkflowNotFound))
    else (db.(workflows := db.workflows[id := db.workflows[id].(status := Draft)]), Ok(id))
  }

  function RollbackStep(db: Db, id: nat, version: int): (Db, Result<nat, WorkflowError>) {
    if id !in db.workflows || VersionKey(id, version) !in db.versions then (db, Err(VersionNotFound))
    else
      var wf := db.workflows[id].(graphData := db.versions[VersionKey(id, version)], status := Draft);
      (db.(workflows := db.workflows[id := wf]), Ok(id))
  }

  /** Deleting a workflow cascades to its version rows and its executions. */
  function DeleteStep(db: Db, id: nat): (Db, Result<nat, WorkflowError>) {
    if id !in db.workflows then (db, Err(WorkflowNotFound))
    else
      (Db(db.workflows - {id},
          map k | k in db.versions && k.workflowId != id :: db.versions[k],
          map e | e in db.executions && db.executions[e].workflowId != id :: db.executions[e],
          db.nextId), Ok(id))
  }

  function ExecutionStep(db: Db, id: nat, fromDraft: bool): (Db, Result<nat, WorkflowError>) {
    if id !in db.workflows || (!fromDraft && db.workflows[id].publishedGraphData.None?) then (db, Err(WorkflowNotPublished))
    else
      var row := Execution(id, if fromDraft then 0 else db.workflows[id].version);
      (db.(executions := db.executions[db.nextId := row], nextId := db.nextId + 1), Ok(db.nextId))
  }

  ghost function Step(db: Db, op: Op): (Db, Result<nat, WorkflowError>) {
    match op
    case Create(name, graph) => CreateStep(db, name, graph)
    case Update(id, newName, graph) => UpdateStep(db, id, newName, graph)
    case Publish(id) => PublishStep(db, id)
    case RevertToDraft(id) => RevertStep(db, id)
    case RollbackToDraft(id, version) => RollbackStep(db, id, version)
    case Delete(id) => DeleteStep(db, id)
    case CreateExecution(id, fromDraft) => ExecutionStep(db, id, fromDraft)
  }

  ghost function Run(db: Db, ops: seq<Op>): Db {
    if ops == [] then db else Step(Run(db, ops[..|ops| - 1]), ops[|ops| - 1]).0
  }

  /** What run_and_persist hands to the strict gate. */
  function GraphSource(db: Db, e: Execution): RawDsl
    requires e.workflowId in db.workflows
  {
    var wf := db.workflows[e.workflowId];
    if e.workflowVersion == 0 then wf.graphData
    else match wf.publishedGraphData case None => Null case Some(raw) => raw
  }

  // --- What every run keeps ---

  /** A graph that the engine can be started on: structurally valid, with something after the start node. */
  ghost predicate Runnable(raw: RawDsl) {
    raw.Shaped? && WellStructured(raw.dsl.graph) && |raw.dsl.graph.nodes| >= 2
  }

  function Oldest(version: int): int {
    if version - (KEEP_VERSIONS - 1) > 1 then version - (KEEP_VERSIONS - 1) else 1
  }

  ghost predicate PublicationOk(wf: Workflow) {
    && (wf.publishedGraphData.None? ==> wf.version == 0 && wf.status == Draft)
    && (wf.publishedGraphData.Some? ==> wf.version >= 1 && Runnable(wf.publishedGraphData.value))
    && ParseLoose(wf.graphData).Ok?
  }

  ghost predicate WindowOk(wf: Workflow, versions: map<VersionKey, RawDsl>, id: nat) {
    && (forall n :: VersionKey(id, n) in versions <==> Oldest(wf.version) <= n <= wf.version)
    && (wf.version >= 1 ==> wf.publishedGraphData == Some(versions[VersionKey(id, wf.version)]))
    && (forall n :: VersionKey(id, n) in versions ==> Runnable(versions[VersionKey(id, n)]))
  }

  ghost predicate ExecutionsOk(db: Db) {
    forall e :: e in db.executions ==>
      && e < db.nextId
      && db.executions[e].workflowId in db.workflows
      && 0 <= db.executions[e].workflowVersion <= db.workflows[db.executions[e].workflowId].version
  }

  ghost predicate PublicationsOk(db: Db) {
    forall id :: id in db.workflows ==> id < db.nextId && PublicationOk(db.workflows[id])
  }

  ghost predicate WindowsOk(db: Db) {
    && (forall id :: id in db.workflows ==> WindowOk(db.workflows[id], db.versions, id))
    && (forall k :: k in db.versions ==> k.workflowId in db.workflows)
  }

  ghost predicate Inv(db: Db) {
    PublicationsOk(db) && WindowsOk(db) && ExecutionsOk(db)
  }

  lemma {:induction false} NewerRowsCount(versions: map<VersionKey, RawDsl>, id: nat, lo: int, hi: int, n: int)
    requires forall m :: VersionKey(id, m) in versions <==> lo <= m <= hi
    requires lo - 1 <= n <= hi
    ensures |NewerRows(versions, id, n)| == hi - n
    decreases hi - n
  {
    if n == hi {
      forall k | k in versions && k.workflowId == id ensures k.version <= hi { assert VersionKey(id, k.version) == k; }
      assert NewerRows(versions, id, n) == {};
    } else {
      NewerRowsCount(versions, id, lo, hi, n + 1);
      assert VersionKey(id, n + 1) in versions;
      forall k | k in NewerRows(versions, id, n) ensures k in NewerRows(versions, id, n + 1) + {VersionKey(id, n + 1)} {}
      assert NewerRows(versions, id, n) == NewerRows(versions, id, n + 1) + {VersionKey(id, n + 1)};
    }
  }

  lemma OutdatedRows(versions: map<VersionKey, RawDsl>, id: nat, lo: int, hi: int, keep: nat)
    requires forall m :: VersionKey(id, m) in versions <==> lo <= m <= hi
    ensures forall n :: VersionKey(id, n) in Outdated(versions, id, keep) <==> lo <= n <= hi - keep
    ensures forall k :: k in Outdated(versions, id, keep) ==> k.workflowId == id
  {
    forall n ensures VersionKey(id, n) in Outdated(versions, id, keep) <==> lo <= n <= hi - keep {
      if lo <= n <= hi { NewerRowsCount(versions, id, lo, hi, n); }
    }
  }

  /** Publishing moves the retained window of that workflow on by one and leaves the other rows alone. */
  lemma PublishWindow(db: Db, id: nat)
    requires id in db.workflows && WindowOk(db.workflows[id], db.versions, id) && db.workflows[id].version >= 0
    requires PublishStep(db, id).1.Ok?
    ensures var db' := PublishStep(db, id).0;
            && WindowOk(db'.workflows[id], db'.versions, id)
            && VersionKey(id, db'.workflows[id].version) in db'.versions
    ensures forall i, n :: i != id ==> (VersionKey(i, n) in PublishStep(db, id).0.versions <==> VersionKey(i, n) in db.versions)
    ensures forall k :: k in PublishStep(db, id).0.versions && k in db.versions ==> PublishStep(db, id).0.versions[k] == db.versions[k]
  {
    var wf := db.workflows[id];
    var v := wf.version + 1;
    var rows := db.versions[VersionKey(id, v) := wf.graphData];
    var lo := Oldest(wf.version);
    assert forall n :: VersionKey(id, n) in rows <==> lo <= n <= v;
    OutdatedRows(rows, id, lo, v, KEEP_VERSIONS);
    ParseAccepts(wf.graphData);
    var kept := PublishStep(db, id).0.versions;
    assert kept == rows - Outdated(rows, id, KEEP_VERSIONS);
    forall n ensures VersionKey(id, n) in kept <==> Oldest(v) <= n <= v {}
    forall n | VersionKey(id, n) in kept ensures Runnable(kept[VersionKey(id, n)]) {
      if n < v { assert VersionKey(id, n) in db.versions; }
    }
  }

  lemma PublishKeepsWindows(db: Db, id: nat)
    requires WindowsOk(db) && id in db.workflows && db.workflows[id].version >= 0 && PublishStep(db, id).1.Ok?
    ensures WindowsOk(PublishStep(db, id).0)
  {
    PublishWindow(db, id);
    var db' := PublishStep(db, id).0;
    forall i | i in db'.workflows && i != id ensures WindowOk(db'.workflows[i], db'.versions, i) {
      assert WindowOk(db.workflows[i], db.versions, i);
    }
    forall k | k in db'.versions ensures k.workflowId in db'.workflows {
      assert k == VersionKey(k.workflowId, k.version);
    }
  }

  lemma PublishKeepsPublications(db: Db, id: nat)
    requires PublicationsOk(db) && PublishStep(db, id).1.Ok?
    ensures PublicationsOk(PublishStep(db, id).0)
  {
    ParseAccepts(db.workflows[id].graphData);
    assert PublicationOk(db.workflows[id]);
  }

  lemma PublishKeepsExecutions(db: Db, id: nat)
    requires ExecutionsOk(db)
    ensures ExecutionsOk(PublishStep(db, id).0)
  {
  }

  lemma {:induction false} PublishKeepsInv(db: Db, id: nat)
    requires Inv(db)
    ensures Inv(PublishStep(db, id).0)
  {
    if PublishStep(db, id).1.Ok? {
      assert PublicationOk(db.workflows[id]);
      PublishKeepsPublications(db, id);
      PublishKeepsWindows(db, id);
      PublishKeepsExecutions(db, id);
    }
  }

  /** The version rows depend on no other part of a workflow than its publication. */
  lemma EditKeepsWindows(db: Db, id: nat, wf: Workflow)
    requires WindowsOk(db) && id in db.workflows
    requires wf.version == db.workflows[id].version && wf.publishedGraphData == db.workflows[id].publishedGraphData
    ensures WindowsOk(db.(workflows := db.workflows[id := wf]))
  {
    var db' := db.(workflows := db.workflows[id := wf]);
    forall i | i in db'.workflows ensures WindowOk(db'.workflows[i], db'.versions, i) {
      assert WindowOk(db.workflows[i], db.versions, i);
    }
  }

  /** Rewriting a workflow row without touching its publication keeps the invariant. */
  lemma EditKeepsInv(db: Db, id: nat, wf: Workflow)
    requires Inv(db) && id in db.workflows
    requires wf.version == db.workflows[id].version && wf.publishedGraphData == db.workflows[id].publishedGraphData
    requires ParseLoose(wf.graphData).Ok? && (wf.status == db.workflows[id].status || wf.status == Draft)
    ensures Inv(db.(workflows := db.workflows[id := wf]))
  {
    EditKeepsWindows(db, id, wf);
    assert PublicationOk(db.workflows[id]);
  }

  lemma InsertKeepsWindows(db: Db, wf: Workflow)
    requires WindowsOk(db) && db.nextId !in db.workflows
    requires wf.version == 0
    ensures WindowsOk(db.(workflows := db.workflows[db.nextId := wf], nextId := db.nextId + 1))
  {
    var db' := db.(workflows := db.workflows[db.nextId := wf], nextId := db.nextId + 1);
    assert forall k :: k in db.versions ==> k.workflowId != db.nextId;
    forall i | i in db'.workflows ensures WindowOk(db'.workflows[i], db'.versions, i) {
      if i in db.workflows { assert WindowOk(db.workflows[i], db.versions, i); }
    }
  }

  /** A new draft under a fresh id keeps the invariant. */
  lemma InsertKeepsInv(db: Db, wf: Workflow)
    requires Inv(db)
    requires wf.version == 0 && wf.status == Draft && wf.publishedGraphData.None? && ParseLoose(wf.graphData).Ok?
    ensures Inv(db.(workflows := db.workflows[db.nextId := wf], nextId := db.nextId + 1))
  {
    InsertKeepsWindows(db, wf);
  }

  lemma DeleteKeepsWindows(db: Db, id: nat)
    requires WindowsOk(db)
    ensures WindowsOk(DeleteStep(db, id).0)
  {
    var db' := DeleteStep(db, id).0;
    forall i | i in db'.workflows ensures WindowOk(db'.workflows[i], db'.versions, i) {
      assert WindowOk(db.workflows[i], db.versions, i);
      assert id in db.workflows ==> forall n :: VersionKey(i, n) in db'.versions <==> VersionKey(i, n) in db.versions;
    }
  }

  lemma DeleteKeepsTheRest(db: Db, id: nat)
    requires PublicationsOk(db) && ExecutionsOk(db)
    ensures PublicationsOk(DeleteStep(db, id).0) && ExecutionsOk(DeleteStep(db, id).0)
  {
  }

  lemma DeleteKeepsInv(db: Db, id: nat)
    requires Inv(db)
    ensures Inv(DeleteStep(db, id).0)
  {
    DeleteKeepsWindows(db, id);
    DeleteKeepsTheRest(db, id);
  }

  lemma {:induction false} DraftOpKeepsInv(db: Db, op: Op)
    requires Inv(db) && (op.Create? || op.Update? || op.RevertToDraft?)
    ensures Inv(Step(db, op).0)
  {
    match op
    case Create(name, graph) =>
      if CreateStep(db, name, graph).1.Ok? {
        InsertKeepsInv(db, CreateStep(db, name, graph).0.workflows[db.nextId]);
      }
    case Update(id, newName, graph) =>
      if UpdateStep(db, id, newName, graph).1.Ok? {
        EditKeepsInv(db, id, UpdateStep(db, id, newName, graph).0.workflows[id]);
      }
    case RevertToDraft(id) =>
      if id in db.workflows { EditKeepsInv(db, id, db.workflows[id].(status := Draft)); }
  }

  lemma RollbackKeepsInv(db: Db, id: nat, version: int)
    requires Inv(db)
    ensures Inv(RollbackStep(db, id, version).0)
  {
    if RollbackStep(db, id, version).1.Ok? {
      assert WindowOk(db.workflows[id], db.versions, id);
      EditKeepsInv(db, id, RollbackStep(db, id, version).0.workflows[id]);
    }
  }

  lemma {:induction false} StepKeepsInv(db: Db, op: Op)
    requires Inv(db)
    ensures Inv(Step(db, op).0)
  {
    match op
    case Publish(id) => PublishKeepsInv(db, id);
    case RollbackToDraft(id, version) => RollbackKeepsInv(db, id, version);
    case Delete(id) => DeleteKeepsInv(db, id);
    case CreateExecution(id, fromDraft) => ExecutionKeepsInv(db, id, fromDraft);
    case _ => DraftOpKeepsInv(db, op);
  }

  lemma ExecutionKeepsInv(db: Db, id: nat, fromDraft: bool)
    requires Inv(db)
    ensures Inv(ExecutionStep(db, id, fromDraft).0)
  {
    assert id in db.workflows ==> PublicationOk(db.workflows[id]);
  }

  lemma {:induction false} RunKeepsInv(ops: seq<Op>)
    ensures Inv(Run(EMPTY_DB, ops))
  {
    if ops != [] {
      RunKeepsInv(ops[..|ops| - 1]);
      StepKeepsInv(Run(EMPTY_DB, ops[..|ops| - 1]), ops[|ops| - 1]);
    }
  }
}
