/** Department administration as a transition function, and what every run keeps (app/department/service.py). */
module DepartmentRuns {
  import opened Wrappers
  import opened Sequences
  import opened DepartmentSpec
  import opened DepartmentForest

  datatype Db = Db(depts: seq<Department>, members: seq<Membership>, grants: seq<Grant>, nextId: nat)

  datatype DeptError = DepartmentNotFound | HasChildren | ForeignKeyViolation | UniqueViolation

  datatype Op =
    | Create(name: string, parent: Option<nat>)
    | Rename(id: nat, name: string)
    | Delete(id: nat)
    | AddMember(userId: nat, deptId: nat)
    | RemoveMember(userId: nat, deptId: nat)
    | Share(grant: Grant)
    | Unshare(deptId: nat, resourceType: string, resourceId: nat)

  const EMPTY_DB := Db([], [], [], 0)

  function Renamed(depts: seq<Department>, id: nat, name: string): (r: seq<Department>)
    ensures |r| == |depts|
    ensures forall i :: 0 <= i < |depts| ==> r[i] == if depts[i].id == id then depts[i].(name := name) else depts[i]
  {
    seq(|depts|, i requires 0 <= i < |depts| => if depts[i].id == id then depts[i].(name := name) else depts[i])
  }

  function Without(depts: seq<Department>, id: nat): seq<Department> {
    Filter((d: Department) => d.id != id, depts)
  }

  predicate SameTarget(g: Grant, h: Grant) {
    g.deptId == h.deptId && g.resourceType == h.resourceType && g.resourceId == h.resourceId
  }

  function Step(db: Db, op: Op): (Db, Result<nat, DeptError>) {
    match op
    case Create(name, parent) =>
      if parent.Some? && parent.value !in Ids(db.depts) then (db, Err(ForeignKeyViolation))
      else (db.(depts := db.depts + [Department(db.nextId, name, parent)], nextId := db.nextId + 1), Ok(db.nextId))
    case Rename(id, name) =>
      if id !in Ids(db.depts) then (db, Err(DepartmentNotFound))
      else (db.(depts := Renamed(db.depts, id, name)), Ok(id))
    case Delete(id) =>
      if id !in Ids(db.depts) then (db, Err(DepartmentNotFound))
      else if Kids(db.depts, id) != [] then (db, Err(HasChildren))
      else (Db(Without(db.depts, id), Filter((m: Membership) => m.deptId != id, db.members),
               Filter((g: Grant) => g.deptId != id, db.grants), db.nextId), Ok(id))
    case AddMember(userId, deptId) =>
      if deptId !in Ids(db.depts) then (db, Err(ForeignKeyViolation))
      else if Membership(userId, deptId) in db.members then (db, Err(UniqueViolation))
      else (db.(members := db.members + [Membership(userId, deptId)]), Ok(deptId))
    case RemoveMember(userId, deptId) =>
      (db.(members := Filter((m: Membership) => m != Membership(userId, deptId), db.members)), Ok(deptId))
    case Share(grant) =>
      if grant.deptId !in Ids(db.depts) then (db, Err(ForeignKeyViolation))
      else if exists g :: g in db.grants && SameTarget(g, grant) then (db, Err(UniqueViolation))
      else (db.(grants := db.grants + [grant]), Ok(grant.deptId))
    case Unshare(deptId, resourceType, resourceId) =>
      (db.(grants := Filter((g: Grant) => !SameTarget(g, Grant(deptId, resourceType, resourceId, View)), db.grants)), Ok(deptId))
  }

  function Run(db: Db, ops: seq<Op>): Db {
    if ops == [] then db else Step(Run(db, ops[..|ops| - 1]), ops[|ops| - 1]).0
  }

  ghost predicate OneGrantPerTarget(grants: seq<Grant>) {
    forall i, j :: 0 <= i < j < |grants| ==> !SameTarget(grants[i], grants[j])
  }

  ghost predicate Inv(db: Db) {
    && Forest(db.depts)
    && (forall d :: d in db.depts ==> d.id < db.nextId)
    && (forall m :: m in db.members ==> m.deptId in IdSet(db.depts))
    && (forall g :: g in db.grants ==> g.deptId in IdSet(db.depts))
    && OneGrantPerTarget(db.grants)
  }

  // --- Each change of the table keeps it a forest ---

  lemma {:induction false} ParentOfAppend(depts: seq<Department>, row: Department, d: nat)
    requires row.id !in IdSet(depts)
    ensures ParentOf(depts + [row], d) == if d == row.id then row.parent else ParentOf(depts, d)
  {
    if depts != [] {
      assert (depts + [row])[1..] == depts[1..] + [row];
      assert forall i :: 0 <= i < |depts[1..]| ==> Ids(depts[1..])[i] == Ids(depts)[i + 1];
      assert Ids(depts)[0] == depts[0].id;
      ParentOfAppend(depts[1..], row, d);
    }
  }

  lemma CreateKeepsForest(depts: seq<Department>, row: Department)
    requires Forest(depts) && row.id !in IdSet(depts)
    requires row.parent.Some? ==> row.parent.value in IdSet(depts)
    ensures Forest(depts + [row])
  {
    var depts' := depts + [row];
    assert Ids(depts') == Ids(depts) + [row.id];
    forall d: nat ensures !Under(depts', d, d) {
      if Under(depts', d, d) {
        var n: nat :| n >= 1 && Up(depts', d, n) == Some(d);
        ClimbLeavesNewRow(depts, row, d, n);
        assert Under(depts, d, d);
      }
    }
  }

  /** The new row is nobody's parent, so a climb that ends elsewhere, or starts elsewhere, was there before. */
  lemma {:induction false} ClimbLeavesNewRow(depts: seq<Department>, row: Department, d: nat, n: nat)
    requires Forest(depts) && row.id !in IdSet(depts)
    requires row.parent.Some? ==> row.parent.value in IdSet(depts)
    requires n >= 1 && Up(depts + [row], d, n).Some?
    ensures Up(depts + [row], d, n).value in IdSet(depts)
    ensures d != row.id ==> Up(depts, d, n) == Up(depts + [row], d, n)
    decreases n
  {
    ParentOfAppend(depts, row, d);
    if d != row.id {
      var r := RowOfParent(depts, d);
    }
    if n > 1 { ClimbLeavesNewRow(depts, row, ParentOf(depts + [row], d).value, n - 1); }
  }

  lemma {:induction false} UpIgnoresNames(a: seq<Department>, b: seq<Department>, d: nat, n: nat)
    requires forall x :: ParentOf(a, x) == ParentOf(b, x)
    ensures Up(a, d, n) == Up(b, d, n)
    decreases n
  {
    if n > 0 && ParentOf(a, d).Some? { UpIgnoresNames(a, b, ParentOf(a, d).value, n - 1); }
  }

  lemma {:induction false} ParentOfRenamed(depts: seq<Department>, id: nat, name: string, d: nat)
    ensures ParentOf(Renamed(depts, id, name), d) == ParentOf(depts, d)
  {
    if depts != [] {
      assert Renamed(depts, id, name)[1..] == Renamed(depts[1..], id, name);
      ParentOfRenamed(depts[1..], id, name, d);
    }
  }

  lemma RenameKeepsForest(depts: seq<Department>, id: nat, name: string)
    requires Forest(depts)
    ensures Forest(Renamed(depts, id, name)) && Ids(Renamed(depts, id, name)) == Ids(depts)
  {
    var depts' := Renamed(depts, id, name);
    assert Ids(depts') == Ids(depts);
    forall x ensures ParentOf(depts', x) == ParentOf(depts, x) { ParentOfRenamed(depts, id, name, x); }
    forall d: nat ensures !Under(depts', d, d) {
      if Under(depts', d, d) {
        var n: nat :| n >= 1 && Up(depts', d, n) == Some(d);
        UpIgnoresNames(depts', depts, d, n);
        assert Under(depts, d, d);
      }
    }
    forall d | d in depts' && d.parent.Some? ensures d.parent.value in IdSet(depts') {
      var i :| 0 <= i < |depts'| && depts'[i] == d;
      assert depts[i] in depts && depts[i].parent == d.parent;
    }
  }

  lemma WithoutMeaning(depts: seq<Department>, id: nat)
    requires IsTable(depts)
    ensures forall d :: d in Without(depts, id) <==> d in depts && d.id != id
    ensures IsTable(Without(depts, id))
  {
    FilterMembers((d: Department) => d.id != id, depts);
    FilterKeepsTable((d: Department) => d.id != id, depts);
  }

  lemma {:induction false} ClimbInPart(part: seq<Department>, depts: seq<Department>, d: nat, n: nat)
    requires IsTable(depts) && forall r :: r in part ==> r in depts
    requires Up(part, d, n).Some?
    ensures Up(depts, d, n) == Up(part, d, n)
    decreases n
  {
    if n > 0 {
      var row := RowOfParent(part, d);
      ParentOfRow(depts, row);
      ClimbInPart(part, depts, row.parent.value, n - 1);
    }
  }

  lemma IdsWithout(depts: seq<Department>, id: nat)
    requires IsTable(depts)
    ensures IdSet(Without(depts, id)) == IdSet(depts) - {id}
  {
    WithoutMeaning(depts, id);
    var depts' := Without(depts, id);
    forall x | x in IdSet(depts) && x != id ensures x in IdSet(depts') {
      var i :| 0 <= i < |depts| && Ids(depts)[i] == x;
      assert depts[i] in depts';
      var j :| 0 <= j < |depts'| && depts'[j] == depts[i];
      assert Ids(depts')[j] == x;
    }
    forall x | x in IdSet(depts') ensures x in IdSet(depts) && x != id {
      var i :| 0 <= i < |depts'| && Ids(depts')[i] == x;
      assert depts'[i] in depts';
      ParentOfRow(depts, depts'[i]);
    }
  }

  lemma PartIsAcyclic(part: seq<Department>, depts: seq<Department>)
    requires IsTable(depts) && Acyclic(depts) && forall r :: r in part ==> r in depts
    ensures Acyclic(part)
  {
    forall d: nat ensures !Under(part, d, d) {
      if Under(part, d, d) {
        var n: nat :| n >= 1 && Up(part, d, n) == Some(d);
        ClimbInPart(part, depts, d, n);
        assert Under(depts, d, d);
      }
    }
  }

  lemma DeleteKeepsForest(depts: seq<Department>, id: nat)
    requires Forest(depts) && Kids(depts, id) == []
    ensures Forest(Without(depts, id)) && IdSet(Without(depts, id)) == IdSet(depts) - {id}
  {
    WithoutMeaning(depts, id);
    KidsMeaning(depts, id);
    IdsWithout(depts, id);
    var depts' := Without(depts, id);
    PartIsAcyclic(depts', depts);
    forall d | d in depts' && d.parent.Some? ensures d.parent.value in IdSet(depts') {
      assert d in depts && d.parent.value != id;
    }
  }

  lemma GrantsKept(grants: seq<Grant>, keep: Grant -> bool)
    requires OneGrantPerTarget(grants)
    ensures OneGrantPerTarget(Filter(keep, grants))
  {
    FilterPairs(keep, grants, (g: Grant, h: Grant) => !SameTarget(g, h));
  }

  lemma CreateKeepsInv(db: Db, name: string, parent: Option<nat>)
    requires Inv(db)
    ensures Inv(Step(db, Create(name, parent)).0)
  {
    if Step(db, Create(name, parent)).1.Ok? {
      var row := Department(db.nextId, name, parent);
      forall x | x in IdSet(db.depts) ensures x < db.nextId {
        var i :| 0 <= i < |db.depts| && Ids(db.depts)[i] == x;
        assert db.depts[i] in db.depts;
      }
      CreateKeepsForest(db.depts, row);
      assert Ids(db.depts + [row]) == Ids(db.depts) + [row.id];
      assert IdSet(db.depts + [row]) == IdSet(db.depts) + {row.id};
    }
  }

  lemma RenameKeepsInv(db: Db, id: nat, name: string)
    requires Inv(db)
    ensures Inv(Step(db, Rename(id, name)).0)
  {
    RenameKeepsForest(db.depts, id, name);
    forall d | d in Renamed(db.depts, id, name) ensures d.id < db.nextId {
      var i :| 0 <= i < |db.depts| && Renamed(db.depts, id, name)[i] == d;
      assert db.depts[i] in db.depts;
    }
  }

  lemma DeleteKeepsInv(db: Db, id: nat)
    requires Inv(db)
    ensures Inv(Step(db, Delete(id)).0)
  {
    if Step(db, Delete(id)).1.Ok? {
      DeleteKeepsForest(db.depts, id);
      WithoutMeaning(db.depts, id);
      FilterMembers((m: Membership) => m.deptId != id, db.members);
      FilterMembers((g: Grant) => g.deptId != id, db.grants);
      GrantsKept(db.grants, (g: Grant) => g.deptId != id);
    }
  }

  lemma StepKeepsInv(db: Db, op: Op)
    requires Inv(db)
    ensures Inv(Step(db, op).0)
  {
    match op {
      case Create(name, parent) => CreateKeepsInv(db, name, parent);
      case Rename(id, name) => RenameKeepsInv(db, id, name);
      case Delete(id) => DeleteKeepsInv(db, id);
      case RemoveMember(userId, deptId) => FilterMembers((m: Membership) => m != Membership(userId, deptId), db.members);
      case Unshare(deptId, resourceType, resourceId) =>
        FilterMembers((g: Grant) => !SameTarget(g, Grant(deptId, resourceType, resourceId, View)), db.grants);
        GrantsKept(db.grants, (g: Grant) => !SameTarget(g, Grant(deptId, resourceType, resourceId, View)));
      case AddMember(userId, deptId) => assert deptId in Ids(db.depts) <==> deptId in IdSet(db.depts);
      case Share(grant) => assert grant.deptId in Ids(db.depts) <==> grant.deptId in IdSet(db.depts);
    }
  }

  lemma {:induction false} RunKeepsInv(ops: seq<Op>)
    ensures Inv(Run(EMPTY_DB, ops))
  {
    if ops != [] {
      RunKeepsInv(ops[..|ops| - 1]);
      StepKeepsInv(Run(EMPTY_DB, ops[..|ops| - 1]), ops[|ops| - 1]);
    }
  }

  /** In every run the listing shows each department once, under its own parent, and the counts add up. */
  lemma {:induction false} ListingIsComplete(ops: seq<Op>)
    ensures Forest(Run(EMPTY_DB, ops).depts)
    ensures var db := Run(EMPTY_DB, ops);
            var flat := FlattenAll(ForestOf(db.depts));
            && IsTable(flat) && |flat| == |db.depts|
            && (forall d :: d in flat <==> d in db.depts)
            && SumCounts(flat, db.members) == |db.members|
    ensures var trees := ForestOf(Run(EMPTY_DB, ops).depts);
            forall i :: 0 <= i < |trees| ==> trees[i].dept.parent.None? && WellPlaced(trees[i])
  {
    RunKeepsInv(ops);
    var db := Run(EMPTY_DB, ops);
    ForestLosesNothing(db.depts);
    ForestCovers(db.depts);
    CountsAddUp(FlattenAll(ForestOf(db.depts)), db.members);
  }
}
