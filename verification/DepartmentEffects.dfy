/**
 What each department call leaves in the tables, told by the rows themselves, and who gains access by it
 (app/department/service.py).
 */
module DepartmentEffects {
  import opened Wrappers
  import opened Sequences
  import opened DepartmentSpec
  import opened DepartmentForest
  import opened DepartmentRuns

  predicate Known(depts: seq<Department>, id: Option<nat>) {
    id.Some? ==> exists i :: 0 <= i < |depts| && depts[i].id == id.value
  }

  lemma KnownIsInIds(depts: seq<Department>, id: nat)
    ensures Known(depts, Some(id)) <==> id in IdSet(depts)
    ensures Known(depts, Some(id)) <==> id in Ids(depts)
  {
    if Known(depts, Some(id)) {
      var i :| 0 <= i < |depts| && depts[i].id == id;
      assert Ids(depts)[i] == id;
    }
    if id in Ids(depts) {
      var i :| 0 <= i < |depts| && Ids(depts)[i] == id;
      assert depts[i].id == id;
    }
  }

  // --- Departments ---

  /** Creating adds one row with a fresh id, the given name and the given parent; an unknown parent is refused. */
  lemma CreateStores(db: Db, name: string, parent: Option<nat>)
    requires Inv(db)
    ensures var (db', r) := Step(db, Create(name, parent));
            && (r.Ok? <==> Known(db.depts, parent))
            && (r.Err? ==> db' == db && r.error == ForeignKeyViolation)
            && (r.Ok? ==>
                  && !Known(db.depts, Some(r.value))
                  && (forall d :: d in db'.depts <==> d in db.depts || d == Department(r.value, name, parent))
                  && |db'.depts| == |db.depts| + 1
                  && (forall d :: ParentOf(db'.depts, d) == if d == r.value then parent else ParentOf(db.depts, d))
                  && db'.members == db.members && db'.grants == db.grants)
  {
    if parent.Some? { KnownIsInIds(db.depts, parent.value); }
    KnownIsInIds(db.depts, db.nextId);
    FreshId(db);
    if Step(db, Create(name, parent)).1.Ok? {
      forall d ensures ParentOf(db.depts + [Department(db.nextId, name, parent)], d) == if d == db.nextId then parent else ParentOf(db.depts, d) {
        ParentOfAppend(db.depts, Department(db.nextId, name, parent), d);
      }
    }
  }

  lemma FreshId(db: Db)
    requires Inv(db)
    ensures db.nextId !in IdSet(db.depts)
  {
    forall x | x in IdSet(db.depts) ensures x < db.nextId {
      var i :| 0 <= i < |db.depts| && Ids(db.depts)[i] == x;
      assert db.depts[i] in db.depts;
    }
  }

  /** The new department is listed among the children of its parent, behind the older ones, and has none of its own. */
  lemma NewKid(depts: seq<Department>, row: Department, id: nat)
    requires forall d :: d in depts ==> d.parent != Some(row.id)
    requires row.parent != Some(row.id)
    ensures Kids(depts + [row], id) == Kids(depts, id) + (if row.parent == Some(id) then [row] else [])
    ensures Kids(depts + [row], row.id) == []
  {
    assert (depts + [row])[..|depts|] == depts;
    forall i | 0 <= i < |depts| ensures depts[i].parent != Some(row.id) { assert depts[i] in depts; }
    FilterNone((d: Department) => d.parent == Some(row.id), depts);
  }

  lemma CreatePlaces(db: Db, name: string, parent: Option<nat>)
    requires Inv(db) && Known(db.depts, parent)
    ensures var (db', r) := Step(db, Create(name, parent));
            && r.Ok? && Kids(db'.depts, r.value) == []
            && forall p: nat :: Kids(db'.depts, p) == Kids(db.depts, p) + (if parent == Some(p) then [Department(r.value, name, parent)] else [])
  {
    CreateStores(db, name, parent);
    FreshId(db);
    var row := Department(db.nextId, name, parent);
    forall p: nat ensures Kids(db.depts + [row], p) == Kids(db.depts, p) + (if parent == Some(p) then [row] else []) {
      NewKid(db.depts, row, p);
    }
    NewKid(db.depts, row, row.id);
  }

  /** The new department is below exactly what its parent is below, and nothing else moves. */
  lemma NewRowIsBelow(depts: seq<Department>, row: Department, roots: set<nat>, d: nat)
    requires Forest(depts) && row.id !in IdSet(depts) && row.id !in roots
    requires row.parent.Some? ==> row.parent.value in IdSet(depts)
    ensures ReachedFrom(depts + [row], roots, d) <==>
            if d == row.id then row.parent.Some? && ReachedFrom(depts, roots, row.parent.value) else ReachedFrom(depts, roots, d)
  {
    var depts' := depts + [row];
    ParentOfAppend(depts, row, row.id);
    forall x: nat, n: nat | x != row.id ensures Up(depts', x, n) == Up(depts, x, n) { ClimbStays(depts, row, x, n); }
    if d == row.id {
      if ReachedFrom(depts', roots, d) {
        var r :| r in roots && Reaches(depts', r, d);
        var n: nat :| Up(depts', d, n) == Some(r);
        assert n > 0 && Up(depts', row.parent.value, n - 1) == Some(r);
        assert Up(depts, row.parent.value, n - 1) == Some(r);
        assert Reaches(depts, r, row.parent.value);
      }
      if row.parent.Some? && ReachedFrom(depts, roots, row.parent.value) {
        var r :| r in roots && Reaches(depts, r, row.parent.value);
        var n: nat :| Up(depts, row.parent.value, n) == Some(r);
        assert Up(depts', row.parent.value, n) == Some(r);
        assert Up(depts', d, n + 1) == Some(r);
        assert Reaches(depts', r, d);
      }
    } else {
      forall r ensures Reaches(depts', r, d) <==> Reaches(depts, r, d) { SameClimbsReach(depts', depts, r, d); }
    }
  }

  lemma SameClimbsReach(a: seq<Department>, b: seq<Department>, r: nat, d: nat)
    requires forall n: nat :: Up(a, d, n) == Up(b, d, n)
    ensures Reaches(a, r, d) <==> Reaches(b, r, d)
  {
    if Reaches(a, r, d) {
      var n: nat :| Up(a, d, n) == Some(r);
      assert Up(b, d, n) == Some(r);
    }
    if Reaches(b, r, d) {
      var n: nat :| Up(b, d, n) == Some(r);
      assert Up(a, d, n) == Some(r);
    }
  }

  lemma {:induction false} ClimbStays(depts: seq<Department>, row: Department, d: nat, n: nat)
    requires Forest(depts) && row.id !in IdSet(depts) && d != row.id
    ensures Up(depts + [row], d, n) == Up(depts, d, n)
    decreases n
  {
    ParentOfAppend(depts, row, d);
    if n > 0 && ParentOf(depts, d).Some? {
      var r := RowOfParent(depts, d);
      ClimbStays(depts, row, ParentOf(depts, d).value, n - 1);
    }
  }

  /** Renaming changes one name and no place in the hierarchy. */
  lemma RenameStores(db: Db, id: nat, name: string)
    ensures var (db', r) := Step(db, Rename(id, name));
            && (r.Ok? <==> Known(db.depts, Some(id)))
            && (r.Err? ==> db' == db && r.error == DepartmentNotFound)
            && (r.Ok? ==>
                  && |db'.depts| == |db.depts|
                  && (forall i :: 0 <= i < |db.depts| ==>
                        && db'.depts[i].id == db.depts[i].id && db'.depts[i].parent == db.depts[i].parent
                        && db'.depts[i].name == (if db.depts[i].id == id then name else db.depts[i].name))
                  && db'.members == db.members && db'.grants == db.grants && db'.nextId == db.nextId)
  {
    KnownIsInIds(db.depts, id);
  }

  /** Deleting is refused while a department names this one as its parent; otherwise its memberships and grants go with it. */
  lemma DeleteStores(db: Db, id: nat)
    ensures var (db', r) := Step(db, Delete(id));
            && (r.Ok? <==> Known(db.depts, Some(id)) && forall d :: d in db.depts ==> d.parent != Some(id))
            && (r.Err? ==> db' == db && r.error == if Known(db.depts, Some(id)) then HasChildren else DepartmentNotFound)
            && (r.Ok? ==>
                  && (forall d :: d in db'.depts <==> d in db.depts && d.id != id)
                  && (forall m :: m in db'.members <==> m in db.members && m.deptId != id)
                  && (forall g :: g in db'.grants <==> g in db.grants && g.deptId != id)
                  && db'.nextId == db.nextId)
  {
    KnownIsInIds(db.depts, id);
    KidsMeaning(db.depts, id);
    if Kids(db.depts, id) != [] { assert Kids(db.depts, id)[0] in Kids(db.depts, id); }
    FilterMembers((d: Department) => d.id != id, db.depts);
    FilterMembers((m: Membership) => m.deptId != id, db.members);
    FilterMembers((g: Grant) => g.deptId != id, db.grants);
  }

  // --- Members and grants ---

  lemma AddMemberStores(db: Db, userId: nat, deptId: nat)
    ensures var (db', r) := Step(db, AddMember(userId, deptId));
            && (r.Ok? <==> Known(db.depts, Some(deptId)) && Membership(userId, deptId) !in db.members)
            && (r.Err? ==> db' == db && r.error == if Known(db.depts, Some(deptId)) then UniqueViolation else ForeignKeyViolation)
            && (r.Ok? ==>
                  && DeptsOf(db'.members, userId) == DeptsOf(db.members, userId) + {deptId}
                  && (forall u :: u != userId ==> DeptsOf(db'.members, u) == DeptsOf(db.members, u))
                  && (forall d :: MemberCount(db'.members, d) == MemberCount(db.members, d) + if d == deptId then 1 else 0)
                  && db'.depts == db.depts && db'.grants == db.grants)
  {
    KnownIsInIds(db.depts, deptId);
    var was, now := db.members, db.members + [Membership(userId, deptId)];
    assert now[..|was|] == was;
    forall u ensures DeptsOf(now, u) == DeptsOf(was, u) + if u == userId then {deptId} else {} {
      assert now[|was|] in now;
      forall m ensures m in now <==> m in was || m == Membership(userId, deptId) {}
    }
  }

  lemma RemoveMemberStores(db: Db, userId: nat, deptId: nat)
    ensures var db' := Step(db, RemoveMember(userId, deptId)).0;
            && DeptsOf(db'.members, userId) == DeptsOf(db.members, userId) - {deptId}
            && (forall u :: u != userId ==> DeptsOf(db'.members, u) == DeptsOf(db.members, u))
            && db'.depts == db.depts && db'.grants == db.grants
  {
    FilterMembers((m: Membership) => m != Membership(userId, deptId), db.members);
    var was, now := db.members, Step(db, RemoveMember(userId, deptId)).0.members;
    forall u ensures DeptsOf(now, u) == DeptsOf(was, u) - if u == userId then {deptId} else {} {
      forall m | m in was && m.userId == u && m.deptId !in (if u == userId then {deptId} else {}) ensures m in now {}
    }
  }

  /** Sharing adds a level for exactly the users who belong to the department or to one above it. */
  lemma ShareGrants(db: Db, grant: Grant)
    ensures var (db', r) := Step(db, Share(grant));
            && (r.Ok? <==> Known(db.depts, Some(grant.deptId)) && forall g :: g in db.grants ==> !SameTarget(g, grant))
            && (r.Err? ==> db' == db && r.error == if Known(db.depts, Some(grant.deptId)) then UniqueViolation else ForeignKeyViolation)
            && (r.Ok? ==>
                  && db'.depts == db.depts && db'.members == db.members
                  && forall u, kind, id :: LevelsIn(db', u, kind, id) == LevelsIn(db, u, kind, id) +
                       (if Gains(db, u, grant) && kind == grant.resourceType && id == grant.resourceId then {grant.level} else {}))
  {
    KnownIsInIds(db.depts, grant.deptId);
    var db' := Step(db, Share(grant)).0;
    if Step(db, Share(grant)).1.Ok? {
      forall u, kind, id ensures LevelsIn(db', u, kind, id) == LevelsIn(db, u, kind, id) +
          (if Gains(db, u, grant) && kind == grant.resourceType && id == grant.resourceId then {grant.level} else {}) {
        BelowMeaning(db.depts, DeptsOf(db.members, u), grant.deptId);
        MoreGrants(db.depts, db.members, db.grants, grant, u, kind, id);
      }
    }
  }

  ghost function LevelsIn(db: Db, userId: nat, kind: string, id: nat): set<AccessLevel> {
    Levels(db.depts, db.members, db.grants, userId, kind, id)
  }

  /** The user is a member of the grant's department or of one above it. */
  ghost predicate Gains(db: Db, userId: nat, grant: Grant) {
    exists h :: h in DeptsOf(db.members, userId) && Reaches(db.depts, h, grant.deptId)
  }

  lemma MoreGrants(depts: seq<Department>, members: seq<Membership>, grants: seq<Grant>, g: Grant, userId: nat, kind: string, id: nat)
    ensures Levels(depts, members, grants + [g], userId, kind, id) == Levels(depts, members, grants, userId, kind, id) +
            (if g.deptId in Below(depts, DeptsOf(members, userId)) && g.resourceType == kind && g.resourceId == id then {g.level} else {})
  {
    assert forall h :: h in grants + [g] <==> h in grants || h == g;
  }

  /** Unsharing takes away the grant on that target, and leaves every other. */
  lemma UnshareStores(db: Db, deptId: nat, kind: string, id: nat)
    ensures var db' := Step(db, Unshare(deptId, kind, id)).0;
            && (forall g :: g in db'.grants <==> g in db.grants && !(g.deptId == deptId && g.resourceType == kind && g.resourceId == id))
            && db'.depts == db.depts && db'.members == db.members
  {
    FilterMembers((g: Grant) => !SameTarget(g, Grant(deptId, kind, id, View)), db.grants);
  }

  /** A grant to a new department reaches exactly the users who reach its parent, with the level granted and for nothing else. */
  lemma NewDepartmentsGrants(db: Db, name: string, parent: Option<nat>, kind: string, id: nat, level: AccessLevel, userId: nat)
    requires Inv(db) && Known(db.depts, parent)
    ensures var (db1, r) := Step(db, Create(name, parent));
            && r.Ok?
            && var (db2, s) := Step(db1, Share(Grant(r.value, kind, id, level)));
            && s.Ok?
            && LevelsIn(db2, userId, kind, id) == LevelsIn(db, userId, kind, id) +
                 (if parent.Some? && ReachedFrom(db.depts, DeptsOf(db.members, userId), parent.value) then {level} else {})
  {
    CreateStores(db, name, parent);
    var (db1, r) := Step(db, Create(name, parent));
    var grant := Grant(r.value, kind, id, level);
    NewTarget(db, name, parent, grant);
    ShareGrants(db1, grant);
    var row := Department(r.value, name, parent);
    var roots := DeptsOf(db.members, userId);
    KnownIsInIds(db.depts, r.value);
    if parent.Some? { KnownIsInIds(db.depts, parent.value); }
    MembersAreKnown(db, userId);
    NewRowIsBelow(db.depts, row, roots, row.id);
    assert Gains(db1, userId, grant) <==> ReachedFrom(db1.depts, roots, row.id);
    forall g | g in db.grants ensures g.deptId in Below(db1.depts, roots) <==> g.deptId in Below(db.depts, roots) {
      NewRowIsBelow(db.depts, row, roots, g.deptId);
      BelowMeaning(db.depts, roots, g.deptId);
      BelowMeaning(db1.depts, roots, g.deptId);
    }
    assert LevelsIn(db1, userId, kind, id) == LevelsIn(db, userId, kind, id);
  }

  lemma NewTarget(db: Db, name: string, parent: Option<nat>, grant: Grant)
    requires Inv(db) && Step(db, Create(name, parent)).1 == Ok(grant.deptId)
    ensures var db1 := Step(db, Create(name, parent)).0;
            && Known(db1.depts, Some(grant.deptId)) && forall g :: g in db1.grants ==> !SameTarget(g, grant)
  {
    FreshId(db);
    var db1 := Step(db, Create(name, parent)).0;
    assert db1.depts[|db.depts|].id == grant.deptId;
  }

  lemma MembersAreKnown(db: Db, userId: nat)
    requires Inv(db)
    ensures DeptsOf(db.members, userId) <= IdSet(db.depts)
  {
  }

  // --- Levels ---

  /** The four levels from the lowest to the highest: the answer is the last of them that is granted. */
  lemma HighestIsTheLastGranted(level: Option<AccessLevel>, levels: set<AccessLevel>)
    requires IsHighest(level, levels)
    ensures level == Some(Full) <==> Full in levels
    ensures level == Some(Edit) <==> Edit in levels && Full !in levels
    ensures level == Some(Use) <==> Use in levels && Edit !in levels && Full !in levels
    ensures level == Some(View) <==> levels == {View}
    ensures level == None <==> levels == {}
  {
    HighestIsUnique(level, level, levels);
    forall l | l in levels ensures l == View || l == Use || l == Edit || l == Full {}
    if level == Some(View) {
      forall l | l in levels ensures l == View { assert Rank(Some(l)) <= 1; }
    }
    if levels == {View} { assert level.value in {View}; }
  }
}
