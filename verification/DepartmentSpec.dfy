/** The department table as a parent relation, and what reachability in it means (app/department/service.py). */
module DepartmentSpec {
  import opened Wrappers
  import opened Sequences

  datatype Department = Department(id: nat, name: string, parent: Option<nat>)

  datatype Membership = Membership(userId: nat, deptId: nat)

  // The request schema admits exactly these four levels.
  datatype AccessLevel = View | Use | Edit | Full

  datatype Grant = Grant(deptId: nat, resourceType: string, resourceId: nat, level: AccessLevel)

  function Ids(depts: seq<Department>): (ids: seq<nat>)
    ensures |ids| == |depts| && forall i :: 0 <= i < |depts| ==> ids[i] == depts[i].id
  {
    seq(|depts|, i requires 0 <= i < |depts| => depts[i].id)
  }

  ghost function IdSet(depts: seq<Department>): set<nat> {
    Elements(Ids(depts))
  }

  /** Ids are a primary key. */
  ghost predicate IsTable(depts: seq<Department>) {
    Distinct(Ids(depts))
  }

  function ParentOf(depts: seq<Department>, d: nat): Option<nat> {
    if depts == [] then None
    else if depts[0].id == d then depts[0].parent
    else ParentOf(depts[1..], d)
  }

  lemma {:induction false} ParentOfRow(depts: seq<Department>, d: Department)
    requires IsTable(depts) && d in depts
    ensures ParentOf(depts, d.id) == d.parent && d.id in IdSet(depts)
  {
    var i :| 0 <= i < |depts| && depts[i] == d;
    assert Ids(depts)[i] == d.id;
    if depts[0] != d {
      assert Ids(depts)[0] == depts[0].id;
      TableTail(depts);
      ParentOfRow(depts[1..], d);
    }
  }

  lemma TableTail(depts: seq<Department>)
    requires IsTable(depts) && depts != []
    ensures IsTable(depts[1..])
  {
    assert Ids(depts[1..]) == Ids(depts)[1..];
  }

  lemma {:induction false} RowOfParent(depts: seq<Department>, d: nat) returns (row: Department)
    requires ParentOf(depts, d).Some?
    ensures row in depts && row.id == d && row.parent == ParentOf(depts, d)
  {
    if depts[0].id == d {
      row := depts[0];
    } else {
      row := RowOfParent(depts[1..], d);
    }
  }

  /** The n-th ancestor. */
  function Up(depts: seq<Department>, d: nat, n: nat): Option<nat>
    decreases n
  {
    if n == 0 then Some(d)
    else match ParentOf(depts, d)
      case None => None
      case Some(p) => Up(depts, p, n - 1)
  }

  lemma {:induction false} UpUp(depts: seq<Department>, d: nat, m: nat, n: nat)
    requires Up(depts, d, m).Some?
    ensures Up(depts, d, m + n) == Up(depts, Up(depts, d, m).value, n)
    decreases m
  {
    if m > 0 { UpUp(depts, ParentOf(depts, d).value, m - 1, n); }
  }

  /** d is a or lies below it. */
  ghost predicate Reaches(depts: seq<Department>, a: nat, d: nat) {
    exists n :: Up(depts, d, n) == Some(a)
  }

  /** d lies strictly below a. */
  ghost predicate Under(depts: seq<Department>, a: nat, d: nat) {
    exists n :: n >= 1 && Up(depts, d, n) == Some(a)
  }

  lemma ReachesTransitive(depts: seq<Department>, a: nat, b: nat, c: nat)
    requires Reaches(depts, a, b) && Reaches(depts, b, c)
    ensures Reaches(depts, a, c)
    ensures Under(depts, a, b) || Under(depts, b, c) ==> Under(depts, a, c)
  {
    var m :| Up(depts, b, m) == Some(a);
    var n :| Up(depts, c, n) == Some(b);
    UpUp(depts, c, n, m);
    if Under(depts, a, b) {
      var m1 :| m1 >= 1 && Up(depts, b, m1) == Some(a);
      UpUp(depts, c, n, m1);
    } else if Under(depts, b, c) {
      var n1 :| n1 >= 1 && Up(depts, c, n1) == Some(b);
      UpUp(depts, c, n1, m);
    }
  }

  ghost predicate ReachedFrom(depts: seq<Department>, roots: set<nat>, d: nat) {
    exists r :: r in roots && Reaches(depts, r, d)
  }

  /** The roots and everything below them. */
  ghost function Below(depts: seq<Department>, roots: set<nat>): set<nat> {
    set d | d in roots + IdSet(depts) && ReachedFrom(depts, roots, d)
  }

  lemma BelowMeaning(depts: seq<Department>, roots: set<nat>, d: nat)
    ensures d in Below(depts, roots) <==> ReachedFrom(depts, roots, d)
  {
    if ReachedFrom(depts, roots, d) {
      var r :| r in roots && Reaches(depts, r, d);
      var n :| Up(depts, d, n) == Some(r);
      if n > 0 {
        var row := RowOfParent(depts, d);
        var i :| 0 <= i < |depts| && depts[i] == row;
        assert Ids(depts)[i] == d;
      }
    }
  }

  /** The traversal's result: sound and closed under children. */
  lemma ClosureIsBelow(depts: seq<Department>, roots: set<nat>, all: set<nat>)
    requires IsTable(depts) && roots <= all
    requires forall d :: d in all ==> ReachedFrom(depts, roots, d)
    requires forall row :: row in depts && row.parent.Some? && row.parent.value in all ==> row.id in all
    ensures all == Below(depts, roots)
  {
    forall d | ReachedFrom(depts, roots, d) ensures d in all {
      var r :| r in roots && Reaches(depts, r, d);
      var n :| Up(depts, d, n) == Some(r);
      ClosedUnderClimb(depts, all, d, n);
    }
    forall d ensures d in Below(depts, roots) <==> ReachedFrom(depts, roots, d) { BelowMeaning(depts, roots, d); }
  }

  lemma {:induction false} ClosedUnderClimb(depts: seq<Department>, all: set<nat>, d: nat, n: nat)
    requires forall row :: row in depts && row.parent.Some? && row.parent.value in all ==> row.id in all
    requires Up(depts, d, n).Some? && Up(depts, d, n).value in all
    ensures d in all
    decreases n
  {
    if n > 0 {
      ClosedUnderClimb(depts, all, ParentOf(depts, d).value, n - 1);
      var row := RowOfParent(depts, d);
    }
  }

  lemma ChildIsReached(depts: seq<Department>, roots: set<nat>, row: Department)
    requires IsTable(depts) && row in depts && row.parent.Some?
    requires ReachedFrom(depts, roots, row.parent.value)
    ensures ReachedFrom(depts, roots, row.id)
  {
    ParentOfRow(depts, row);
    var r :| r in roots && Reaches(depts, r, row.parent.value);
    var n: nat :| Up(depts, row.parent.value, n) == Some(r);
    assert Up(depts, row.id, n + 1) == Up(depts, row.parent.value, n);
    assert Up(depts, row.id, n + 1) == Some(r);
  }

  /** More roots, or roots higher up, see at least as much. */
  lemma HigherRootsSeeMore(depts: seq<Department>, high: set<nat>, low: set<nat>)
    requires forall d :: d in low ==> ReachedFrom(depts, high, d)
    ensures Below(depts, low) <= Below(depts, high)
  {
    forall d | d in Below(depts, low) ensures d in Below(depts, high) {
      var r :| r in low && Reaches(depts, r, d);
      var h :| h in high && Reaches(depts, h, r);
      ReachesTransitive(depts, h, r, d);
      BelowMeaning(depts, high, d);
    }
  }

  // --- Access ---

  function Rank(level: Option<AccessLevel>): nat {
    match level
    case None => 0
    case Some(View) => 1
    case Some(Use) => 2
    case Some(Edit) => 3
    case Some(Full) => 4
  }

  ghost function DeptsOf(members: seq<Membership>, userId: nat): set<nat> {
    set m | m in members && m.userId == userId :: m.deptId
  }

  /** The levels that the user's departments and everything below them hold on a resource. */
  ghost function Levels(depts: seq<Department>, members: seq<Membership>, grants: seq<Grant>,
                        userId: nat, resourceType: string, resourceId: nat): set<AccessLevel> {
    set g | g in grants && g.deptId in Below(depts, DeptsOf(members, userId))
            && g.resourceType == resourceType && g.resourceId == resourceId :: g.level
  }

  ghost predicate IsHighest(level: Option<AccessLevel>, levels: set<AccessLevel>) {
    && (level.Some? ==> level.value in levels)
    && forall l :: l in levels ==> Rank(Some(l)) <= Rank(level)
  }

  lemma HighestIsUnique(a: Option<AccessLevel>, b: Option<AccessLevel>, levels: set<AccessLevel>)
    requires IsHighest(a, levels) && IsHighest(b, levels)
    ensures a == b && (a.None? <==> levels == {})
  {
    if levels != {} {
      var l :| l in levels;
      assert Rank(Some(l)) <= Rank(a) && Rank(Some(l)) <= Rank(b);
    }
  }

  /** Membership higher up gives at least the access that membership further down gives. */
  lemma AncestorsSeeAtLeastAsMuch(depts: seq<Department>, members: seq<Membership>, grants: seq<Grant>,
                                  high: nat, low: nat, resourceType: string, resourceId: nat,
                                  levelHigh: Option<AccessLevel>, levelLow: Option<AccessLevel>)
    requires forall d :: d in DeptsOf(members, low) ==> ReachedFrom(depts, DeptsOf(members, high), d)
    requires IsHighest(levelHigh, Levels(depts, members, grants, high, resourceType, resourceId))
    requires IsHighest(levelLow, Levels(depts, members, grants, low, resourceType, resourceId))
    ensures Rank(levelHigh) >= Rank(levelLow)
  {
    HigherRootsSeeMore(depts, DeptsOf(members, high), DeptsOf(members, low));
    if levelLow.Some? {
      assert levelLow.value in Levels(depts, members, grants, high, resourceType, resourceId);
    }
  }
}
