/** The department service over mutable tables (app/department/service.py). */
module Departments {
  import opened Wrappers
  import opened Sequences
  import opened DepartmentSpec
  import opened DepartmentForest
  import opened DepartmentRuns

  /** A node of the nested listing; children are appended in place. */
  class TreeNode {
    const dept: Department
    const memberCount: nat
    var children: seq<TreeNode>

    constructor (dept: Department, memberCount: nat)
      ensures this.dept == dept && this.memberCount == memberCount && children == []
    {
      this.dept, this.memberCount := dept, memberCount;
      children := [];
    }
  }

  /** The object structure below n has exactly the shape of t and carries the right counts. */
  ghost predicate Represents(n: TreeNode, t: Tree, members: seq<Membership>, repr: set<TreeNode>)
    reads repr
    decreases t
  {
    && n in repr && n.dept == t.dept
    && n.memberCount == MemberCount(members, n.dept.id)
    && |n.children| == |t.children|
    && forall i :: 0 <= i < |t.children| ==> Represents(n.children[i], t.children[i], members, repr)
  }

  ghost predicate NodesMatch(nodes: map<nat, TreeNode>, objects: seq<TreeNode>, rows: seq<Department>) {
    && |objects| == |rows|
    && forall i :: 0 <= i < |rows| ==> rows[i].id in nodes && objects[i] == nodes[rows[i].id]
  }

  ghost predicate NodesFor(nodes: map<nat, TreeNode>, depts: seq<Department>, members: seq<Membership>) {
    && nodes.Keys == IdSet(depts)
    && (forall d :: d in depts ==> d.id in nodes && nodes[d.id].dept == d && nodes[d.id].memberCount == MemberCount(members, d.id))
    && (forall x, y :: x in nodes && y in nodes && x != y ==> nodes[x] != nodes[y])
  }

  /** Every object's children are the rows of the processed prefix that name it as parent, in listing order. */
  ghost predicate Linked(nodes: map<nat, TreeNode>, done: seq<Department>)
    reads nodes.Values
  {
    forall x :: x in nodes ==> NodesMatch(nodes, nodes[x].children, Kids(done, x))
  }

  lemma {:induction false} NodeRepresents(nodes: map<nat, TreeNode>, depts: seq<Department>, members: seq<Membership>, d: Department)
    requires Forest(depts) && d in depts && NodesFor(nodes, depts, members) && Linked(nodes, depts)
    ensures d.id in nodes && Represents(nodes[d.id], TreeOf(depts, d), members, nodes.Values)
    decreases Beneath(depts, d.id)
  {
    KidsMeaning(depts, d.id);
    var kids := Kids(depts, d.id);
    assert NodesMatch(nodes, nodes[d.id].children, kids);
    forall i | 0 <= i < |kids| ensures Represents(nodes[kids[i].id], TreeOf(depts, kids[i]), members, nodes.Values) {
      KidFacts(depts, d.id, kids[i]);
      NodeRepresents(nodes, depts, members, kids[i]);
    }
  }

  /** The order in which the rows are listed does not matter to being a forest. */
  lemma ForestPermutes(depts: seq<Department>, listing: seq<Department>)
    requires multiset(listing) == multiset(depts) && Forest(depts)
    ensures Forest(listing)
  {
    assert forall d :: d in listing <==> d in multiset(listing);
    assert forall d :: d in depts <==> d in multiset(depts);
    assert |listing| == |multiset(listing)| == |depts|;
    TablePermutes(depts, listing);
    forall x ensures ParentOf(listing, x) == ParentOf(depts, x) { ParentsPermute(depts, listing, x); }
    forall d: nat ensures !Under(listing, d, d) {
      if Under(listing, d, d) {
        var n: nat :| n >= 1 && Up(listing, d, n) == Some(d);
        UpIgnoresNames(listing, depts, d, n);
        assert Under(depts, d, d);
      }
    }
  }

  lemma TablePermutes(depts: seq<Department>, listing: seq<Department>)
    requires |listing| == |depts| && (forall d :: d in listing <==> d in depts) && IsTable(depts)
    ensures IsTable(listing) && IdSet(listing) == IdSet(depts)
  {
    SameIds(depts, listing);
    SameIds(listing, depts);
    assert Elements(Ids(listing)) == IdSet(listing) == IdSet(depts) == Elements(Ids(depts));
    ElementsSize(Ids(listing));
    ElementsSize(Ids(depts));
    assert |Elements(Ids(listing))| == |Ids(listing)|;
  }

  lemma ParentsPermute(depts: seq<Department>, listing: seq<Department>, x: nat)
    requires IsTable(depts) && IsTable(listing) && forall d :: d in listing <==> d in depts
    ensures ParentOf(listing, x) == ParentOf(depts, x)
  {
    if ParentOf(listing, x).Some? {
      var row := RowOfParent(listing, x);
      ParentOfRow(depts, row);
    } else if ParentOf(depts, x).Some? {
      var row := RowOfParent(depts, x);
      ParentOfRow(listing, row);
    }
  }

  lemma SameIds(a: seq<Department>, b: seq<Department>)
    requires forall d :: d in a ==> d in b
    ensures IdSet(a) <= IdSet(b)
  {
    forall x | x in IdSet(a) ensures x in IdSet(b) {
      var i :| 0 <= i < |a| && Ids(a)[i] == x;
      assert a[i] in b;
      var j :| 0 <= j < |b| && b[j] == a[i];
      assert Ids(b)[j] == x;
    }
  }

  lemma {:induction false} RootsRepresent(nodes: map<nat, TreeNode>, listing: seq<Department>, members: seq<Membership>, roots: seq<TreeNode>)
    requires Forest(listing) && NodesFor(nodes, listing, members) && Linked(nodes, listing)
    requires NodesMatch(nodes, roots, Roots(listing, IdSet(listing)))
    ensures |roots| == |ForestOf(listing)|
    ensures forall i :: 0 <= i < |roots| ==> Represents(roots[i], ForestOf(listing)[i], members, nodes.Values)
  {
    RootsAreInside(listing);
    forall i | 0 <= i < |roots| ensures Represents(roots[i], ForestOf(listing)[i], members, nodes.Values) {
      var r := Roots(listing, IdSet(listing))[i];
      assert r in Roots(listing, IdSet(listing));
      NodeRepresents(nodes, listing, members, r);
    }
  }

  lemma RootsGrow(nodes: map<nat, TreeNode>, listing: seq<Department>, i: nat, roots: seq<TreeNode>)
    requires nodes.Keys == IdSet(listing) && i < |listing| && listing[i].id in nodes
    requires NodesMatch(nodes, roots, Roots(listing[..i], IdSet(listing)))
    ensures var d := listing[i];
            NodesMatch(nodes, if d.parent.Some? && d.parent.value in nodes then roots else roots + [nodes[d.id]],
                       Roots(listing[..i + 1], IdSet(listing)))
  {
    assert listing[..i + 1][..i] == listing[..i];
  }

  lemma NotAKid(nodes: map<nat, TreeNode>, listing: seq<Department>, i: nat)
    requires i < |listing| && Linked(nodes, listing[..i])
    requires !(listing[i].parent.Some? && listing[i].parent.value in nodes)
    ensures Linked(nodes, listing[..i + 1])
  {
    assert listing[..i + 1][..i] == listing[..i];
    forall x | x in nodes ensures NodesMatch(nodes, nodes[x].children, Kids(listing[..i + 1], x)) {
      assert NodesMatch(nodes, nodes[x].children, Kids(listing[..i], x));
    }
  }

  // --- The traversal ---

  ghost predicate AllReached(depts: seq<Department>, roots: set<nat>, all: set<nat>) {
    forall d :: d in all ==> ReachedFrom(depts, roots, d)
  }

  /** Children of known departments are known, unless the department is still pending. */
  ghost predicate ClosedExcept(depts: seq<Department>, all: set<nat>, pending: set<nat>) {
    forall row :: row in depts && row.parent.Some? && row.parent.value in all && row.parent.value !in pending ==> row.id in all
  }

  ghost function NewChildren(depts: seq<Department>, all: set<nat>, pending: set<nat>): set<nat> {
    set row | row in depts && row.parent.Some? && row.parent.value in pending && row.id !in all :: row.id
  }

  lemma ClosureStep(depts: seq<Department>, roots: set<nat>, all: set<nat>, pending: set<nat>, children: set<nat>)
    requires IsTable(depts) && pending <= all && children == NewChildren(depts, all, pending)
    requires AllReached(depts, roots, all) && ClosedExcept(depts, all, pending)
    ensures AllReached(depts, roots, all + children) && ClosedExcept(depts, all + children, children)
  {
    forall c | c in children ensures ReachedFrom(depts, roots, c) {
      var row :| row in depts && row.parent.Some? && row.parent.value in pending && row.id == c;
      ChildIsReached(depts, roots, row);
    }
  }

  class DepartmentService {
    var depts: seq<Department>
    var members: seq<Membership>
    var grants: seq<Grant>
    var nextId: nat

    function State(): Db
      reads this
    {
      Db(depts, members, grants, nextId)
    }

    constructor ()
      ensures State() == EMPTY_DB
    {
      depts, members, grants, nextId := [], [], [], 0;
    }

    method CreateDepartment(name: string, parent: Option<nat>) returns (r: Result<nat, DeptError>)
      modifies this`depts, this`nextId
      ensures (State(), r) == Step(old(State()), Op.Create(name, parent))
    {
      if parent.Some? && parent.value !in Ids(depts) {
        return Err(ForeignKeyViolation);
      }
      depts := depts + [Department(nextId, name, parent)];
      nextId := nextId + 1;
      return Ok(nextId - 1);
    }

    method UpdateDepartment(id: nat, name: string) returns (r: Result<nat, DeptError>)
      modifies this`depts
      ensures (State(), r) == Step(old(State()), Op.Rename(id, name))
    {
      if id !in Ids(depts) {
        return Err(DepartmentNotFound);
      }
      for i := 0 to |depts|
        invariant |depts| == |old(depts)|
        invariant forall j :: 0 <= j < |depts| ==>
          depts[j] == if j < i && old(depts)[j].id == id then old(depts)[j].(name := name) else old(depts)[j]
      {
        if depts[i].id == id {
          depts := depts[i := depts[i].(name := name)];
        }
      }
      assert depts == Renamed(old(depts), id, name);
      return Ok(id);
    }

    method DeleteDepartment(id: nat) returns (r: Result<nat, DeptError>)
      modifies this`depts, this`members, this`grants
      ensures (State(), r) == Step(old(State()), Op.Delete(id))
    {
      if id !in Ids(depts) {
        return Err(DepartmentNotFound);
      }
      var children := Kids(depts, id);
      if children != [] {
        return Err(HasChildren);
      }
      depts := Without(depts, id);
      members := Filter((m: Membership) => m.deptId != id, members);
      grants := Filter((g: Grant) => g.deptId != id, grants);
      return Ok(id);
    }

    method AddMember(userId: nat, deptId: nat) returns (r: Result<nat, DeptError>)
      modifies this`members
      ensures (State(), r) == Step(old(State()), Op.AddMember(userId, deptId))
    {
      if deptId !in Ids(depts) {
        return Err(ForeignKeyViolation);
      }
      if Membership(userId, deptId) in members {
        return Err(UniqueViolation);
      }
      members := members + [Membership(userId, deptId)];
      return Ok(deptId);
    }

    method RemoveMember(userId: nat, deptId: nat)
      modifies this`members
      ensures State() == Step(old(State()), Op.RemoveMember(userId, deptId)).0
    {
      members := Filter((m: Membership) => m != Membership(userId, deptId), members);
    }

    method UnshareResource(deptId: nat, resourceType: string, resourceId: nat)
      modifies this`grants
      ensures State() == Step(old(State()), Op.Unshare(deptId, resourceType, resourceId)).0
    {
      grants := Filter((g: Grant) => !SameTarget(g, Grant(deptId, resourceType, resourceId, View)), grants);
    }

    method ShareResource(grant: Grant) returns (r: Result<nat, DeptError>)
      modifies this`grants
      ensures (State(), r) == Step(old(State()), Op.Share(grant))
    {
      if grant.deptId !in Ids(depts) {
        return Err(ForeignKeyViolation);
      }
      if exists g :: g in grants && SameTarget(g, grant) {
        return Err(UniqueViolation);
      }
      grants := grants + [grant];
      return Ok(grant.deptId);
    }

    /** The worklist closure; it terminates on any parent relation, cyclic ones included. */
    method GetDescendantDepartmentIds(roots: seq<nat>) returns (all: set<nat>)
      requires IsTable(depts)
      ensures all == Below(depts, Elements(roots))
      ensures forall d :: d in all <==> ReachedFrom(depts, Elements(roots), d)
    {
      all := set r | r in roots;
      var pending := roots;
      forall r | r in roots ensures ReachedFrom(depts, Elements(roots), r) {
        assert Up(depts, r, 0) == Some(r);
        assert Reaches(depts, r, r);
      }
      while pending != []
        invariant Elements(roots) <= all && Elements(pending) <= all
        invariant AllReached(depts, Elements(roots), all)
        invariant ClosedExcept(depts, all, Elements(pending))
        decreases IdSet(depts) - all, |pending|
      {
        var children := ChildrenOf(pending, all);
        ghost var before := all;
        ClosureStep(depts, Elements(roots), all, Elements(pending), Elements(children));
        all := all + set c | c in children;
        pending := children;
        if children != [] {
          assert children[0] in Elements(children) && children[0] in IdSet(depts) - before && children[0] in all;
        }
      }
      ClosureIsBelow(depts, Elements(roots), all);
      forall d ensures d in all <==> ReachedFrom(depts, Elements(roots), d) { BelowMeaning(depts, Elements(roots), d); }
    }

    /** SELECT id WHERE parent IN pending, without what is known already. */
    method ChildrenOf(pending: seq<nat>, all: set<nat>) returns (children: seq<nat>)
      ensures Elements(children) == NewChildren(depts, all, Elements(pending))
      ensures Elements(children) <= IdSet(depts) - all
    {
      children := [];
      for i := 0 to |depts|
        invariant Elements(children) == NewChildren(depts[..i], all, Elements(pending))
        invariant Elements(children) <= IdSet(depts) - all
      {
        assert depts[..i + 1] == depts[..i] + [depts[i]];
        assert Ids(depts)[i] == depts[i].id;
        var row := depts[i];
        ghost var was := children;
        if row.parent.Some? && row.parent.value in pending && row.id !in all {
          children := children + [row.id];
          assert Elements(children) == Elements(was) + {row.id};
        }
      }
      assert depts[..|depts|] == depts;
    }

    method GetUserDepartmentIds(userId: nat) returns (ids: seq<nat>)
      ensures Elements(ids) == DeptsOf(members, userId)
    {
      ids := [];
      for i := 0 to |members|
        invariant Elements(ids) == DeptsOf(members[..i], userId)
      {
        assert members[..i + 1] == members[..i] + [members[i]];
        ghost var was := ids;
        if members[i].userId == userId {
          ids := ids + [members[i].deptId];
          assert Elements(ids) == Elements(was) + {members[i].deptId};
        }
      }
      assert members[..|members|] == members;
    }

    method CheckResourceAccess(userId: nat, isSystemAdmin: bool, resourceType: string, resourceId: nat, createdBy: Option<nat>)
      returns (level: Option<AccessLevel>)
      requires IsTable(depts)
      ensures isSystemAdmin || createdBy == Some(userId) ==> level == Some(Full)
      ensures !isSystemAdmin && createdBy != Some(userId) ==>
                IsHighest(level, Levels(depts, members, grants, userId, resourceType, resourceId))
    {
      if isSystemAdmin {
        return Some(Full);
      }
      if createdBy.Some? && createdBy.value == userId {
        return Some(Full);
      }
      var deptIds := GetUserDepartmentIds(userId);
      if deptIds == [] {
        assert DeptsOf(members, userId) == {};
        return None;
      }
      var allIds := GetDescendantDepartmentIds(deptIds);
      var levels: set<AccessLevel> := {};
      for i := 0 to |grants|
        invariant levels == Levels(depts, members, grants[..i], userId, resourceType, resourceId)
      {
        assert grants[..i + 1] == grants[..i] + [grants[i]];
        var g := grants[i];
        if g.deptId in allIds && g.resourceType == resourceType && g.resourceId == resourceId {
          levels := levels + {g.level};
        }
      }
      assert grants[..|grants|] == grants;
      if levels == {} {
        return None;
      }
      var priority := [Full, Edit, Use, View];
      for i := 0 to |priority|
        invariant forall l :: l in levels ==> Rank(Some(l)) <= 4 - i
      {
        if priority[i] in levels {
          return Some(priority[i]);
        }
      }
      return None;
    }

    /** The listing query and the access check agree: a resource is listed exactly when some level is granted on it. */
    method GetAccessibleResourceIds(userId: nat, resourceType: string) returns (ids: seq<nat>)
      requires IsTable(depts)
      ensures forall r :: r in ids <==> Levels(depts, members, grants, userId, resourceType, r) != {}
      ensures forall r, level :: IsHighest(level, Levels(depts, members, grants, userId, resourceType, r)) ==>
                (r in ids <==> level.Some?)
    {
      ids := [];
      var deptIds := GetUserDepartmentIds(userId);
      var allIds := {};
      if deptIds != [] {
        allIds := GetDescendantDepartmentIds(deptIds);
        for i := 0 to |grants|
          invariant forall r :: r in ids <==> Levels(depts, members, grants[..i], userId, resourceType, r) != {}
        {
          assert grants[..i + 1] == grants[..i] + [grants[i]];
          LevelsAppend(depts, members, grants[..i], grants[i], userId, resourceType);
          if grants[i].deptId in allIds && grants[i].resourceType == resourceType {
            ids := ids + [grants[i].resourceId];
          }
        }
        assert grants[..|grants|] == grants;
      } else {
        assert DeptsOf(members, userId) == {};
      }
      forall r, level | IsHighest(level, Levels(depts, members, grants, userId, resourceType, r))
        ensures r in ids <==> level.Some?
      {
        HighestIsUnique(level, level, Levels(depts, members, grants, userId, resourceType, r));
      }
    }

    /** Puts node i under its parent, or among the roots when the parent has no node. */
    method PlaceNode(nodes: map<nat, TreeNode>, listing: seq<Department>, i: nat, roots0: seq<TreeNode>) returns (roots: seq<TreeNode>)
      requires IsTable(listing) && NodesFor(nodes, listing, members) && i < |listing| && Linked(nodes, listing[..i])
      requires NodesMatch(nodes, roots0, Roots(listing[..i], IdSet(listing)))
      modifies nodes.Values
      ensures Linked(nodes, listing[..i + 1])
      ensures NodesMatch(nodes, roots, Roots(listing[..i + 1], IdSet(listing)))
    {
      var d := listing[i];
      roots := roots0;
      assert d in listing;
      RootsGrow(nodes, listing, i, roots0);
      if d.parent.Some? && d.parent.value in nodes {
        AppendChild(nodes, listing, i);
      } else {
        NotAKid(nodes, listing, i);
        roots := roots + [nodes[d.id]];
      }
    }

    /** Nested listing over any ordering of the table. */
    method GetDepartmentTree(listing: seq<Department>) returns (roots: seq<TreeNode>, ghost repr: set<TreeNode>)
      requires multiset(listing) == multiset(depts) && Forest(depts)
      ensures Forest(listing) && |roots| == |ForestOf(listing)|
      ensures forall i :: 0 <= i < |roots| ==> Represents(roots[i], ForestOf(listing)[i], members, repr)
    {
      ForestPermutes(depts, listing);
      var nodes := MakeNodes(listing);
      repr := nodes.Values;
      roots := [];
      ghost var known := IdSet(listing);
      for i := 0 to |listing|
        invariant Linked(nodes, listing[..i])
        invariant NodesMatch(nodes, roots, Roots(listing[..i], known))
      {
        roots := PlaceNode(nodes, listing, i, roots);
      }
      assert listing[..|listing|] == listing;
      RootsRepresent(nodes, listing, members, roots);
    }

    method AppendChild(nodes: map<nat, TreeNode>, listing: seq<Department>, i: nat)
      requires NodesFor(nodes, listing, members) && i < |listing|
      requires listing[i].parent.Some? && listing[i].parent.value in nodes
      requires Linked(nodes, listing[..i])
      modifies nodes.Values
      ensures Linked(nodes, listing[..i + 1])
    {
      var d := listing[i];
      assert listing[..i + 1][..i] == listing[..i] && d in listing;
      var parent := nodes[d.parent.value];
      parent.children := parent.children + [nodes[d.id]];
      forall x | x in nodes ensures NodesMatch(nodes, nodes[x].children, Kids(listing[..i + 1], x)) {
        assert old(NodesMatch(nodes, nodes[x].children, Kids(listing[..i], x)));
      }
    }

    method MakeNodes(listing: seq<Department>) returns (nodes: map<nat, TreeNode>)
      requires IsTable(listing)
      ensures NodesFor(nodes, listing, members) && Linked(nodes, [])
      ensures fresh(nodes.Values)
    {
      nodes := map[];
      for i := 0 to |listing|
        invariant nodes.Keys == IdSet(listing[..i])
        invariant forall x :: x in nodes ==> fresh(nodes[x]) && nodes[x].children == []
        invariant forall j :: 0 <= j < i ==>
          && listing[j].id in nodes && nodes[listing[j].id].dept == listing[j]
          && nodes[listing[j].id].memberCount == MemberCount(members, listing[j].id)
        invariant forall x, y :: x in nodes && y in nodes && x != y ==> nodes[x] != nodes[y]
      {
        var d := listing[i];
        var n := new TreeNode(d, MemberCount(members, d.id));
        assert Ids(listing[..i + 1]) == Ids(listing[..i]) + [d.id];
        forall j | 0 <= j < i ensures listing[j].id != d.id { assert Ids(listing)[j] != Ids(listing)[i]; }
        nodes := nodes[d.id := n];
      }
      assert listing[..|listing|] == listing;
    }
  }

  lemma LevelsAppend(depts: seq<Department>, members: seq<Membership>, grants: seq<Grant>, g: Grant, userId: nat, resourceType: string)
    ensures forall r :: Levels(depts, members, grants + [g], userId, resourceType, r) ==
              Levels(depts, members, grants, userId, resourceType, r) +
              if g.deptId in Below(depts, DeptsOf(members, userId)) && g.resourceType == resourceType && g.resourceId == r then {g.level} else {}
  {
  }
}
