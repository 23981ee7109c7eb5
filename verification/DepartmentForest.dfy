/** Department trees: unfolding an acyclic parent relation loses and repeats nothing (app/department/service.py). */
module DepartmentForest {
  import opened Wrappers
  import opened Sequences
  import opened DepartmentSpec

  ghost predicate Acyclic(depts: seq<Department>) {
    forall d :: !Under(depts, d, d)
  }

  /** Distinct ids, existing parents, no cycle. */
  ghost predicate Forest(depts: seq<Department>) {
    && IsTable(depts)
    && (forall d :: d in depts && d.parent.Some? ==> d.parent.value in IdSet(depts))
    && Acyclic(depts)
  }

  function Kids(depts: seq<Department>, id: nat): seq<Department> {
    Filter((d: Department) => d.parent == Some(id), depts)
  }

  /** Rows without a parent among the known ids. */
  function Roots(depts: seq<Department>, known: set<nat>): seq<Department> {
    Filter((d: Department) => !(d.parent.Some? && d.parent.value in known), depts)
  }

  /** A part of a table is a table. */
  lemma FilterKeepsTable(p: Department -> bool, depts: seq<Department>)
    requires IsTable(depts)
    ensures IsTable(Filter(p, depts))
  {
    var part := Filter(p, depts);
    forall i, j | 0 <= i < j < |depts| ensures depts[i].id != depts[j].id { assert Ids(depts)[i] != Ids(depts)[j]; }
    FilterPairs(p, depts, (d: Department, e: Department) => d.id != e.id);
    forall i, j | 0 <= i < j < |part| ensures Ids(part)[i] != Ids(part)[j] { assert part[i].id != part[j].id; }
  }

  lemma KidsMeaning(depts: seq<Department>, id: nat)
    ensures forall d :: d in Kids(depts, id) <==> d in depts && d.parent == Some(id)
    ensures IsTable(depts) ==> IsTable(Kids(depts, id))
  {
    FilterMembers((d: Department) => d.parent == Some(id), depts);
    if IsTable(depts) { FilterKeepsTable((d: Department) => d.parent == Some(id), depts); }
  }

  lemma RootsMeaning(depts: seq<Department>, known: set<nat>)
    ensures forall d :: d in Roots(depts, known) <==> d in depts && !(d.parent.Some? && d.parent.value in known)
    ensures IsTable(depts) ==> IsTable(Roots(depts, known))
  {
    FilterMembers((d: Department) => !(d.parent.Some? && d.parent.value in known), depts);
    if IsTable(depts) { FilterKeepsTable((d: Department) => !(d.parent.Some? && d.parent.value in known), depts); }
  }

  // --- Unfolding ---

  datatype Tree = Node(dept: Department, children: seq<Tree>)

  ghost function Beneath(depts: seq<Department>, id: nat): set<nat> {
    set x | x in IdSet(depts) && Under(depts, id, x)
  }

  lemma KidFacts(depts: seq<Department>, id: nat, kid: Department)
    requires Forest(depts) && kid in depts && kid.parent == Some(id)
    ensures Under(depts, id, kid.id) && kid.id in Beneath(depts, id)
    ensures Beneath(depts, kid.id) < Beneath(depts, id)
  {
    ParentOfRow(depts, kid);
    assert Up(depts, kid.id, 1) == Up(depts, id, 0) == Some(id);
    forall x | x in Beneath(depts, kid.id) ensures x in Beneath(depts, id) {
      ReachesTransitive(depts, id, kid.id, x);
    }
    assert kid.id !in Beneath(depts, kid.id);
  }

  ghost function TreeOf(depts: seq<Department>, d: Department): (t: Tree)
    requires Forest(depts) && d in depts
    ensures t.dept == d
    decreases Beneath(depts, d.id)
  {
    KidsMeaning(depts, d.id);
    assert forall k :: k in Kids(depts, d.id) ==> Beneath(depts, k.id) < Beneath(depts, d.id) by {
      forall k | k in Kids(depts, d.id) ensures Beneath(depts, k.id) < Beneath(depts, d.id) { KidFacts(depts, d.id, k); }
    }
    Node(d, TreesOf(depts, Beneath(depts, d.id), Kids(depts, d.id)))
  }

  ghost function TreesOf(depts: seq<Department>, bound: set<nat>, list: seq<Department>): (ts: seq<Tree>)
    requires Forest(depts)
    requires forall k :: k in list ==> k in depts && Beneath(depts, k.id) < bound
    ensures |ts| == |list| && forall i :: 0 <= i < |ts| ==> ts[i] == TreeOf(depts, list[i])
    decreases bound, |list|
  {
    if list == [] then []
    else [TreeOf(depts, list[0])] + TreesOf(depts, bound, list[1..])
  }

  lemma RootsAreInside(depts: seq<Department>)
    requires Forest(depts)
    ensures forall d :: d in Roots(depts, IdSet(depts)) ==> d in depts && Beneath(depts, d.id) < IdSet(depts)
  {
    RootsMeaning(depts, IdSet(depts));
    forall d | d in Roots(depts, IdSet(depts)) ensures Beneath(depts, d.id) < IdSet(depts) {
      ParentOfRow(depts, d);
      assert d.id !in Beneath(depts, d.id);
    }
  }

  /** The nested listing of a department table. */
  ghost function ForestOf(depts: seq<Department>): seq<Tree>
    requires Forest(depts)
  {
    RootsAreInside(depts);
    TreesOf(depts, IdSet(depts), Roots(depts, IdSet(depts)))
  }

  ghost function Flatten(t: Tree): seq<Department> {
    [t.dept] + FlattenAll(t.children)
  }

  ghost function FlattenAll(ts: seq<Tree>): seq<Department> {
    if ts == [] then [] else Flatten(ts[0]) + FlattenAll(ts[1..])
  }

  /** Every child hangs under the department its row names as parent. */
  ghost predicate WellPlaced(t: Tree) {
    forall i :: 0 <= i < |t.children| ==> t.children[i].dept.parent == Some(t.dept.id) && WellPlaced(t.children[i])
  }

  lemma {:induction false} TreeIsWellPlaced(depts: seq<Department>, d: Department)
    requires Forest(depts) && d in depts
    ensures WellPlaced(TreeOf(depts, d))
    decreases Beneath(depts, d.id)
  {
    KidsMeaning(depts, d.id);
    var kids := Kids(depts, d.id);
    forall i | 0 <= i < |kids| ensures WellPlaced(TreeOf(depts, kids[i])) {
      KidFacts(depts, d.id, kids[i]);
      TreeIsWellPlaced(depts, kids[i]);
    }
  }

  // --- Nothing twice, nothing lost ---

  /** Two ancestors of one department lie on one line. */
  lemma OneLine(depts: seq<Department>, a: nat, b: nat, x: nat)
    requires Reaches(depts, a, x) && Reaches(depts, b, x)
    ensures Reaches(depts, a, b) || Reaches(depts, b, a)
  {
    var m: nat :| Up(depts, x, m) == Some(a);
    var n: nat :| Up(depts, x, n) == Some(b);
    if m <= n {
      UpUp(depts, x, m, n - m);
    } else {
      UpUp(depts, x, n, m - n);
    }
  }

  ghost predicate Apart(depts: seq<Department>, list: seq<Department>) {
    forall i, j :: 0 <= i < |list| && 0 <= j < |list| && i != j ==> !Reaches(depts, list[i].id, list[j].id)
  }

  /** Two children of one department are not above one another, or there would be a cycle. */
  lemma SiblingsAreApart(depts: seq<Department>, id: nat, a: Department, b: Department)
    requires Forest(depts) && a in depts && b in depts && a.id != b.id
    requires a.parent == Some(id) && b.parent == Some(id)
    ensures !Reaches(depts, a.id, b.id)
  {
    if Reaches(depts, a.id, b.id) {
      var n: nat :| Up(depts, b.id, n) == Some(a.id);
      ParentOfRow(depts, a);
      ParentOfRow(depts, b);
      assert Up(depts, id, n - 1) == Some(a.id) && Up(depts, a.id, 1) == Up(depts, id, 0);
      assert !Under(depts, id, id);
      UpUp(depts, id, n - 1, 1);
      assert false;
    }
  }

  lemma KidsAreApart(depts: seq<Department>, id: nat)
    requires Forest(depts)
    ensures Apart(depts, Kids(depts, id))
  {
    KidsMeaning(depts, id);
    var kids := Kids(depts, id);
    forall i, j | 0 <= i < |kids| && 0 <= j < |kids| && i != j ensures !Reaches(depts, kids[i].id, kids[j].id) {
      assert Ids(kids)[i] != Ids(kids)[j];
      assert kids[i] in kids && kids[j] in kids;
      SiblingsAreApart(depts, id, kids[i], kids[j]);
    }
  }

  lemma RootsAreApart(depts: seq<Department>)
    requires Forest(depts)
    ensures Apart(depts, Roots(depts, IdSet(depts)))
  {
    RootsMeaning(depts, IdSet(depts));
    var roots := Roots(depts, IdSet(depts));
    forall i, j | 0 <= i < |roots| && 0 <= j < |roots| && i != j ensures !Reaches(depts, roots[i].id, roots[j].id) {
      assert Ids(roots)[i] != Ids(roots)[j];
      ParentOfRow(depts, roots[j]);
    }
  }

  /** The ids of a list of subtrees: the listed departments and what lies below them. */
  ghost function Spanned(depts: seq<Department>, list: seq<Department>): set<nat> {
    set x | x in IdSet(depts) && exists k :: k in list && Reaches(depts, k.id, x)
  }

  ghost predicate Covers(depts: seq<Department>, flat: seq<Department>, ids: set<nat>) {
    IsTable(flat) && IdSet(flat) == ids && forall d :: d in flat ==> d in depts
  }

  lemma IdsConcat(a: seq<Department>, b: seq<Department>)
    ensures Ids(a + b) == Ids(a) + Ids(b)
    ensures IdSet(a + b) == IdSet(a) + IdSet(b)
    ensures IsTable(a) && IsTable(b) && IdSet(a) !! IdSet(b) ==> IsTable(a + b)
  {
    assert Ids(a + b) == Ids(a) + Ids(b);
    if IsTable(a) && IsTable(b) && IdSet(a) !! IdSet(b) {
      forall i, j | 0 <= i < j < |a + b| ensures Ids(a + b)[i] != Ids(a + b)[j] {
        if i < |a| <= j { assert Ids(a)[i] in IdSet(a) && Ids(b)[j - |a|] in IdSet(b); }
      }
    }
  }

  lemma {:induction false} TreeCovers(depts: seq<Department>, d: Department)
    requires Forest(depts) && d in depts
    ensures Covers(depts, Flatten(TreeOf(depts, d)), Spanned(depts, [d]))
    decreases Beneath(depts, d.id)
  {
    KidsMeaning(depts, d.id);
    var kids := Kids(depts, d.id);
    forall k | k in kids ensures Beneath(depts, k.id) < Beneath(depts, d.id) { KidFacts(depts, d.id, k); }
    KidsAreApart(depts, d.id);
    ListCovers(depts, Beneath(depts, d.id), kids);
    var rest := FlattenAll(TreeOf(depts, d).children);
    ParentOfRow(depts, d);
    assert Ids([d]) == [d.id] && IdSet([d]) == {d.id};
    assert d.id !in Spanned(depts, kids) by {
      if d.id in Spanned(depts, kids) {
        var k :| k in kids && Reaches(depts, k.id, d.id);
        KidFacts(depts, d.id, k);
        ReachesTransitive(depts, d.id, k.id, d.id);
      }
    }
    IdsConcat([d], rest);
    SpannedByKids(depts, d);
  }

  /** Below a department means: it, or below one of its children. */
  lemma SpannedByKids(depts: seq<Department>, d: Department)
    requires Forest(depts) && d in depts
    ensures Spanned(depts, [d]) == {d.id} + Spanned(depts, Kids(depts, d.id))
  {
    KidsMeaning(depts, d.id);
    ParentOfRow(depts, d);
    assert Up(depts, d.id, 0) == Some(d.id);
    assert d in [d];
    forall x | x in Spanned(depts, Kids(depts, d.id)) ensures x in Spanned(depts, [d]) {
      var k :| k in Kids(depts, d.id) && Reaches(depts, k.id, x);
      KidFacts(depts, d.id, k);
      ReachesTransitive(depts, d.id, k.id, x);
    }
    forall x | x in Spanned(depts, [d]) && x != d.id ensures x in Spanned(depts, Kids(depts, d.id)) {
      var n: nat :| Up(depts, x, n) == Some(d.id);
      var k := LastStep(depts, x, n, d.id);
    }
  }

  /** A climb of positive length ends with the step from a child. */
  lemma {:induction false} LastStep(depts: seq<Department>, x: nat, n: nat, id: nat) returns (k: Department)
    requires n >= 1 && Up(depts, x, n) == Some(id)
    ensures k in depts && k.parent == Some(id) && Reaches(depts, k.id, x)
    decreases n
  {
    var row := RowOfParent(depts, x);
    if n == 1 {
      k := row;
      assert Up(depts, x, 0) == Some(x);
    } else {
      k := LastStep(depts, row.parent.value, n - 1, id);
      var m: nat :| Up(depts, row.parent.value, m) == Some(k.id);
      assert Up(depts, x, m + 1) == Up(depts, row.parent.value, m);
    }
  }

  lemma {:induction false} ListCovers(depts: seq<Department>, bound: set<nat>, list: seq<Department>)
    requires Forest(depts) && Apart(depts, list)
    requires forall k :: k in list ==> k in depts && Beneath(depts, k.id) < bound
    ensures Covers(depts, FlattenAll(TreesOf(depts, bound, list)), Spanned(depts, list))
    decreases bound, |list|
  {
    if list != [] {
      TreeCovers(depts, list[0]);
      ListCovers(depts, bound, list[1..]);
      var first := Flatten(TreeOf(depts, list[0]));
      var rest := FlattenAll(TreesOf(depts, bound, list[1..]));
      SpannedSplits(depts, list);
      IdsConcat(first, rest);
    }
  }

  lemma SpannedSplits(depts: seq<Department>, list: seq<Department>)
    requires list != [] && Apart(depts, list)
    ensures Spanned(depts, list) == Spanned(depts, [list[0]]) + Spanned(depts, list[1..])
    ensures Spanned(depts, [list[0]]) !! Spanned(depts, list[1..])
  {
    assert list == [list[0]] + list[1..];
    forall x | x in Spanned(depts, list[1..]) ensures x !in Spanned(depts, [list[0]]) {
      var k :| k in list[1..] && Reaches(depts, k.id, x);
      var j :| 0 <= j < |list[1..]| && list[1..][j] == k;
      assert list[j + 1] == k;
      if Reaches(depts, list[0].id, x) { OneLine(depts, list[0].id, k.id, x); }
    }
  }

  /** Every department hangs below some root. */
  lemma {:induction false} ClimbToRoot(depts: seq<Department>, d: Department)
    requires Forest(depts) && d in depts
    ensures d.id in Spanned(depts, Roots(depts, IdSet(depts)))
    decreases IdSet(depts) - Beneath(depts, d.id)
  {
    RootsMeaning(depts, IdSet(depts));
    ParentOfRow(depts, d);
    assert Up(depts, d.id, 0) == Some(d.id);
    if d.parent.Some? {
      var i :| 0 <= i < |depts| && Ids(depts)[i] == d.parent.value;
      KidFacts(depts, depts[i].id, d);
      ClimbToRoot(depts, depts[i]);
      var r :| r in Roots(depts, IdSet(depts)) && Reaches(depts, r.id, depts[i].id);
      ReachesTransitive(depts, r.id, depts[i].id, d.id);
    }
  }

  /** The nested listing holds every department exactly once, each under its own parent. */
  lemma {:induction false} ForestLosesNothing(depts: seq<Department>)
    requires Forest(depts)
    ensures var flat := FlattenAll(ForestOf(depts));
            && IsTable(flat) && |flat| == |depts|
            && (forall d :: d in flat <==> d in depts)
    ensures forall i :: 0 <= i < |ForestOf(depts)| ==> ForestOf(depts)[i].dept.parent.None? && WellPlaced(ForestOf(depts)[i])
  {
    ForestCovers(depts);
    CoverIsListing(depts, FlattenAll(ForestOf(depts)));
    var roots := Roots(depts, IdSet(depts));
    RootsMeaning(depts, IdSet(depts));
    forall i | 0 <= i < |roots| ensures WellPlaced(TreeOf(depts, roots[i])) { TreeIsWellPlaced(depts, roots[i]); }
  }

  lemma ForestCovers(depts: seq<Department>)
    requires Forest(depts)
    ensures Covers(depts, FlattenAll(ForestOf(depts)), IdSet(depts))
  {
    var roots := Roots(depts, IdSet(depts));
    RootsAreInside(depts);
    RootsAreApart(depts);
    ListCovers(depts, IdSet(depts), roots);
    forall x | x in IdSet(depts) ensures x in Spanned(depts, roots) {
      var i :| 0 <= i < |depts| && Ids(depts)[i] == x;
      ClimbToRoot(depts, depts[i]);
    }
    assert Spanned(depts, roots) == IdSet(depts);
  }

  /** A duplicate-free selection of rows that mentions every id is the whole table. */
  lemma CoverIsListing(depts: seq<Department>, flat: seq<Department>)
    requires IsTable(depts) && Covers(depts, flat, IdSet(depts))
    ensures |flat| == |depts| && forall d :: d in flat <==> d in depts
  {
    DistinctSize(Ids(flat));
    DistinctSize(Ids(depts));
    forall d | d in depts ensures d in flat {
      ParentOfRow(depts, d);
      var i :| 0 <= i < |flat| && Ids(flat)[i] == d.id;
      assert flat[i] in depts;
      SameIdSameRow(depts, flat[i], d);
    }
  }

  lemma SameIdSameRow(depts: seq<Department>, a: Department, b: Department)
    requires IsTable(depts) && a in depts && b in depts && a.id == b.id
    ensures a == b
  {
    var i :| 0 <= i < |depts| && depts[i] == a;
    var j :| 0 <= j < |depts| && depts[j] == b;
    assert Ids(depts)[i] == Ids(depts)[j];
  }

  // --- Member counts ---

  function MemberCount(members: seq<Membership>, id: nat): nat {
    if members == [] then 0
    else MemberCount(members[..|members| - 1], id) + (if members[|members| - 1].deptId == id then 1 else 0)
  }

  ghost function SumCounts(flat: seq<Department>, members: seq<Membership>): nat {
    if flat == [] then 0 else MemberCount(members, flat[0].id) + SumCounts(flat[1..], members)
  }

  lemma {:induction false} SumOfNobody(flat: seq<Department>)
    ensures SumCounts(flat, []) == 0
  {
    if flat != [] { SumOfNobody(flat[1..]); }
  }

  lemma {:induction false} OneMoreMember(flat: seq<Department>, members: seq<Membership>, m: Membership)
    requires IsTable(flat)
    ensures SumCounts(flat, members + [m]) == SumCounts(flat, members) + (if m.deptId in IdSet(flat) then 1 else 0)
  {
    if flat != [] {
      TableTail(flat);
      OneMoreMember(flat[1..], members, m);
      assert (members + [m])[..|members|] == members;
      assert flat == [flat[0]] + flat[1..];
      IdsConcat([flat[0]], flat[1..]);
      assert Ids([flat[0]]) == [flat[0].id] && IdSet([flat[0]]) == {flat[0].id};
      assert forall i :: 0 <= i < |flat[1..]| ==> Ids(flat[1..])[i] == Ids(flat)[i + 1];
      assert flat[0].id !in IdSet(flat[1..]);
    }
  }

  /** The counts in the listing add up to the number of memberships. */
  lemma {:induction false} CountsAddUp(flat: seq<Department>, members: seq<Membership>)
    requires IsTable(flat)
    requires forall m :: m in members ==> m.deptId in IdSet(flat)
    ensures SumCounts(flat, members) == |members|
  {
    if members == [] {
      SumOfNobody(flat);
    } else {
      var n := |members| - 1;
      CountsAddUp(flat, members[..n]);
      OneMoreMember(flat, members[..n], members[n]);
      assert members == members[..n] + [members[n]];
    }
  }
}
