/** Facts about sequences and finite sets that several components need. */
module Sequences {

  ghost predicate Distinct<T>(s: seq<T>) {
    forall i, j :: 0 <= i < j < |s| ==> s[i] != s[j]
  }

  ghost function Elements<T>(s: seq<T>): set<T> {
    set x | x in s
  }

  lemma DistinctSize<T>(s: seq<T>)
    requires Distinct(s)
    ensures |Elements(s)| == |s|
  {
    if s == [] {
    } else {
      var n := |s| - 1;
      assert s == s[..n] + [s[n]];
      assert Elements(s) == Elements(s[..n]) + {s[n]};
      DistinctSize(s[..n]);
    }
  }

  lemma ElementsSize<T>(s: seq<T>)
    ensures |Elements(s)| <= |s|
    ensures |Elements(s)| == |s| <==> Distinct(s)
  {
    if s == [] {
    } else {
      var n := |s| - 1;
      assert s == s[..n] + [s[n]];
      assert Elements(s) == Elements(s[..n]) + {s[n]};
      ElementsSize(s[..n]);
      if Distinct(s[..n]) && s[n] !in s[..n] {
        assert Distinct(s);
      } else if Distinct(s[..n]) {
        var i :| 0 <= i < n && s[..n][i] == s[n];
        assert s[i] == s[n];
        assert Elements(s) == Elements(s[..n]);
      } else {
        var i, j :| 0 <= i < j < n && s[..n][i] == s[..n][j];
        assert s[i] == s[j];
      }
    }
  }

  lemma SubsetSize<T>(a: set<T>, b: set<T>)
    requires a <= b
    ensures |a| <= |b|
    ensures |a| == |b| ==> a == b
  {
    if a != {} {
      var x :| x in a;
      SubsetSize(a - {x}, b - {x});
    }
  }

  /** A sequence longer than the set it draws from repeats an element. */
  lemma Pigeonhole<T>(s: seq<T>, pool: set<T>) returns (i: nat, j: nat)
    requires |s| > |pool|
    requires forall k :: 0 <= k < |s| ==> s[k] in pool
    ensures i < j < |s| && s[i] == s[j]
  {
    SubsetSize(Elements(s), pool);
    if Distinct(s) {
      DistinctSize(s);
      assert false;
    }
    i, j :| 0 <= i < j < |s| && s[i] == s[j];
  }

  // --- Filtering ---

  function Filter<T>(p: T -> bool, s: seq<T>): (r: seq<T>)
    ensures |r| <= |s|
  {
    if s == [] then [] else Filter(p, s[..|s| - 1]) + (if p(s[|s| - 1]) then [s[|s| - 1]] else [])
  }

  lemma {:induction false} FilterMembers<T(!new)>(p: T -> bool, s: seq<T>)
    ensures forall x :: x in Filter(p, s) <==> x in s && p(x)
  {
    if s != [] {
      FilterMembers(p, s[..|s| - 1]);
      assert s == s[..|s| - 1] + [s[|s| - 1]];
    }
  }

  /** What holds of every two elements in order holds of every two that pass. */
  lemma {:induction false} FilterPairs<T(!new)>(p: T -> bool, s: seq<T>, rel: (T, T) -> bool)
    requires forall i, j :: 0 <= i < j < |s| ==> rel(s[i], s[j])
    ensures forall i, j :: 0 <= i < j < |Filter(p, s)| ==> rel(Filter(p, s)[i], Filter(p, s)[j])
  {
    if s != [] {
      var n := |s| - 1;
      FilterPairs(p, s[..n], rel);
      var front := Filter(p, s[..n]);
      FilterMembers(p, s[..n]);
      forall x | x in front ensures rel(x, s[n]) {
        var k :| 0 <= k < n && s[..n][k] == x;
        assert rel(s[k], s[n]);
      }
    }
  }

  lemma {:induction false} FilterConcat<T>(p: T -> bool, a: seq<T>, b: seq<T>)
    ensures Filter(p, a + b) == Filter(p, a) + Filter(p, b)
  {
    if b == [] {
      assert a + b == a;
    } else {
      assert (a + b)[..|a + b| - 1] == a + b[..|b| - 1];
      FilterConcat(p, a, b[..|b| - 1]);
    }
  }

  lemma {:induction false} FilterNone<T>(p: T -> bool, s: seq<T>)
    requires forall i :: 0 <= i < |s| ==> !p(s[i])
    ensures Filter(p, s) == []
  {
    if s != [] { FilterNone(p, s[..|s| - 1]); }
  }

  lemma {:induction false} FilterSame<T>(p: T -> bool, q: T -> bool, s: seq<T>)
    requires forall i :: 0 <= i < |s| ==> p(s[i]) == q(s[i])
    ensures Filter(p, s) == Filter(q, s)
  {
    if s != [] { FilterSame(p, q, s[..|s| - 1]); }
  }

  /** What a filter lets through first, and what is left when that one element no longer passes. */
  lemma FilterHead<T>(p: T -> bool, q: T -> bool, s: seq<T>, n: nat)
    requires n < |s| && p(s[n]) && !q(s[n])
    requires forall i :: 0 <= i < n ==> !p(s[i])
    requires forall i :: 0 <= i < |s| && i != n ==> p(s[i]) == q(s[i])
    ensures Filter(p, s) == [s[n]] + Filter(q, s)
  {
    var a, b := s[..n], s[n + 1..];
    Parts(s, n, a, b);
    HeadOfParts(p, q, a, s[n], b);
  }

  lemma Parts<T>(s: seq<T>, n: nat, a: seq<T>, b: seq<T>)
    requires n < |s| && a == s[..n] && b == s[n + 1..]
    ensures s == a + ([s[n]] + b)
    ensures forall i :: 0 <= i < |a| ==> a[i] == s[i]
    ensures forall i :: 0 <= i < |b| ==> b[i] == s[n + 1 + i]
  {
  }

  lemma HeadOfParts<T>(p: T -> bool, q: T -> bool, a: seq<T>, x: T, b: seq<T>)
    requires p(x) && !q(x)
    requires forall i :: 0 <= i < |a| ==> !p(a[i]) && !q(a[i])
    requires forall i :: 0 <= i < |b| ==> p(b[i]) == q(b[i])
    ensures Filter(p, a + ([x] + b)) == [x] + Filter(q, a + ([x] + b))
  {
    FilterFirst(p, a, x, b);
    FilterFirst(q, a, x, b);
    FilterSame(p, q, b);
  }

  lemma FilterFirst<T>(p: T -> bool, a: seq<T>, x: T, b: seq<T>)
    requires forall i :: 0 <= i < |a| ==> !p(a[i])
    ensures Filter(p, a + ([x] + b)) == (if p(x) then [x] + Filter(p, b) else Filter(p, b))
  {
    FilterNone(p, a);
    FilterConcat(p, a, [x] + b);
    FilterConcat(p, [x], b);
    assert Filter(p, [x]) == if p(x) then [x] else [] by {
      assert [x][..0] == [];
    }
  }
}
