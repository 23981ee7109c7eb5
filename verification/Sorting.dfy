/** A stable sort by an integer key, and why distinct keys leave only one result. */
module Sorting {

  predicate Ordered<T>(rows: seq<T>, key: T -> int) {
    forall i, j :: 0 <= i < j < |rows| ==> key(rows[i]) <= key(rows[j])
  }

  ghost predicate StrictlyOrdered<T>(rows: seq<T>, key: T -> int) {
    forall i, j :: 0 <= i < j < |rows| ==> key(rows[i]) < key(rows[j])
  }

  /** Insertion behind everything with the same or a smaller key. */
  function Insert<T>(rows: seq<T>, x: T, key: T -> int): (r: seq<T>)
    requires Ordered(rows, key)
    ensures Ordered(r, key) && |r| == |rows| + 1
    ensures forall i :: 0 <= i < |r| ==> r[i] == x || r[i] in rows
  {
    if rows == [] || key(rows[|rows| - 1]) <= key(x) then rows + [x]
    else
      var n := |rows| - 1;
      Insert(rows[..n], x, key) + [rows[n]]
  }

  lemma {:induction false} InsertPermutes<T>(rows: seq<T>, x: T, key: T -> int)
    requires Ordered(rows, key)
    ensures multiset(Insert(rows, x, key)) == multiset(rows) + multiset{x}
  {
    if rows != [] && key(rows[|rows| - 1]) > key(x) {
      var n := |rows| - 1;
      InsertPermutes(rows[..n], x, key);
      assert rows == rows[..n] + [rows[n]];
    }
  }

  function SortBy<T>(rows: seq<T>, key: T -> int): (r: seq<T>)
    ensures Ordered(r, key) && |r| == |rows|
  {
    if rows == [] then [] else Insert(SortBy(rows[..|rows| - 1], key), rows[|rows| - 1], key)
  }

  lemma {:induction false} SortPermutes<T>(rows: seq<T>, key: T -> int)
    ensures multiset(SortBy(rows, key)) == multiset(rows)
  {
    if rows != [] {
      var n := |rows| - 1;
      SortPermutes(rows[..n], key);
      InsertPermutes(SortBy(rows[..n], key), rows[n], key);
      assert rows == rows[..n] + [rows[n]];
    }
  }

  /** Rows with equal keys keep their order: sorting what is in order changes nothing. */
  lemma {:induction false} SortedStays<T>(rows: seq<T>, key: T -> int)
    requires Ordered(rows, key)
    ensures SortBy(rows, key) == rows
  {
    if rows != [] {
      SortedStays(rows[..|rows| - 1], key);
      assert rows == rows[..|rows| - 1] + [rows[|rows| - 1]];
    }
  }

  /** at names every element of rows once, ordered by key and, where keys are equal, by place. */
  ghost predicate StableOrder<T>(rows: seq<T>, key: T -> int, at: seq<nat>) {
    && |at| == |rows| && (forall j :: 0 <= j < |at| ==> at[j] < |rows|)
    && forall j, k :: 0 <= j < k < |at| ==>
         key(rows[at[j]]) < key(rows[at[k]]) || (key(rows[at[j]]) == key(rows[at[k]]) && at[j] < at[k])
  }

  /** The elements of rows in the order that at names. */
  ghost predicate Arranges<T(!new)>(rows: seq<T>, at: seq<nat>, sorted: seq<T>) {
    |at| == |sorted| && forall j :: 0 <= j < |at| ==> at[j] < |rows| && sorted[j] == rows[at[j]]
  }

  /** Where an insertion puts the new element. */
  lemma {:induction false} InsertAtPlace<T>(rows: seq<T>, x: T, key: T -> int) returns (k: nat)
    requires Ordered(rows, key)
    ensures k <= |rows| && Insert(rows, x, key) == rows[..k] + [x] + rows[k..]
    ensures forall i :: 0 <= i < k ==> key(rows[i]) <= key(x)
    ensures forall i :: k <= i < |rows| ==> key(x) < key(rows[i])
  {
    if rows == [] || key(rows[|rows| - 1]) <= key(x) {
      k := |rows|;
    } else {
      var n := |rows| - 1;
      k := InsertAtPlace(rows[..n], x, key);
      assert rows[..n][..k] == rows[..k] && rows[..n][k..] + [rows[n]] == rows[k..];
    }
  }

  lemma NothingArranged<T(!new)>(rows: seq<T>, key: T -> int, at: seq<nat>, sorted: seq<T>)
    requires |rows| == 0 && |at| == 0 && |sorted| == 0
    ensures StableOrder(rows, key, at) && Arranges(rows, at, sorted)
  {
  }

  /** Sorting arranges the rows by key, and rows with equal keys by their places. */
  lemma {:induction false} SortIsStable<T(!new)>(rows: seq<T>, key: T -> int) returns (at: seq<nat>)
    ensures StableOrder(rows, key, at) && Arranges(rows, at, SortBy(rows, key))
    decreases |rows|
  {
    if rows == [] {
      at := [];
      NothingArranged(rows, key, at, SortBy(rows, key));
    } else {
      var was := SortIsStable(rows[..|rows| - 1], key);
      at := InsertIsStable(rows, key, SortBy(rows[..|rows| - 1], key), was);
    }
  }

  lemma InsertIsStable<T(!new)>(rows: seq<T>, key: T -> int, front: seq<T>, was: seq<nat>) returns (at: seq<nat>)
    requires rows != [] && Ordered(front, key)
    requires StableOrder(rows[..|rows| - 1], key, was) && Arranges(rows[..|rows| - 1], was, front)
    ensures StableOrder(rows, key, at) && Arranges(rows, at, Insert(front, rows[|rows| - 1], key))
  {
    var k := InsertAtPlace(front, rows[|rows| - 1], key);
    assert |was| == |front|;
    at := was[..k] + [|rows| - 1] + was[k..];
    InsertedArranges(rows, key, front, was, k, at);
  }

  lemma InsertedArranges<T(!new)>(rows: seq<T>, key: T -> int, front: seq<T>, was: seq<nat>, k: nat, at: seq<nat>)
    requires rows != [] && k <= |was| && at == was[..k] + [|rows| - 1] + was[k..]
    requires StableOrder(rows[..|rows| - 1], key, was) && Arranges(rows[..|rows| - 1], was, front)
    requires forall i :: 0 <= i < k ==> key(front[i]) <= key(rows[|rows| - 1])
    requires forall i :: k <= i < |front| ==> key(rows[|rows| - 1]) < key(front[i])
    ensures StableOrder(rows, key, at) && Arranges(rows, at, front[..k] + [rows[|rows| - 1]] + front[k..])
  {
    var n := |rows| - 1;
    forall j | 0 <= j < |was| ensures was[j] < n && rows[was[j]] == front[j] {}
    forall j | 0 <= j < |at| ensures at[j] == if j < k then was[j] else if j == k then n else was[j - 1] {}
  }

  lemma SameMembers<T>(a: seq<T>, b: seq<T>)
    requires multiset(a) == multiset(b)
    ensures |a| == |b| && forall x :: x in a <==> x in b
  {
    assert |a| == |multiset(a)| == |b|;
    assert forall x :: x in a <==> x in multiset(a);
    assert forall x :: x in b <==> x in multiset(b);
  }

  /** Rearrangements stay rearrangements when both lose the same element. */
  lemma DropSame<T>(a: seq<T>, b: seq<T>, k: nat)
    requires a != [] && multiset(a) == multiset(b) && k < |b| && b[k] == a[|a| - 1]
    ensures multiset(a[..|a| - 1]) == multiset(b[..k] + b[k + 1..])
  {
    var (front, x, rest) := (a[..|a| - 1], a[|a| - 1], b[..k] + b[k + 1..]);
    SplitOut(b, k);
    assert a == front + [x];
    assert multiset(front) == multiset(a) - multiset{x};
    assert multiset(rest) == multiset(b) - multiset{x};
  }

  lemma DropSameLast<T>(a: seq<T>, b: seq<T>)
    requires a != [] && |a| == |b| && multiset(a) == multiset(b) && a[|a| - 1] == b[|b| - 1]
    ensures multiset(a[..|a| - 1]) == multiset(b[..|b| - 1])
  {
    var n := |b| - 1;
    DropSame(a, b, n);
    assert b[..n] + b[n + 1..] == b[..n];
  }

  /** With distinct keys there is only one ordered arrangement. */
  lemma {:induction false} OneArrangement<T>(a: seq<T>, b: seq<T>, key: T -> int)
    requires Ordered(a, key) && StrictlyOrdered(b, key) && multiset(a) == multiset(b)
    ensures a == b
  {
    SameMembers(a, b);
    if b != [] {
      var n := |b| - 1;
      LastIsSame(a, b, key);
      DropSameLast(a, b);
      OneArrangement(a[..n], b[..n], key);
      assert a == a[..n] + [a[n]] && b == b[..n] + [b[n]];
    }
  }

  lemma LastIsSame<T>(a: seq<T>, b: seq<T>, key: T -> int)
    requires Ordered(a, key) && StrictlyOrdered(b, key) && b != []
    requires |a| == |b| && forall x :: x in a <==> x in b
    ensures a[|b| - 1] == b[|b| - 1]
  {
    var n := |b| - 1;
    assert a[n] in a && b[n] in b;
    var i :| 0 <= i < |b| && b[i] == a[n];
    var j :| 0 <= j < |a| && a[j] == b[n];
    assert key(a[j]) <= key(a[n]);
  }

  /** Looking up a rearranged list of keys rearranges the values. */
  lemma {:induction false} LookupPermutes<T>(m: map<nat, T>, a: seq<nat>, b: seq<nat>, ra: seq<T>, rb: seq<T>)
    requires multiset(a) == multiset(b) && |ra| == |a| && |rb| == |b|
    requires forall i :: 0 <= i < |a| ==> a[i] in m && ra[i] == m[a[i]]
    requires forall i :: 0 <= i < |b| ==> b[i] in m && rb[i] == m[b[i]]
    ensures multiset(ra) == multiset(rb)
  {
    SameMembers(a, b);
    if a != [] {
      var n := |a| - 1;
      assert a[n] in b;
      var k :| 0 <= k < |b| && b[k] == a[n];
      DropSame(a, b, k);
      LookupPermutes(m, a[..n], b[..k] + b[k + 1..], ra[..n], rb[..k] + rb[k + 1..]);
      SplitOut(rb, k);
      assert ra == ra[..n] + [rb[k]];
    }
  }

  lemma SplitOut<T>(s: seq<T>, k: nat)
    requires k < |s|
    ensures multiset(s) == multiset(s[..k] + s[k + 1..]) + multiset{s[k]}
  {
    assert s == s[..k] + [s[k]] + s[k + 1..];
  }
}
