/** The bounded cache against the unbounded map, over every sequence of operations. */
module CacheRuns {
  import opened Wrappers
  import opened Sequences
  import opened CacheSpec

  // --- The cache is a part of the unbounded map ---

  ghost predicate PartOf(c: Cache, m: map<nat, Entry>) {
    forall a :: a in c.entries ==> a in m && m[a] == c.entries[a]
  }

  lemma StepStaysPart(c: Cache, m: map<nat, Entry>, op: Op)
    requires Inv(c) && PartOf(c, m)
    ensures PartOf(Step(c, op), Unbounded(m, op))
  {
    if op.Put? && op.version.Some? { PutEvictsTheOldest(c, op.agent, op.version.value, op.rules); }
  }

  lemma {:induction false} CacheIsPartOfTheMap(ops: seq<Op>)
    ensures PartOf(Run(ops), RunUnbounded(ops))
  {
    if ops != [] {
      var front := ops[..|ops| - 1];
      CacheIsPartOfTheMap(front);
      RunKeepsInv(front);
      StepStaysPart(Run(front), RunUnbounded(front), ops[|ops| - 1]);
    }
  }

  // --- What an answer means ---

  /** Does the operation end what a put of that version for that agent has stored? */
  predicate Ends(op: Op, agent: nat, version: int) {
    match op
    case Get(a, v) => a == agent && v.Some? && v.value != version
    case Put(a, v, rules) => a == agent && v.Some?
    case Invalidate(a) => a == agent
    case ClearAll => true
  }

  /** Operation i stored these rules for the agent at that version, and nothing since has ended that. */
  ghost predicate Stored(ops: seq<Op>, i: nat, agent: nat, version: int, rules: seq<nat>) {
    && i < |ops| && ops[i] == Put(agent, Some(version), rules)
    && forall j :: i < j < |ops| ==> !Ends(ops[j], agent, version)
  }

  ghost predicate IsStored(ops: seq<Op>, agent: nat, version: int, rules: seq<nat>) {
    exists i :: Stored(ops, i, agent, version, rules)
  }

  /** The map holds an entry exactly when the history ends with that put standing. */
  lemma {:induction false} TheMapIsTheLatestPut(ops: seq<Op>, agent: nat, version: int, rules: seq<nat>)
    ensures (agent in RunUnbounded(ops) && RunUnbounded(ops)[agent] == Entry(version, rules))
            <==> IsStored(ops, agent, version, rules)
  {
    if ops != [] {
      var n := |ops| - 1;
      var front, op := ops[..n], ops[n];
      TheMapIsTheLatestPut(front, agent, version, rules);
      if op == Put(agent, Some(version), rules) {
        assert Stored(ops, n, agent, version, rules);
      } else if Ends(op, agent, version) {
        assert forall i :: Stored(ops, i, agent, version, rules) ==> i == n;
      } else {
        if IsStored(front, agent, version, rules) {
          var i: nat :| Stored(front, i, agent, version, rules);
          assert forall j :: 0 <= j < n ==> front[j] == ops[j];
          assert Stored(ops, i, agent, version, rules);
        }
        if IsStored(ops, agent, version, rules) {
          var i: nat :| Stored(ops, i, agent, version, rules);
          assert forall j :: 0 <= j < n ==> front[j] == ops[j];
          assert Stored(front, i, agent, version, rules);
        }
      }
    }
  }

  /** Rules come out of the cache only as the latest put stored them, for that agent and exactly that version. */
  lemma {:induction false} AnswersAreFresh(ops: seq<Op>, agent: nat, version: Option<int>)
    ensures var answer := Answer(Run(ops).entries, agent, version);
            answer.Some? ==>
              version.Some? && IsStored(ops, agent, version.value, answer.value)
              && answer == Answer(RunUnbounded(ops), agent, version)
  {
    var answer := Answer(Run(ops).entries, agent, version);
    if answer.Some? {
      CacheIsPartOfTheMap(ops);
      TheMapIsTheLatestPut(ops, agent, version.value, answer.value);
    }
  }

  /** A lookup right after a put answers that version with those rules, and no other version. */
  lemma PutThenGet(c: Cache, agent: nat, version: int, rules: seq<nat>, asked: Option<int>)
    requires Inv(c)
    ensures var c' := Step(c, Put(agent, Some(version), rules));
            && Answer(c'.entries, agent, asked) == (if asked == Some(version) then Some(rules) else None)
            && var c2 := Step(c', Get(agent, asked));
            && (agent in c2.entries <==> asked == None || asked == Some(version))
            && (forall a :: a != agent ==> (a in c2.entries <==> a in c'.entries))
            && (forall a :: a in c2.entries ==> c2.entries[a] == c'.entries[a])
  {
    PutEvictsTheOldest(c, agent, version, rules);
  }

  /** The unbounded map answers a lookup exactly with the rules whose put stands at the version asked for. */
  lemma MapAnswersIff(ops: seq<Op>, agent: nat, version: Option<int>, rules: seq<nat>)
    ensures Answer(RunUnbounded(ops), agent, version) == Some(rules) <==> version.Some? && IsStored(ops, agent, version.value, rules)
  {
    if version.Some? { TheMapIsTheLatestPut(ops, agent, version.value, rules); }
  }

  // --- How long an entry is safe ---

  /** The other agents stored since position i. */
  ghost function OthersSince(ops: seq<Op>, i: nat, agent: nat): set<nat> {
    set j | i <= j < |ops| && ops[j].Put? && ops[j].version.Some? && ops[j].agent != agent :: ops[j].agent
  }

  /** The agent is at place k, and everything behind it is one of the others. */
  ghost predicate OnlyBehind(order: seq<nat>, k: nat, agent: nat, others: set<nat>) {
    k < |order| && order[k] == agent && forall l :: k < l < |order| ==> order[l] in others
  }

  ghost predicate Guarded(order: seq<nat>, agent: nat, others: set<nat>) {
    exists k :: OnlyBehind(order, k, agent, others)
  }

  lemma OthersGrow(ops: seq<Op>, i: nat, agent: nat)
    requires ops != []
    ensures OthersSince(ops[..|ops| - 1], i, agent) <= OthersSince(ops, i, agent)
    ensures |OthersSince(ops[..|ops| - 1], i, agent)| <= |OthersSince(ops, i, agent)|
  {
    var front := ops[..|ops| - 1];
    forall a | a in OthersSince(front, i, agent) ensures a in OthersSince(ops, i, agent) {
      var j :| i <= j < |front| && front[j].Put? && front[j].version.Some? && front[j].agent != agent && front[j].agent == a;
      assert ops[j] == front[j];
    }
    SubsetSize(OthersSince(front, i, agent), OthersSince(ops, i, agent));
  }

  lemma {:induction false} DroppingAnother(order: seq<nat>, k: nat, agent: nat, others: set<nat>, dropped: nat)
    requires OnlyBehind(order, k, agent, others) && dropped != agent
    ensures Guarded(Without(order, dropped), agent, others)
  {
    var n := |order| - 1;
    if k == n {
      assert OnlyBehind(Without(order, dropped), |Without(order[..n], dropped)|, agent, others);
    } else {
      assert OnlyBehind(order[..n], k, agent, others);
      DroppingAnother(order[..n], k, agent, others, dropped);
      var k': nat :| OnlyBehind(Without(order[..n], dropped), k', agent, others);
      assert OnlyBehind(Without(order, dropped), k', agent, others);
    }
  }

  lemma PuttingAnother(c: Cache, agent: nat, others: set<nat>, op: Op)
    requires Inv(c) && op.Put? && op.version.Some? && op.agent != agent && op.agent in others
    requires Guarded(c.order, agent, others) && |others| < MAX_AGENTS_CACHED
    ensures Guarded(Step(c, op).order, agent, others)
  {
    PutEvictsTheOldest(c, op.agent, op.version.value, op.rules);
    var k: nat :| OnlyBehind(c.order, k, agent, others);
    var order' := Step(c, op).order;
    if op.agent in c.entries {
      assert OnlyBehind(order', k, agent, others);
    } else if |c.order| < MAX_AGENTS_CACHED {
      assert OnlyBehind(order', k, agent, others);
    } else if k > 0 {
      assert OnlyBehind(order', k - 1, agent, others);
    } else {
      TooManyOthers(c.order, op.agent, others);
    }
  }

  lemma TooManyOthers(order: seq<nat>, newcomer: nat, others: set<nat>)
    requires Distinct(order) && |order| == MAX_AGENTS_CACHED && newcomer !in order && newcomer in others
    requires forall l :: 0 < l < |order| ==> order[l] in others
    ensures |others| >= MAX_AGENTS_CACHED
  {
    var all := order[1..] + [newcomer];
    assert forall i :: 0 <= i < |all| ==> all[i] in others;
    DistinctSize(all);
    SubsetSize(Elements(all), others);
  }

  ghost predicate InMapThroughout(ops: seq<Op>, i: nat, agent: nat) {
    forall m :: i < m <= |ops| ==> agent in RunUnbounded(ops[..m])
  }

  lemma {:induction false} YoungEntriesAreGuarded(ops: seq<Op>, i: nat, agent: nat)
    requires i < |ops| && ops[i].Put? && ops[i].agent == agent && ops[i].version.Some?
    requires agent !in Run(ops[..i]).entries
    requires InMapThroughout(ops, i, agent)
    requires |OthersSince(ops, i, agent)| < MAX_AGENTS_CACHED
    ensures Guarded(Run(ops).order, agent, OthersSince(ops, i, agent))
  {
    var front := ops[..|ops| - 1];
    if i == |front| {
      RunKeepsInv(front);
      NewestIsGuarded(Run(front), ops[i], agent, OthersSince(ops, i, agent));
    } else {
      EarlierToo(ops, i, agent);
      assert Guarded(Run(front).order, agent, OthersSince(front, i, agent)) by {
        OthersGrow(ops, i, agent);
        YoungEntriesAreGuarded(front, i, agent);
      }
      GuardHolds(ops, i, agent);
    }
  }

  lemma {:induction false} GuardHolds(ops: seq<Op>, i: nat, agent: nat)
    requires i < |ops| - 1 && Guarded(Run(ops[..|ops| - 1]).order, agent, OthersSince(ops[..|ops| - 1], i, agent))
    requires agent in Unbounded(RunUnbounded(ops[..|ops| - 1]), ops[|ops| - 1])
    requires |OthersSince(ops, i, agent)| < MAX_AGENTS_CACHED
    ensures Guarded(Run(ops).order, agent, OthersSince(ops, i, agent))
  {
    var n := |ops| - 1;
    var front, op, others := ops[..n], ops[n], OthersSince(ops, i, agent);
    RunKeepsInv(front);
    CacheIsPartOfTheMap(front);
    OthersGrow(ops, i, agent);
    GuardedByMore(Run(front).order, agent, OthersSince(front, i, agent), others);
    assert op.Put? && op.version.Some? && op.agent != agent ==> ops[n].agent in others;
    YoungEntryStays(Run(front), RunUnbounded(front), op, agent, others);
  }

  lemma NewestIsGuarded(c: Cache, op: Op, agent: nat, others: set<nat>)
    requires Inv(c) && op.Put? && op.agent == agent && op.version.Some? && agent !in c.entries
    ensures Guarded(Step(c, op).order, agent, others)
  {
    PutEvictsTheOldest(c, agent, op.version.value, op.rules);
    assert OnlyBehind(Step(c, op).order, |Step(c, op).order| - 1, agent, others);
  }

  lemma GuardedByMore(order: seq<nat>, agent: nat, fewer: set<nat>, more: set<nat>)
    requires Guarded(order, agent, fewer) && fewer <= more
    ensures Guarded(order, agent, more)
  {
    var k: nat :| OnlyBehind(order, k, agent, fewer);
    assert OnlyBehind(order, k, agent, more);
  }

  lemma EarlierToo(ops: seq<Op>, i: nat, agent: nat)
    requires i < |ops| - 1 && InMapThroughout(ops, i, agent)
    ensures ops[..|ops| - 1][i] == ops[i] && ops[..|ops| - 1][..i] == ops[..i]
    ensures InMapThroughout(ops[..|ops| - 1], i, agent)
    ensures agent in Unbounded(RunUnbounded(ops[..|ops| - 1]), ops[|ops| - 1])
  {
    var front := ops[..|ops| - 1];
    assert forall m :: 0 <= m <= |front| ==> front[..m] == ops[..m];
    assert ops[..|ops|] == ops && agent in RunUnbounded(ops[..|ops|]);
  }

  /** An agent newly inserted at i stays cached as long as the map keeps it and fewer than 256 others have been stored since. */
  lemma {:induction false} YoungEntriesStay(ops: seq<Op>, i: nat, agent: nat, version: Option<int>)
    requires i < |ops| && ops[i].Put? && ops[i].agent == agent && ops[i].version.Some?
    requires agent !in Run(ops[..i]).entries
    requires InMapThroughout(ops, i, agent)
    requires |OthersSince(ops, i, agent)| < MAX_AGENTS_CACHED
    ensures agent in Run(ops).entries
    ensures Answer(Run(ops).entries, agent, version) == Answer(RunUnbounded(ops), agent, version)
  {
    YoungEntriesAreGuarded(ops, i, agent);
    RunKeepsInv(ops);
    var k: nat :| OnlyBehind(Run(ops).order, k, agent, OthersSince(ops, i, agent));
    assert agent in Run(ops).order;
    CacheIsPartOfTheMap(ops);
  }

  /** So a young entry is answered: a lookup gives exactly the rules whose put stands at the version asked for. */
  lemma YoungEntriesAnswerIff(ops: seq<Op>, i: nat, agent: nat, version: Option<int>, rules: seq<nat>)
    requires i < |ops| && ops[i].Put? && ops[i].agent == agent && ops[i].version.Some?
    requires agent !in Run(ops[..i]).entries
    requires InMapThroughout(ops, i, agent)
    requires |OthersSince(ops, i, agent)| < MAX_AGENTS_CACHED
    ensures Answer(Run(ops).entries, agent, version) == Some(rules) <==> version.Some? && IsStored(ops, agent, version.value, rules)
  {
    YoungEntriesStay(ops, i, agent, version);
    MapAnswersIff(ops, agent, version, rules);
  }

  lemma YoungEntryStays(c: Cache, m: map<nat, Entry>, op: Op, agent: nat, others: set<nat>)
    requires Inv(c) && PartOf(c, m) && Guarded(c.order, agent, others) && |others| < MAX_AGENTS_CACHED
    requires agent in Unbounded(m, op)
    requires op.Put? && op.version.Some? && op.agent != agent ==> op.agent in others
    ensures Guarded(Step(c, op).order, agent, others)
  {
    var k: nat :| OnlyBehind(c.order, k, agent, others);
    assert agent in c.entries;
    match op
    case Get(a, version) => if a != agent { DroppingAnother(c.order, k, agent, others, a); }
    case Put(a, version, rules) =>
      if version.Some? {
        if a == agent {
          PutEvictsTheOldest(c, a, version.value, rules);
        } else {
          PuttingAnother(c, agent, others, op);
        }
      }
    case Invalidate(a) => DroppingAnother(c.order, k, agent, others, a);
    case ClearAll => assert false;
  }
}
