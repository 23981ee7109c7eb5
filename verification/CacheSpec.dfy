/** The bounded rules cache beside the unbounded version-keyed map it stands for (app/agent/orchestrator/cache.py). */
module CacheSpec {
  import opened Wrappers
  import opened Sequences

  const MAX_AGENTS_CACHED := 256

  datatype Entry = Entry(version: int, rules: seq<nat>)

  datatype Op =
    | Get(agent: nat, version: Option<int>)
    | Put(agent: nat, version: Option<int>, rules: seq<nat>)
    | Invalidate(agent: nat)
    | ClearAll

  /** The cached agents in order of insertion, and their entries. */
  datatype Cache = Cache(order: seq<nat>, entries: map<nat, Entry>)

  const EMPTY_CACHE := Cache([], map[])

  function Without(order: seq<nat>, agent: nat): (r: seq<nat>)
    ensures |r| <= |order| && forall a :: a in r <==> a in order && a != agent
  {
    FilterMembers((a: nat) => a != agent, order);
    Filter((a: nat) => a != agent, order)
  }

  function Drop(c: Cache, agent: nat): Cache {
    Cache(Without(c.order, agent), c.entries - {agent})
  }

  function PutStep(c: Cache, agent: nat, entry: Entry): Cache {
    var c' := if |c.order| >= MAX_AGENTS_CACHED && agent !in c.entries then Drop(c, c.order[0]) else c;
    Cache(if agent in c'.entries then c'.order else c'.order + [agent], c'.entries[agent := entry])
  }

  function Answer(entries: map<nat, Entry>, agent: nat, version: Option<int>): Option<seq<nat>> {
    if version.Some? && agent in entries && entries[agent].version == version.value then Some(entries[agent].rules) else None
  }

  /** A lookup under another version than the stored one evicts. */
  predicate Evicts(entries: map<nat, Entry>, op: Op)
    requires op.Get?
  {
    op.version.Some? && op.agent in entries && entries[op.agent].version != op.version.value
  }

  function Step(c: Cache, op: Op): Cache {
    match op
    case Get(agent, version) => if Evicts(c.entries, op) then Drop(c, agent) else c
    case Put(agent, version, rules) => if version.None? then c else PutStep(c, agent, Entry(version.value, rules))
    case Invalidate(agent) => Drop(c, agent)
    case ClearAll => EMPTY_CACHE
  }

  /** The same operation on a map that never runs out of room. */
  function Unbounded(m: map<nat, Entry>, op: Op): map<nat, Entry> {
    match op
    case Get(agent, version) => if Evicts(m, op) then m - {agent} else m
    case Put(agent, version, rules) => if version.None? then m else m[agent := Entry(version.value, rules)]
    case Invalidate(agent) => m - {agent}
    case ClearAll => map[]
  }

  function Run(ops: seq<Op>): Cache {
    if ops == [] then EMPTY_CACHE else Step(Run(ops[..|ops| - 1]), ops[|ops| - 1])
  }

  function RunUnbounded(ops: seq<Op>): map<nat, Entry> {
    if ops == [] then map[] else Unbounded(RunUnbounded(ops[..|ops| - 1]), ops[|ops| - 1])
  }

  // --- The bound and the order ---

  ghost predicate Inv(c: Cache) {
    && Distinct(c.order)
    && (forall a :: a in c.order <==> a in c.entries)
    && |c.order| <= MAX_AGENTS_CACHED
  }

  lemma {:induction false} WithoutStaysDistinct(order: seq<nat>, agent: nat)
    requires Distinct(order)
    ensures Distinct(Without(order, agent))
    ensures agent in order ==> |Without(order, agent)| == |order| - 1
    ensures agent !in order ==> Without(order, agent) == order
  {
    if order != [] {
      var n := |order| - 1;
      WithoutStaysDistinct(order[..n], agent);
      assert order == order[..n] + [order[n]];
      assert order[n] !in Without(order[..n], agent);
    }
  }

  lemma StepKeepsInv(c: Cache, op: Op)
    requires Inv(c)
    ensures Inv(Step(c, op))
  {
    match op
    case Get(agent, version) => WithoutStaysDistinct(c.order, agent);
    case Put(agent, version, rules) =>
      if version.Some? && |c.order| >= MAX_AGENTS_CACHED && agent !in c.entries {
        WithoutStaysDistinct(c.order, c.order[0]);
        assert agent !in c.order;
      } else {
        assert agent !in c.entries ==> agent !in c.order;
      }
    case Invalidate(agent) => WithoutStaysDistinct(c.order, agent);
    case ClearAll =>
  }

  /** At most 256 agents are ever cached. */
  lemma {:induction false} RunKeepsInv(ops: seq<Op>)
    ensures Inv(Run(ops))
    ensures |Run(ops).entries| <= MAX_AGENTS_CACHED
  {
    if ops != [] {
      RunKeepsInv(ops[..|ops| - 1]);
      StepKeepsInv(Run(ops[..|ops| - 1]), ops[|ops| - 1]);
    }
    var c := Run(ops);
    DistinctSize(c.order);
    assert c.entries.Keys == Elements(c.order);
  }

  /** Without the agent, the others keep their order. */
  lemma {:induction false} OrderWithout(order: seq<nat>, agent: nat, k: nat)
    requires Distinct(order) && k < |order| && order[k] == agent
    ensures Without(order, agent) == order[..k] + order[k + 1..]
  {
    var n := |order| - 1;
    if k == n {
      WithoutStaysDistinct(order[..n], agent);
      assert agent !in order[..n];
      assert order[k + 1..] == [];
    } else {
      OrderWithout(order[..n], agent, k);
      assert order[..n][..k] == order[..k] && order[..n][k + 1..] + [order[n]] == order[k + 1..];
    }
  }

  lemma OldestDropped(c: Cache)
    requires Inv(c) && c.order != []
    ensures var (rest, dropped) := (Drop(c, c.order[0]), c.order[0]);
            && rest.order == c.order[1..] && dropped !in rest.entries
            && (forall a :: a in rest.entries <==> a in c.entries && a != dropped)
            && (forall a :: a in rest.entries ==> rest.entries[a] == c.entries[a])
  {
    OrderWithout(c.order, c.order[0], 0);
    assert c.order[..0] + c.order[1..] == c.order[1..];
  }

  /** Storing evicts only from a full cache and for a new agent, and then the one inserted first; a known agent keeps its place. */
  lemma PutEvictsTheOldest(c: Cache, agent: nat, version: int, rules: seq<nat>)
    requires Inv(c)
    ensures var c' := Step(c, Put(agent, Some(version), rules));
            && agent in c'.entries && c'.entries[agent] == Entry(version, rules)
            && (agent in c.entries ==> c'.order == c.order)
            && (agent !in c.entries && |c.order| < MAX_AGENTS_CACHED ==> c'.order == c.order + [agent])
            && (agent !in c.entries && |c.order| == MAX_AGENTS_CACHED ==> c'.order == c.order[1..] + [agent])
            && (forall a :: a in c'.entries && a != agent ==> a in c.entries && c'.entries[a] == c.entries[a])
  {
    if agent !in c.entries && |c.order| == MAX_AGENTS_CACHED { OldestDropped(c); }
  }
}
