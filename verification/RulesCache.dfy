/** The module-level rules cache, updated in place; each call takes its step of CacheSpec. */
module RulesCaches {
  import opened Wrappers
  import opened CacheSpec

  /** An insertion-ordered dict: the keys in order, and their values. */
  class RulesCache {
    var order: seq<nat>
    var entries: map<nat, Entry>

    ghost function State(): Cache
      reads this
    {
      Cache(order, entries)
    }

    constructor ()
      ensures State() == EMPTY_CACHE && Inv(State())
    {
      order, entries := [], map[];
    }

    /** dict.pop(agent, None) */
    method Pop(agent: nat)
      modifies this
      ensures State() == Drop(old(State()), agent)
    {
      var kept: seq<nat> := [];
      for i := 0 to |order|
        invariant order == old(order) && entries == old(entries)
        invariant kept == Without(order[..i], agent)
      {
        assert order[..i + 1][..i] == order[..i];
        if order[i] != agent {
          kept := kept + [order[i]];
        }
      }
      assert order[..|order|] == order;
      order := kept;
      entries := entries - {agent};
    }

    method GetCachedRules(agent: nat, version: Option<int>) returns (rules: Option<seq<nat>>)
      requires Inv(State())
      modifies this
      ensures State() == Step(old(State()), Get(agent, version)) && Inv(State())
      ensures rules == Answer(old(entries), agent, version)
    {
      StepKeepsInv(State(), Get(agent, version));
      if version.None? || agent !in entries {
        return None;
      }
      var entry := entries[agent];
      if entry.version != version.value {
        Pop(agent);
        return None;
      }
      return Some(entry.rules);
    }

    method PutCachedRules(agent: nat, version: Option<int>, rules: seq<nat>)
      requires Inv(State())
      modifies this
      ensures State() == Step(old(State()), Put(agent, version, rules)) && Inv(State())
    {
      StepKeepsInv(State(), Put(agent, version, rules));
      if version.None? {
        return;
      }
      if |order| >= MAX_AGENTS_CACHED && agent !in entries {
        var oldestKey := order[0];
        Pop(oldestKey);
      }
      if agent !in entries {
        order := order + [agent];
      }
      entries := entries[agent := Entry(version.value, rules)];
    }

    method InvalidateAgent(agent: nat)
      requires Inv(State())
      modifies this
      ensures State() == Step(old(State()), Invalidate(agent)) && Inv(State())
    {
      StepKeepsInv(State(), Invalidate(agent));
      Pop(agent);
    }

    method ClearAllAgents()
      modifies this
      ensures State() == Step(old(State()), ClearAll) && Inv(State())
    {
      order, entries := [], map[];
    }
  }
}
