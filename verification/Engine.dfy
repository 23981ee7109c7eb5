/** The first-match routing cascade and its lazy classifier (app/agent/orchestrator/engine.py). */
module Engine {
  import opened Wrappers
  import opened Sequences

  datatype Verdict = Verdict(category: string, confidence: real)

  datatype Rule = Rule(id: nat, agentId: nat, isActive: bool, matchType: string, config: nat, category: string,
                       onHandlerError: string)

  /** The oracles behind one message: the zero-cost matchers by type and configuration, and the classifier by agent. */
  datatype World = World(fires: (string, nat) -> bool, classify: nat -> Option<Verdict>, threshold: real)

  datatype Decision = Decision(matched: Option<Rule>, matchType: string, tried: seq<nat>, classifierOutput: Option<Verdict>)

  const DEFAULT_MATCH := "default"
  const LLM_INTENT := "llm_intent"

  predicate HasMatcher(matchType: string) {
    matchType == "condition" || matchType == "keyword" || matchType == "regex" || matchType == LLM_INTENT
  }

  predicate Eligible(rule: Rule, skip: set<nat>) {
    rule.id !in skip && rule.isActive
  }

  /** One matcher on one rule, when the shared configuration holds the given verdict. */
  predicate Fires(w: World, rule: Rule, known: Option<Verdict>) {
    if rule.matchType == LLM_INTENT then
      known.Some? && known.value.category == rule.category && known.value.confidence >= w.threshold
    else HasMatcher(rule.matchType) && w.fires(rule.matchType, rule.config)
  }

  // --- What one evaluation does, told without its loop ---

  function EligibleIds(rules: seq<Rule>, skip: set<nat>): seq<nat> {
    if rules == [] then []
    else
      var last := rules[|rules| - 1];
      EligibleIds(rules[..|rules| - 1], skip) + (if Eligible(last, skip) then [last.id] else [])
  }

  predicate Asks(rule: Rule, skip: set<nat>) {
    Eligible(rule, skip) && rule.matchType == LLM_INTENT
  }

  /** The first answer the classifier gives for one of the rules. */
  function FirstAnswer(w: World, rules: seq<Rule>, skip: set<nat>): Option<Verdict> {
    if rules == [] then None
    else
      var n := |rules| - 1;
      var before := FirstAnswer(w, rules[..n], skip);
      if before.Some? || !Asks(rules[n], skip) then before else w.classify(rules[n].agentId)
  }

  /** What the configuration holds once the rules have been walked through. */
  function Known(w: World, configured: bool, earlier: Option<Verdict>, rules: seq<Rule>, skip: set<nat>): Option<Verdict> {
    var answer := FirstAnswer(w, rules, skip);
    if configured && answer.Some? then answer else earlier
  }

  predicate Wins(w: World, configured: bool, earlier: Option<Verdict>, rules: seq<Rule>, skip: set<nat>, i: nat)
    requires i < |rules|
  {
    Eligible(rules[i], skip) && Fires(w, rules[i], Known(w, configured, earlier, rules[..i + 1], skip))
  }

  /** How many rules the evaluation walks through: up to and including the first that wins. */
  function Reach(w: World, configured: bool, earlier: Option<Verdict>, rules: seq<Rule>, skip: set<nat>, from: nat): (n: nat)
    requires from <= |rules|
    ensures from <= n <= |rules|
    ensures forall i :: from <= i < n - 1 ==> !Wins(w, configured, earlier, rules, skip, i)
    decreases |rules| - from
  {
    if from == |rules| then from
    else if Wins(w, configured, earlier, rules, skip, from) then from + 1
    else Reach(w, configured, earlier, rules, skip, from + 1)
  }

  function Winner(w: World, configured: bool, earlier: Option<Verdict>, rules: seq<Rule>, skip: set<nat>): Option<Rule> {
    var n := Reach(w, configured, earlier, rules, skip, 0);
    if n > 0 && Wins(w, configured, earlier, rules, skip, n - 1) then Some(rules[n - 1]) else None
  }

  /** The rules at which the classifier is consulted: those that ask, until one of them is answered. */
  function Consulted(w: World, rules: seq<Rule>, skip: set<nat>): seq<nat> {
    if rules == [] then []
    else
      var n := |rules| - 1;
      Consulted(w, rules[..n], skip)
      + (if Asks(rules[n], skip) && FirstAnswer(w, rules[..n], skip).None? then [rules[n].id] else [])
  }

  lemma OneMore(w: World, configured: bool, earlier: Option<Verdict>, rules: seq<Rule>, skip: set<nat>, i: nat)
    requires i < |rules|
    ensures var (front, answer) := (rules[..i], FirstAnswer(w, rules[..i], skip));
            var asking := Asks(rules[i], skip) && answer.None?;
            var now := if asking then w.classify(rules[i].agentId) else answer;
            && EligibleIds(rules[..i + 1], skip) == EligibleIds(front, skip) + (if Eligible(rules[i], skip) then [rules[i].id] else [])
            && FirstAnswer(w, rules[..i + 1], skip) == now
            && Consulted(w, rules[..i + 1], skip) == Consulted(w, front, skip) + (if asking then [rules[i].id] else [])
            && Known(w, configured, earlier, rules[..i + 1], skip) == if configured && now.Some? then now else earlier
  {
    assert rules[..i + 1][..i] == rules[..i];
  }

  // --- The evaluation ---

  /** The message with the configuration dict that one request shares between its evaluations. */
  class MatchInput {
    const world: World
    const configured: bool
    var classifierResult: Option<Verdict>
    var calls: seq<nat>

    constructor (world: World, configured: bool)
      ensures this.world == world && this.configured == configured && classifierResult == None && calls == []
    {
      this.world, this.configured, classifierResult, calls := world, configured, None, [];
    }

    /** The first llm_intent rule of a cascade leaves the verdict in the shared configuration for the ones after it. */
    method ClassifyOnce(rule: Rule) returns (output: Option<Verdict>)
      modifies this
      ensures output == (if configured then world.classify(rule.agentId) else None)
      ensures classifierResult == (if output.Some? then output else old(classifierResult))
      ensures calls == old(calls) + (if configured then [rule.id] else [])
    {
      output := None;
      if configured {
        output := Classify(rule);
        if output.Some? {
          classifierResult := output;
        }
      }
    }

    method Classify(rule: Rule) returns (out: Option<Verdict>)
      modifies this`calls
      ensures out == world.classify(rule.agentId) && calls == old(calls) + [rule.id]
    {
      calls := calls + [rule.id];
      out := world.classify(rule.agentId);
    }
  }

  /** What the evaluation holds once it has walked through the rules. */
  ghost predicate Walked(w: World, configured: bool, earlier: Option<Verdict>, rules: seq<Rule>, skip: set<nat>,
                         tried: seq<nat>, output: Option<Verdict>, known: Option<Verdict>, calls: seq<nat>) {
    && tried == EligibleIds(rules, skip)
    && output == (if configured then FirstAnswer(w, rules, skip) else None)
    && known == Known(w, configured, earlier, rules, skip)
    && calls == (if configured then Consulted(w, rules, skip) else [])
  }

  datatype Walk = Walk(tried: seq<nat>, output: Option<Verdict>, known: Option<Verdict>, calls: seq<nat>)

  function StepOver(w: World, configured: bool, skip: set<nat>, k: Walk, rule: Rule): Walk {
    if !Eligible(rule, skip) then k
    else if rule.matchType == LLM_INTENT && k.output.None? && configured then
      var answer := w.classify(rule.agentId);
      Walk(k.tried + [rule.id], answer, if answer.Some? then answer else k.known, k.calls + [rule.id])
    else k.(tried := k.tried + [rule.id])
  }

  function WalkOver(w: World, configured: bool, earlier: Option<Verdict>, rules: seq<Rule>, skip: set<nat>): Walk {
    if rules == [] then Walk([], None, earlier, [])
    else StepOver(w, configured, skip, WalkOver(w, configured, earlier, rules[..|rules| - 1], skip), rules[|rules| - 1])
  }

  lemma WalkOneMore(w: World, configured: bool, earlier: Option<Verdict>, rules: seq<Rule>, skip: set<nat>, i: nat)
    requires i < |rules|
    ensures WalkOver(w, configured, earlier, rules[..i + 1], skip)
            == StepOver(w, configured, skip, WalkOver(w, configured, earlier, rules[..i], skip), rules[i])
  {
    assert rules[..i + 1][..i] == rules[..i];
  }

  lemma {:induction false} WalkOverMeaning(w: World, configured: bool, earlier: Option<Verdict>, rules: seq<Rule>, skip: set<nat>)
    ensures var k := WalkOver(w, configured, earlier, rules, skip);
            Walked(w, configured, earlier, rules, skip, k.tried, k.output, k.known, k.calls)
  {
    if rules != [] { WalkOverMeaning(w, configured, earlier, rules[..|rules| - 1], skip); }
  }

  ghost predicate NoneBefore(w: World, configured: bool, earlier: Option<Verdict>, rules: seq<Rule>, skip: set<nat>, i: nat)
    requires i <= |rules|
  {
    && Reach(w, configured, earlier, rules, skip, 0) == Reach(w, configured, earlier, rules, skip, i)
    && (i > 0 ==> !Wins(w, configured, earlier, rules, skip, i - 1))
  }

  lemma Decides(w: World, configured: bool, earlier: Option<Verdict>, rules: seq<Rule>, skip: set<nat>, i: nat)
    requires i < |rules| && NoneBefore(w, configured, earlier, rules, skip, i)
    ensures var known := WalkOver(w, configured, earlier, rules[..i + 1], skip).known;
            if Eligible(rules[i], skip) && Fires(w, rules[i], known) then
              Reach(w, configured, earlier, rules, skip, 0) == i + 1 && Winner(w, configured, earlier, rules, skip) == Some(rules[i])
            else NoneBefore(w, configured, earlier, rules, skip, i + 1)
  {
    WalkOverMeaning(w, configured, earlier, rules[..i + 1], skip);
  }

  method Evaluate(rules: seq<Rule>, input: MatchInput, skip: set<nat>) returns (d: Decision)
    modifies input
    ensures var w, configured, earlier := input.world, input.configured, old(input.classifierResult);
            var n := Reach(w, configured, earlier, rules, skip, 0);
            && d.matched == Winner(w, configured, earlier, rules, skip)
            && d.matchType == (if d.matched.Some? then d.matched.value.matchType else DEFAULT_MATCH)
            && old(input.calls) <= input.calls
            && Walked(w, configured, earlier, rules[..n], skip,
                      d.tried, d.classifierOutput, input.classifierResult, input.calls[|old(input.calls)|..])
  {
    var tried: seq<nat> := [];
    var classifierOutput: Option<Verdict> := None;
    ghost var w, configured, earlier := input.world, input.configured, input.classifierResult;
    for i := 0 to |rules|
      invariant NoneBefore(w, configured, earlier, rules, skip, i)
      invariant old(input.calls) <= input.calls
      invariant Walk(tried, classifierOutput, input.classifierResult, input.calls[|old(input.calls)|..])
                == WalkOver(w, configured, earlier, rules[..i], skip)
    {
      var rule := rules[i];
      Decides(w, configured, earlier, rules, skip, i);
      WalkOneMore(w, configured, earlier, rules, skip, i);
      if rule.id in skip || !rule.isActive {
        continue;
      }
      tried := tried + [rule.id];
      if !HasMatcher(rule.matchType) {
        continue;
      }
      if rule.matchType == LLM_INTENT && classifierOutput.None? {
        classifierOutput := input.ClassifyOnce(rule);
      }
      assert Walk(tried, classifierOutput, input.classifierResult, input.calls[|old(input.calls)|..])
             == WalkOver(w, configured, earlier, rules[..i + 1], skip);
      if Fires(input.world, rule, input.classifierResult) {
        WalkOverMeaning(w, configured, earlier, rules[..i + 1], skip);
        return Decision(Some(rule), rule.matchType, tried, classifierOutput);
      }
    }
    assert rules[..|rules|] == rules;
    WalkOverMeaning(w, configured, earlier, rules, skip);
    return Decision(None, DEFAULT_MATCH, tried, classifierOutput);
  }
}
