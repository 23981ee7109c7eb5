/** What the cascade decides, how lazily it asks the classifier, and where chains of fallbacks lead. */
module Routing {
  import opened Wrappers
  import opened Sequences
  import opened Engine

  /** A decision names the first eligible rule that fires, and none only if there is none; tried ends with the winner. */
  lemma WinnerIsFirst(w: World, configured: bool, earlier: Option<Verdict>, rules: seq<Rule>, skip: set<nat>)
    ensures var n := Reach(w, configured, earlier, rules, skip, 0);
            var tried := EligibleIds(rules[..n], skip);
            match Winner(w, configured, earlier, rules, skip)
            case None => n == |rules| && forall i :: 0 <= i < |rules| ==> !Wins(w, configured, earlier, rules, skip, i)
            case Some(rule) =>
              && n > 0 && rule == rules[n - 1] && Wins(w, configured, earlier, rules, skip, n - 1)
              && (forall i :: 0 <= i < n - 1 ==> !Wins(w, configured, earlier, rules, skip, i))
              && tried != [] && tried[|tried| - 1] == rule.id
  {
    ReachStops(w, configured, earlier, rules, skip, 0);
    var n := Reach(w, configured, earlier, rules, skip, 0);
    if n > 0 { OneMore(w, configured, earlier, rules, skip, n - 1); }
  }

  // --- The same, told by the rules, the matchers and the classifier alone ---

  predicate MayAsk(rule: Rule, skip: set<nat>) {
    rule.isActive && rule.id !in skip && rule.matchType == "llm_intent"
  }

  /** Rule j is the first that the classifier answers, and its answer is v. */
  ghost predicate AnsweredAt(w: World, rules: seq<Rule>, skip: set<nat>, j: nat, v: Verdict)
    requires j < |rules|
  {
    && MayAsk(rules[j], skip) && w.classify(rules[j].agentId) == Some(v)
    && forall l :: 0 <= l < j && MayAsk(rules[l], skip) ==> w.classify(rules[l].agentId).None?
  }

  ghost predicate AnsweredBefore(w: World, rules: seq<Rule>, skip: set<nat>, n: nat, v: Verdict)
    requires n <= |rules|
  {
    exists j :: 0 <= j < n && AnsweredAt(w, rules, skip, j, v)
  }

  ghost predicate NeverAnswered(w: World, rules: seq<Rule>, skip: set<nat>, n: nat)
    requires n <= |rules|
  {
    forall l :: 0 <= l < n && MayAsk(rules[l], skip) ==> w.classify(rules[l].agentId).None?
  }

  /** When rule i is tried, the shared configuration holds v: the first answer so far, or what was there before. */
  ghost predicate Heard(w: World, configured: bool, earlier: Option<Verdict>, rules: seq<Rule>, skip: set<nat>, i: nat, v: Verdict)
    requires i < |rules|
  {
    || (configured && AnsweredBefore(w, rules, skip, i + 1, v))
    || (earlier == Some(v) && (!configured || NeverAnswered(w, rules, skip, i + 1)))
  }

  /** Rule i is active, not skipped, and its matcher accepts the message or the verdict. */
  ghost predicate Answers(w: World, configured: bool, earlier: Option<Verdict>, rules: seq<Rule>, skip: set<nat>, i: nat)
    requires i < |rules|
  {
    var rule := rules[i];
    && rule.isActive && rule.id !in skip
    && if rule.matchType == "llm_intent"
       then exists v :: Heard(w, configured, earlier, rules, skip, i, v) && v.category == rule.category && v.confidence >= w.threshold
       else (rule.matchType == "condition" || rule.matchType == "keyword" || rule.matchType == "regex")
            && w.fires(rule.matchType, rule.config)
  }

  /** The rules tried are those walked through that are active and not skipped, in their order. */
  lemma {:induction false} TriedInOrder(a: seq<Rule>, b: seq<Rule>, skip: set<nat>)
    ensures EligibleIds(a + b, skip) == EligibleIds(a, skip) + EligibleIds(b, skip)
    ensures |b| == 1 ==> EligibleIds(b, skip) == if b[0].isActive && b[0].id !in skip then [b[0].id] else []
  {
    if b == [] {
      assert a + b == a;
    } else {
      var n := |b| - 1;
      assert (a + b)[..|a| + n] == a + b[..n];
      TriedInOrder(a, b[..n], skip);
    }
  }

  lemma {:induction false} FirstAnswerIs(w: World, rules: seq<Rule>, skip: set<nat>, n: nat)
    requires n <= |rules|
    ensures match FirstAnswer(w, rules[..n], skip)
            case None => NeverAnswered(w, rules, skip, n)
            case Some(v) => AnsweredBefore(w, rules, skip, n, v)
  {
    if n > 0 {
      FirstAnswerIs(w, rules, skip, n - 1);
      assert rules[..n][..n - 1] == rules[..n - 1];
      OneMore(w, false, None, rules, skip, n - 1);
      var before := FirstAnswer(w, rules[..n - 1], skip);
      var now := FirstAnswer(w, rules[..n], skip);
      if before.Some? {
        var j :| 0 <= j < n - 1 && AnsweredAt(w, rules, skip, j, before.value);
      } else if now.Some? {
        assert AnsweredAt(w, rules, skip, n - 1, now.value);
      }
    }
  }

  lemma OneFirstAnswer(w: World, rules: seq<Rule>, skip: set<nat>, i: nat, j: nat, u: Verdict, v: Verdict)
    requires i < |rules| && j < |rules| && AnsweredAt(w, rules, skip, i, u) && AnsweredAt(w, rules, skip, j, v)
    ensures i == j && u == v
  {
  }

  lemma HeardIsKnown(w: World, configured: bool, earlier: Option<Verdict>, rules: seq<Rule>, skip: set<nat>, i: nat, v: Verdict)
    requires i < |rules|
    ensures Heard(w, configured, earlier, rules, skip, i, v) <==> Known(w, configured, earlier, rules[..i + 1], skip) == Some(v)
  {
    FirstAnswerIs(w, rules, skip, i + 1);
    var answer := FirstAnswer(w, rules[..i + 1], skip);
    if answer.Some? {
      var j :| 0 <= j < i + 1 && AnsweredAt(w, rules, skip, j, answer.value);
      forall l, u | 0 <= l < i + 1 && AnsweredAt(w, rules, skip, l, u) ensures u == answer.value {
        OneFirstAnswer(w, rules, skip, j, l, answer.value, u);
      }
      assert MayAsk(rules[j], skip);
    }
  }

  lemma AnswersIsWins(w: World, configured: bool, earlier: Option<Verdict>, rules: seq<Rule>, skip: set<nat>, i: nat)
    requires i < |rules|
    ensures Answers(w, configured, earlier, rules, skip, i) <==> Wins(w, configured, earlier, rules, skip, i)
  {
    forall v ensures Heard(w, configured, earlier, rules, skip, i, v) <==> Known(w, configured, earlier, rules[..i + 1], skip) == Some(v) {
      HeardIsKnown(w, configured, earlier, rules, skip, i, v);
    }
  }

  /** The winner is the first rule of the list that answers, and there is one iff any rule answers. */
  lemma WinnerAnswersFirst(w: World, configured: bool, earlier: Option<Verdict>, rules: seq<Rule>, skip: set<nat>)
    ensures match Winner(w, configured, earlier, rules, skip)
            case None => forall i :: 0 <= i < |rules| ==> !Answers(w, configured, earlier, rules, skip, i)
            case Some(rule) =>
              exists n :: 0 <= n < |rules| && rule == rules[n] && Answers(w, configured, earlier, rules, skip, n)
                          && forall i :: 0 <= i < n ==> !Answers(w, configured, earlier, rules, skip, i)
  {
    WinnerIsFirst(w, configured, earlier, rules, skip);
    forall i | 0 <= i < |rules|
      ensures Answers(w, configured, earlier, rules, skip, i) <==> Wins(w, configured, earlier, rules, skip, i)
    {
      AnswersIsWins(w, configured, earlier, rules, skip, i);
    }
    if Winner(w, configured, earlier, rules, skip).Some? {
      assert Answers(w, configured, earlier, rules, skip, Reach(w, configured, earlier, rules, skip, 0) - 1);
    }
  }

  lemma {:induction false} ReachStops(w: World, configured: bool, earlier: Option<Verdict>, rules: seq<Rule>, skip: set<nat>, from: nat)
    requires from <= |rules|
    ensures var n := Reach(w, configured, earlier, rules, skip, from);
            (n > from && Wins(w, configured, earlier, rules, skip, n - 1))
            || (n == |rules| && forall i :: from <= i < |rules| ==> !Wins(w, configured, earlier, rules, skip, i))
    decreases |rules| - from
  {
    if from < |rules| && !Wins(w, configured, earlier, rules, skip, from) {
      ReachStops(w, configured, earlier, rules, skip, from + 1);
    }
  }

  ghost predicate AskedAt(w: World, rules: seq<Rule>, skip: set<nat>, id: nat, i: nat) {
    i < |rules| && rules[i].id == id && Asks(rules[i], skip) && FirstAnswer(w, rules[..i], skip).None?
  }

  /** The classifier is consulted only at a rule that asks for it, while it has not answered. */
  lemma {:induction false} ConsultedOnlyAtNeed(w: World, rules: seq<Rule>, skip: set<nat>, id: nat)
    requires id in Consulted(w, rules, skip)
    ensures exists i :: AskedAt(w, rules, skip, id, i)
  {
    var n := |rules| - 1;
    if id in Consulted(w, rules[..n], skip) {
      ConsultedOnlyAtNeed(w, rules[..n], skip, id);
      var i: nat :| AskedAt(w, rules[..n], skip, id, i);
      assert rules[..n][..i] == rules[..i];
      assert AskedAt(w, rules, skip, id, i);
    } else {
      assert AskedAt(w, rules, skip, id, n);
    }
  }

  /** Once it has answered, the classifier is not consulted again, and the answer stays. */
  lemma {:induction false} AnsweredOnce(w: World, rules: seq<Rule>, skip: set<nat>, i: nat)
    requires i <= |rules| && FirstAnswer(w, rules[..i], skip).Some?
    ensures Consulted(w, rules, skip) == Consulted(w, rules[..i], skip)
    ensures FirstAnswer(w, rules, skip) == FirstAnswer(w, rules[..i], skip)
  {
    if i == |rules| {
      assert rules[..i] == rules;
    } else {
      assert rules[..|rules| - 1][..i] == rules[..i];
      AnsweredOnce(w, rules[..|rules| - 1], skip, i);
    }
  }

  /** Before a rule that asks is reached, it is not consulted at all; at the first one it is. */
  lemma {:induction false} NotBeforeItIsNeeded(w: World, rules: seq<Rule>, skip: set<nat>)
    ensures Consulted(w, rules, skip) == [] <==> forall i :: 0 <= i < |rules| ==> !Asks(rules[i], skip)
  {
    if rules != [] {
      var front := rules[..|rules| - 1];
      NotBeforeItIsNeeded(w, front, skip);
      if Consulted(w, front, skip) == [] { NoAnswerUnasked(w, front, skip); }
      assert forall i :: 0 <= i < |front| ==> front[i] == rules[i];
    }
  }

  lemma {:induction false} NoAnswerUnasked(w: World, rules: seq<Rule>, skip: set<nat>)
    requires forall i :: 0 <= i < |rules| ==> !Asks(rules[i], skip)
    ensures FirstAnswer(w, rules, skip).None?
  {
    if rules != [] { NoAnswerUnasked(w, rules[..|rules| - 1], skip); }
  }

  // --- Fallback chains: one request asks again and again, skipping what has failed ---

  predicate OneAgent(rules: seq<Rule>, agentId: nat) {
    forall i :: 0 <= i < |rules| ==> rules[i].agentId == agentId
  }

  ghost predicate DistinctIds(rules: seq<Rule>) {
    forall i, j :: 0 <= i < j < |rules| ==> rules[i].id != rules[j].id
  }

  /** The verdict every llm_intent rule of one agent gets to see. */
  function Settled(w: World, configured: bool, earlier: Option<Verdict>, agentId: nat): Option<Verdict> {
    if configured && w.classify(agentId).Some? then w.classify(agentId) else earlier
  }

  function Matches(w: World, known: Option<Verdict>, skip: set<nat>): Rule -> bool {
    (rule: Rule) => Eligible(rule, skip) && Fires(w, rule, known)
  }

  /** The rules that match the message, in list order. */
  function Matching(w: World, known: Option<Verdict>, rules: seq<Rule>, skip: set<nat>): seq<Rule> {
    Filter(Matches(w, known, skip), rules)
  }

  lemma {:induction false} AnswersAgree(w: World, rules: seq<Rule>, skip: set<nat>, agentId: nat)
    requires OneAgent(rules, agentId)
    ensures FirstAnswer(w, rules, skip).Some? ==> FirstAnswer(w, rules, skip) == w.classify(agentId)
    ensures (exists i :: 0 <= i < |rules| && Asks(rules[i], skip)) ==> FirstAnswer(w, rules, skip) == w.classify(agentId)
  {
    if rules != [] { AnswersAgree(w, rules[..|rules| - 1], skip, agentId); }
  }

  lemma WinsIsStatic(w: World, configured: bool, earlier: Option<Verdict>, rules: seq<Rule>, skip: set<nat>, agentId: nat, i: nat)
    requires OneAgent(rules, agentId) && i < |rules|
    ensures Wins(w, configured, earlier, rules, skip, i)
            <==> Eligible(rules[i], skip) && Fires(w, rules[i], Settled(w, configured, earlier, agentId))
  {
    AnswersAgree(w, rules[..i + 1], skip, agentId);
    assert rules[..i + 1][i] == rules[i];
  }

  /** The winner heads the matching rules, and skipping it leaves the others. */
  lemma WinnerIsHead(w: World, configured: bool, earlier: Option<Verdict>, rules: seq<Rule>, skip: set<nat>, agentId: nat)
    requires OneAgent(rules, agentId) && DistinctIds(rules)
    ensures var known := Settled(w, configured, earlier, agentId);
            match Winner(w, configured, earlier, rules, skip)
            case None => Matching(w, known, rules, skip) == []
            case Some(rule) => Matching(w, known, rules, skip) == [rule] + Matching(w, known, rules, skip + {rule.id})
  {
    var known := Settled(w, configured, earlier, agentId);
    WinnerIsFirst(w, configured, earlier, rules, skip);
    forall i | 0 <= i < |rules|
      ensures Wins(w, configured, earlier, rules, skip, i) <==> Eligible(rules[i], skip) && Fires(w, rules[i], known)
    {
      WinsIsStatic(w, configured, earlier, rules, skip, agentId, i);
    }
    match Winner(w, configured, earlier, rules, skip)
    case None =>
      FilterNone(Matches(w, known, skip), rules);
    case Some(rule) =>
      var n := Reach(w, configured, earlier, rules, skip, 0) - 1;
      FilterHead(Matches(w, known, skip), Matches(w, known, skip + {rule.id}), rules, n);
  }

  ghost function Left(rules: seq<Rule>, skip: set<nat>): set<nat> {
    set i | 0 <= i < |rules| && rules[i].id !in skip
  }

  lemma LeftShrinks(rules: seq<Rule>, skip: set<nat>, n: nat)
    requires n < |rules| && rules[n].id !in skip
    ensures |Left(rules, skip + {rules[n].id})| < |Left(rules, skip)|
  {
    assert n in Left(rules, skip) && n !in Left(rules, skip + {rules[n].id});
    SubsetSize(Left(rules, skip + {rules[n].id}), Left(rules, skip));
  }

  lemma SettledStays(w: World, configured: bool, earlier: Option<Verdict>, rules: seq<Rule>, skip: set<nat>, agentId: nat)
    requires OneAgent(rules, agentId)
    ensures Settled(w, configured, Known(w, configured, earlier, rules, skip), agentId) == Settled(w, configured, earlier, agentId)
  {
    AnswersAgree(w, rules, skip, agentId);
  }

  /** The winners of repeated evaluations, each time skipping the winners so far; None stands for the default handler. */
  ghost function Chain(w: World, configured: bool, earlier: Option<Verdict>, rules: seq<Rule>, skip: set<nat>): seq<Option<Rule>>
    decreases |Left(rules, skip)|
  {
    var n := Reach(w, configured, earlier, rules, skip, 0);
    var winner := Winner(w, configured, earlier, rules, skip);
    if winner.None? then [None]
    else
      LeftShrinks(rules, skip, n - 1);
      [winner] + Chain(w, configured, Known(w, configured, earlier, rules[..n], skip), rules, skip + {winner.value.id})
  }

  function Somes(rules: seq<Rule>): (r: seq<Option<Rule>>)
    ensures |r| == |rules| && forall i :: 0 <= i < |rules| ==> r[i] == Some(rules[i])
  {
    seq(|rules|, i requires 0 <= i < |rules| => Some(rules[i]))
  }

  /** The route through the matching rules that is still ahead. */
  function Ahead(w: World, known: Option<Verdict>, rules: seq<Rule>, skip: set<nat>): (r: seq<Option<Rule>>)
    ensures |r| <= |rules| + 1
  {
    Somes(Matching(w, known, rules, skip)) + [None]
  }

  lemma AheadOfWinner(w: World, configured: bool, earlier: Option<Verdict>, rules: seq<Rule>, skip: set<nat>, agentId: nat)
    requires OneAgent(rules, agentId) && DistinctIds(rules)
    ensures var known := Settled(w, configured, earlier, agentId);
            match Winner(w, configured, earlier, rules, skip)
            case None => Ahead(w, known, rules, skip) == [None]
            case Some(rule) => Ahead(w, known, rules, skip) == [Some(rule)] + Ahead(w, known, rules, skip + {rule.id})
  {
    WinnerIsHead(w, configured, earlier, rules, skip, agentId);
  }

  /** Falling back again and again visits exactly the matching rules in list order, then the default. */
  lemma {:induction false} ChainEnumerates(w: World, configured: bool, earlier: Option<Verdict>, rules: seq<Rule>, skip: set<nat>, agentId: nat)
    requires OneAgent(rules, agentId) && DistinctIds(rules)
    ensures Chain(w, configured, earlier, rules, skip) == Ahead(w, Settled(w, configured, earlier, agentId), rules, skip)
    ensures |Chain(w, configured, earlier, rules, skip)| <= |rules| + 1
    decreases |Left(rules, skip)|
  {
    var winner := Winner(w, configured, earlier, rules, skip);
    AheadOfWinner(w, configured, earlier, rules, skip, agentId);
    if winner.Some? {
      var n := Reach(w, configured, earlier, rules, skip, 0);
      SettledStays(w, configured, earlier, rules[..n], skip, agentId);
      LeftShrinks(rules, skip, n - 1);
      ChainEnumerates(w, configured, Known(w, configured, earlier, rules[..n], skip), rules, skip + {winner.value.id}, agentId);
    }
  }

  // --- The routing loop around it ---

  const MAX_ATTEMPTS := 5

  datatype Outcome = Handled(rule: Rule) | Surfaced(rule: Rule) | Default(afterFallback: bool)

  /** The routing loop told from the matching rules alone: how many attempts are left, and whether one has failed. */
  function Routed(matching: seq<Rule>, succeeds: nat -> bool, left: nat, failed: bool): Outcome {
    if left == 0 || matching == [] then Default(failed)
    else if succeeds(matching[0].id) then Handled(matching[0])
    else if matching[0].onHandlerError == "return_error" then Surfaced(matching[0])
    else if matching[0].onHandlerError == "fallback_next" then Routed(matching[1..], succeeds, left - 1, true)
    else Default(failed)
  }

  predicate FallsThrough(rule: Rule, succeeds: nat -> bool) {
    !succeeds(rule.id) && rule.onHandlerError == "fallback_next"
  }

  /** Rule k is the first that does not pass the message on. */
  predicate StopsAt(matching: seq<Rule>, succeeds: nat -> bool, k: nat) {
    && k < |matching| && !FallsThrough(matching[k], succeeds)
    && forall i :: 0 <= i < k ==> FallsThrough(matching[i], succeeds)
  }

  predicate AllFallThrough(matching: seq<Rule>, succeeds: nat -> bool, n: nat)
    requires n <= |matching|
  {
    forall i :: 0 <= i < n ==> FallsThrough(matching[i], succeeds)
  }

  /** The outcome at a rule that does not pass the message on. */
  function OutcomeAt(rule: Rule, succeeds: nat -> bool, k: nat): Outcome {
    if succeeds(rule.id) then Handled(rule)
    else if rule.onHandlerError == "return_error" then Surfaced(rule)
    else Default(k > 0)
  }

  /** Without recursion: the first rule that does not pass the message on decides, if it is within the limit. */
  ghost predicate IsOutcome(matching: seq<Rule>, succeeds: nat -> bool, limit: nat, o: Outcome) {
    || (exists k: nat :: k < limit && StopsAt(matching, succeeds, k) && o == OutcomeAt(matching[k], succeeds, k))
    || (var n := if limit < |matching| then limit else |matching|; AllFallThrough(matching, succeeds, n) && o == Default(n > 0))
  }

  lemma StopsLater(matching: seq<Rule>, succeeds: nat -> bool, k: nat)
    requires matching != [] && FallsThrough(matching[0], succeeds)
    ensures StopsAt(matching, succeeds, k) <==> k > 0 && StopsAt(matching[1..], succeeds, k - 1)
  {
    var rest := matching[1..];
    assert forall i :: 0 <= i < |rest| ==> rest[i] == matching[i + 1];
    if k > 0 && StopsAt(rest, succeeds, k - 1) {
      forall i | 0 <= i < k ensures FallsThrough(matching[i], succeeds) {
        if i > 0 { assert rest[i - 1] == matching[i]; }
      }
    }
  }

  lemma StopIsUnique(matching: seq<Rule>, succeeds: nat -> bool, j: nat, k: nat)
    requires StopsAt(matching, succeeds, j) && StopsAt(matching, succeeds, k)
    ensures j == k
  {
  }

  /** The loop, stopped at rule k or not stopped at all. */
  lemma {:induction false} RoutedAt(matching: seq<Rule>, succeeds: nat -> bool, left: nat, failed: bool, k: nat)
    requires StopsAt(matching, succeeds, k)
    ensures Routed(matching, succeeds, left, failed)
            == if left <= k then Default(failed || left > 0)
               else if succeeds(matching[k].id) then Handled(matching[k])
               else if matching[k].onHandlerError == "return_error" then Surfaced(matching[k])
               else Default(failed || k > 0)
    decreases k
  {
    if k > 0 && left > 0 {
      assert FallsThrough(matching[0], succeeds);
      StopsLater(matching, succeeds, k);
      RoutedAt(matching[1..], succeeds, left - 1, true, k - 1);
    }
  }

  lemma {:induction false} RoutedThrough(matching: seq<Rule>, succeeds: nat -> bool, left: nat, failed: bool)
    requires AllFallThrough(matching, succeeds, |matching|)
    ensures Routed(matching, succeeds, left, failed) == Default(failed || (left > 0 && matching != []))
  {
    if left > 0 && matching != [] {
      assert FallsThrough(matching[0], succeeds);
      assert forall i :: 0 <= i < |matching| - 1 ==> matching[1..][i] == matching[i + 1];
      RoutedThrough(matching[1..], succeeds, left - 1, true);
    }
  }

  lemma {:induction false} StopOrThrough(matching: seq<Rule>, succeeds: nat -> bool) returns (k: nat)
    ensures k <= |matching| && if k == |matching| then AllFallThrough(matching, succeeds, k) else StopsAt(matching, succeeds, k)
  {
    k := 0;
    while k < |matching| && FallsThrough(matching[k], succeeds)
      invariant k <= |matching| && AllFallThrough(matching, succeeds, k)
    {
      k := k + 1;
    }
  }

  /** The outcome of the loop is the one that the first stopping rule determines, and no other. */
  lemma RoutedIff(matching: seq<Rule>, succeeds: nat -> bool, limit: nat, o: Outcome)
    ensures o == Routed(matching, succeeds, limit, false) <==> IsOutcome(matching, succeeds, limit, o)
  {
    var k := StopOrThrough(matching, succeeds);
    if k < |matching| {
      RoutedAt(matching, succeeds, limit, false, k);
      forall j: nat | StopsAt(matching, succeeds, j) ensures j == k { StopIsUnique(matching, succeeds, j, k); }
    } else {
      RoutedThrough(matching, succeeds, limit, false);
      forall j: nat ensures !StopsAt(matching, succeeds, j) {
        if j < |matching| { assert FallsThrough(matching[j], succeeds); }
      }
    }
  }

  /** Rule k is handled, or its error surfaced, exactly if it is among the first five that match and all before it fell through. */
  lemma WhoAnswers(matching: seq<Rule>, succeeds: nat -> bool, k: nat)
    requires k < |matching| && DistinctIds(matching)
    ensures Routed(matching, succeeds, MAX_ATTEMPTS, false) == Handled(matching[k])
            <==> k < MAX_ATTEMPTS && succeeds(matching[k].id) && AllFallThrough(matching, succeeds, k)
    ensures Routed(matching, succeeds, MAX_ATTEMPTS, false) == Surfaced(matching[k])
            <==> k < MAX_ATTEMPTS && !succeeds(matching[k].id) && matching[k].onHandlerError == "return_error"
                 && AllFallThrough(matching, succeeds, k)
  {
    var stop := StopOrThrough(matching, succeeds);
    if stop < |matching| {
      RoutedAt(matching, succeeds, MAX_ATTEMPTS, false, stop);
      if stop < k { assert !FallsThrough(matching[stop], succeeds); }
      if k < stop { assert FallsThrough(matching[k], succeeds) && matching[k].id != matching[stop].id; }
    } else {
      RoutedThrough(matching, succeeds, MAX_ATTEMPTS, false);
      assert FallsThrough(matching[k], succeeds);
    }
  }

  // --- The bound against the unbounded chain ---

  /** Following a chain of winners to its end, with no bound on the attempts. */
  function Followed(chain: seq<Option<Rule>>, succeeds: nat -> bool, failed: bool): Outcome {
    if chain == [] || chain[0].None? then Default(failed)
    else
      var rule := chain[0].value;
      if succeeds(rule.id) then Handled(rule)
      else if rule.onHandlerError == "return_error" then Surfaced(rule)
      else if rule.onHandlerError == "fallback_next" then Followed(chain[1..], succeeds, true)
      else Default(failed)
  }

  lemma {:induction false} FollowedIsRouted(matching: seq<Rule>, succeeds: nat -> bool, failed: bool)
    ensures Followed(Somes(matching) + [None], succeeds, failed) == Routed(matching, succeeds, |matching|, failed)
  {
    if matching != [] {
      assert (Somes(matching) + [None])[1..] == Somes(matching[1..]) + [None];
      FollowedIsRouted(matching[1..], succeeds, true);
    }
  }

  /** The rule beyond the bound that would have answered. */
  predicate AnsweredBeyond(matching: seq<Rule>, succeeds: nat -> bool, limit: nat, k: nat) {
    limit <= k && StopsAt(matching, succeeds, k) && (succeeds(matching[k].id) || matching[k].onHandlerError == "return_error")
  }

  /** Five attempts come to what the unbounded chain comes to, except exactly when a later rule would have answered. */
  lemma BoundBitesIff(w: World, configured: bool, earlier: Option<Verdict>, rules: seq<Rule>, succeeds: nat -> bool, agentId: nat)
    requires OneAgent(rules, agentId) && DistinctIds(rules)
    ensures var matching := Matching(w, Settled(w, configured, earlier, agentId), rules, {});
            Routed(matching, succeeds, MAX_ATTEMPTS, false) == Followed(Chain(w, configured, earlier, rules, {}), succeeds, false)
            <==> !exists k: nat :: AnsweredBeyond(matching, succeeds, MAX_ATTEMPTS, k)
  {
    var matching := Matching(w, Settled(w, configured, earlier, agentId), rules, {});
    ChainEnumerates(w, configured, earlier, rules, {}, agentId);
    FollowedIsRouted(matching, succeeds, false);
    BoundBites(matching, succeeds, MAX_ATTEMPTS);
  }

  lemma BoundBites(matching: seq<Rule>, succeeds: nat -> bool, limit: nat)
    requires limit > 0
    ensures Routed(matching, succeeds, limit, false) == Routed(matching, succeeds, |matching|, false)
            <==> !exists k: nat :: AnsweredBeyond(matching, succeeds, limit, k)
  {
    var stop := StopOrThrough(matching, succeeds);
    if stop < |matching| {
      RoutedAt(matching, succeeds, limit, false, stop);
      RoutedAt(matching, succeeds, |matching|, false, stop);
      forall k: nat | AnsweredBeyond(matching, succeeds, limit, k) ensures k == stop { StopIsUnique(matching, succeeds, k, stop); }
      if limit <= stop && (succeeds(matching[stop].id) || matching[stop].onHandlerError == "return_error") {
        assert AnsweredBeyond(matching, succeeds, limit, stop);
      }
    } else {
      RoutedThrough(matching, succeeds, limit, false);
      RoutedThrough(matching, succeeds, |matching|, false);
      forall k: nat ensures !AnsweredBeyond(matching, succeeds, limit, k) {
        if k < |matching| { assert FallsThrough(matching[k], succeeds); }
      }
    }
  }

  /** Six matching rules of which the first five fall through: the sixth would succeed, and is not tried. */
  lemma SixthIsNotTried(matching: seq<Rule>, succeeds: nat -> bool)
    requires |matching| == 6 && AllFallThrough(matching, succeeds, 5) && succeeds(matching[5].id)
    ensures Routed(matching, succeeds, MAX_ATTEMPTS, false) == Default(true)
    ensures Followed(Somes(matching) + [None], succeeds, false) == Handled(matching[5])
  {
    assert StopsAt(matching, succeeds, 5);
    RoutedAt(matching, succeeds, MAX_ATTEMPTS, false, 5);
    RoutedAt(matching, succeeds, 6, false, 5);
    FollowedIsRouted(matching, succeeds, false);
  }

  function FallbackRules(n: nat): (rules: seq<Rule>)
    ensures |rules| == n && forall i :: 0 <= i < n ==> rules[i] == Rule(i, 0, true, "keyword", 0, "", "fallback_next")
  {
    seq(n, (i: nat) => Rule(i, 0, true, "keyword", 0, "", "fallback_next"))
  }

  /** Such a request exists: six keyword rules that all match, where only the sixth handler works. */
  lemma SixRulesExist()
    ensures var w := World((t, c) => true, a => None, 0.0);
            var (rules, succeeds) := (FallbackRules(6), (i: nat) => i == 5);
            && OneAgent(rules, 0) && DistinctIds(rules) && Matching(w, None, rules, {}) == rules
            && Routed(Matching(w, None, rules, {}), succeeds, MAX_ATTEMPTS, false) == Default(true)
            && Followed(Chain(w, false, None, rules, {}), succeeds, false) == Handled(rules[5])
  {
    var w := World((t, c) => true, a => None, 0.0);
    var rules, succeeds := FallbackRules(6), (i: nat) => i == 5;
    EverythingMatches(w, rules);
    SixthIsNotTried(rules, succeeds);
    ChainEnumerates(w, false, None, rules, {}, 0);
  }

  lemma {:induction false} EverythingMatches(w: World, rules: seq<Rule>)
    requires forall i :: 0 <= i < |rules| ==> Eligible(rules[i], {}) && Fires(w, rules[i], None)
    ensures Matching(w, None, rules, {}) == rules
  {
    if rules != [] {
      EverythingMatches(w, rules[..|rules| - 1]);
      assert rules == rules[..|rules| - 1] + [rules[|rules| - 1]];
    }
  }

  // --- The loop itself ---

  method Route(rules: seq<Rule>, input: MatchInput, succeeds: nat -> bool, agentId: nat) returns (outcome: Outcome)
    requires OneAgent(rules, agentId) && DistinctIds(rules)
    modifies input
    ensures var known := Settled(input.world, input.configured, old(input.classifierResult), agentId);
            var matching := Matching(input.world, known, rules, {});
            && outcome == Routed(matching, succeeds, MAX_ATTEMPTS, false)
            && IsOutcome(matching, succeeds, MAX_ATTEMPTS, outcome)
  {
    var skip: set<nat> := {};
    var attempt := 0;
    ghost var w, configured := input.world, input.configured;
    ghost var known := Settled(w, configured, input.classifierResult, agentId);
    ghost var all := Matching(w, known, rules, {});
    RoutedIff(all, succeeds, MAX_ATTEMPTS, Routed(all, succeeds, MAX_ATTEMPTS, false));
    while attempt < MAX_ATTEMPTS
      invariant attempt <= MAX_ATTEMPTS && (skip != {} <==> attempt > 0)
      invariant Settled(w, configured, input.classifierResult, agentId) == known
      invariant Routed(all, succeeds, MAX_ATTEMPTS, false)
                == Routed(Matching(w, known, rules, skip), succeeds, MAX_ATTEMPTS - attempt, skip != {})
    {
      ghost var earlier := input.classifierResult;
      WinnerIsHead(w, configured, earlier, rules, skip, agentId);
      SettledStays(w, configured, earlier, rules[..Reach(w, configured, earlier, rules, skip, 0)], skip, agentId);
      var d := Evaluate(rules, input, skip);
      attempt := attempt + 1;
      if d.matched.None? {
        break;
      }
      var rule := d.matched.value;
      if succeeds(rule.id) {
        return Handled(rule);
      }
      if rule.onHandlerError == "return_error" {
        return Surfaced(rule);
      }
      if rule.onHandlerError != "fallback_next" {
        break;
      }
      assert Matching(w, known, rules, skip)[1..] == Matching(w, known, rules, skip + {rule.id});
      skip := skip + {rule.id};
    }
    return Default(skip != {});
  }
}
