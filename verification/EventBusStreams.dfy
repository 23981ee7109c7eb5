/** What subscribers of the event bus are promised, in every interleaving of its steps. */
module EventBusStreams {
  import opened Wrappers
  import opened EventBusSpec

  ghost predicate Picks(stream: seq<Event>, log: seq<Event>, at: seq<nat>) {
    && |at| == |stream| && Increasing(at)
    && forall j :: 0 <= j < |at| ==> at[j] < |log| && stream[j] == log[at[j]]
  }

  /** Order-preserving, and no publication is used twice. */
  ghost predicate Subsequence(stream: seq<Event>, log: seq<Event>) {
    exists at :: Picks(stream, log, at)
  }

  lemma {:induction false} DeliveredIsPrefix(s: Sub)
    requires s.trace.put == Delivered(s) + s.queue
    ensures Stream(s) == if s.done then s.received else s.received + Before(s.queue)
  {
    var rest := (if s.done then [None] else []) + s.queue;
    assert s.trace.put == Items(s.received) + rest;
    BeforeItems(s.received, rest);
    if !s.done { assert rest == s.queue; }
  }

  /**
   What a subscriber has consumed is the beginning of its stream, all of it once stream() has returned; the stream
   is a subsequence of what was published; offered events are either in it or dropped, and dropped only when the
   queue had been at capacity; queue and history stay within their bounds.
   */
  lemma {:induction false} StreamsAreOrdered(queueSize: int, historyMax: int, ops: seq<Op>, i: nat)
    requires i < |Run(NewBus(queueSize, historyMax), ops).subs|
    ensures var b := Run(NewBus(queueSize, historyMax), ops);
            var s := b.subs[i];
            && Subsequence(Stream(s), b.log)
            && s.received <= Stream(s) && (s.done ==> s.received == Stream(s) && b.closed)
            && |Stream(s)| + s.trace.lost == s.trace.upto - s.trace.start
            && (s.trace.lost > 0 ==> s.trace.filled)
            && (b.queueSize > 0 ==> |s.queue| <= b.queueSize)
  {
    RunKeepsInv(queueSize, historyMax, ops);
    var b := Run(NewBus(queueSize, historyMax), ops);
    var s := b.subs[i];
    assert SubOk(b, i);
    DeliveredIsPrefix(s);
    assert Picks(Stream(s), b.log, s.trace.at);
    if s.done { assert (Delivered(s) + s.queue)[|s.received|] == None; }
  }

  lemma {:induction false} HistoryIsTheTail(queueSize: int, historyMax: int, ops: seq<Op>)
    ensures var b := Run(NewBus(queueSize, historyMax), ops);
            && |b.history| <= |b.log|
            && |b.history| == (if historyMax <= 0 then 0 else if |b.log| < historyMax then |b.log| else historyMax)
            && b.history == b.log[|b.log| - |b.history|..]
  {
    RunKeepsInv(queueSize, historyMax, ops);
    ParametersStay(NewBus(queueSize, historyMax), ops);
  }

  lemma {:induction false} ParametersStay(b: Bus, ops: seq<Op>)
    ensures Run(b, ops).queueSize == b.queueSize && Run(b, ops).historyMax == b.historyMax
  {
    if ops != [] {
      ParametersStay(b, ops[..|ops| - 1]);
    }
  }

  /** Strictly increasing numbers that are as many as their range leave no gap. */
  lemma NoGaps(at: seq<nat>, lo: nat, hi: nat)
    requires Increasing(at) && lo <= hi && |at| == hi - lo
    requires forall j :: 0 <= j < |at| ==> lo <= at[j] < hi
    ensures forall j :: 0 <= j < |at| ==> at[j] == lo + j
  {
    if |at| > 0 {
      var n := |at| - 1;
      forall j | 0 <= j < n ensures at[..n][j] < hi - 1 { assert at[j] < at[n]; }
      NoGaps(at[..n], lo, hi - 1);
      assert n > 0 ==> at[..n][n - 1] == at[n - 1] && at[n - 1] < at[n];
    }
  }

  lemma NothingLost(log: seq<Event>, t: Trace)
    requires TraceOk(log, t) && t.lost == 0
    ensures Before(t.put) == log[t.start..t.upto]
  {
    NoGaps(t.at, t.start, t.upto);
  }

  /** How one queue may develop: whatever is ahead of its first sentinel is settled for ever. */
  ghost predicate SubEvolves(s: Sub, s': Sub) {
    && s'.trace.start == s.trace.start
    && s.trace.upto <= s'.trace.upto && s.trace.lost <= s'.trace.lost
    && (s.trace.filled ==> s'.trace.filled)
    && (None in s.trace.put ==> None in s'.trace.put && Stream(s') == Stream(s) && s'.trace.lost == s.trace.lost)
  }

  ghost predicate Evolves(b: Bus, b': Bus, i: nat)
    requires i < |b.subs|
  {
    i < |b'.subs| && b.log <= b'.log && (b.closed ==> b'.closed) && SubEvolves(b.subs[i], b'.subs[i])
  }

  lemma QueueStepsEvolve(size: int, s: Sub, ev: Event, p: nat)
    requires None in s.trace.put || s.trace.upto <= p + 1
    ensures SubEvolves(s, PutEvent(size, s, ev, p)) && SubEvolves(s, MissEvent(s, p)) && SubEvolves(s, OfferEnd(size, s))
    ensures s.queue != [] ==> SubEvolves(s, ConsumeOne(s))
  {
    BeforeAppend(s.trace.put, None);
    BeforeAppend(s.trace.put, Some(ev));
  }

  lemma DeliveryEvolves(b: Bus, op: Op, i: nat)
    requires Inv(b) && i < |b.subs| && Enabled(b, op) && !op.Close? && !op.Consume?
    ensures Evolves(b, Step(b, op), i)
  {
    assert SubOk(b, i);
    if b.pending.Some? { QueueStepsEvolve(b.queueSize, b.subs[i], b.pending.value.ev, |b.log| - 1); }
  }

  lemma StepEvolves(b: Bus, op: Op, i: nat)
    requires Inv(b) && i < |b.subs|
    ensures Evolves(b, Step(b, op), i)
  {
    var s := b.subs[i];
    assert SubOk(b, i);
    if Enabled(b, op) {
      match op
      case Close =>
        QueueStepsEvolve(b.queueSize, s, Event(Heartbeat, "", None, ""), s.trace.upto);
        assert Step(b, op).subs[i] == OfferEnd(b.queueSize, s);
      case Consume(_) => QueueStepsEvolve(b.queueSize, s, Event(Heartbeat, "", None, ""), s.trace.upto);
      case _ => DeliveryEvolves(b, op, i);
    }
  }

  lemma {:induction false} RunEvolves(b: Bus, ops: seq<Op>, i: nat)
    requires Inv(b) && i < |b.subs|
    ensures Evolves(b, Run(b, ops), i)
  {
    if ops != [] {
      RunFromKeepsInv(b, ops[..|ops| - 1]);
      RunEvolves(b, ops[..|ops| - 1], i);
      StepEvolves(Run(b, ops[..|ops| - 1]), ops[|ops| - 1], i);
    }
  }

  lemma {:induction false} RunFromKeepsInv(b: Bus, ops: seq<Op>)
    requires Inv(b)
    ensures Inv(Run(b, ops))
  {
    if ops != [] {
      RunFromKeepsInv(b, ops[..|ops| - 1]);
      StepKeepsInv(Run(b, ops[..|ops| - 1]), ops[|ops| - 1]);
    }
  }

  /** A new subscriber starts from the history retained at that moment. */
  lemma SubscribeStarts(b: Bus)
    requires Inv(b) && Enabled(b, Subscribe)
    ensures Inv(Step(b, Subscribe))
    ensures var b' := Step(b, Subscribe);
            && b'.log == b.log && |b'.subs| == |b.subs| + 1
            && b'.subs[|b.subs|].trace.start == |b.log| - |b.history| && b'.subs[|b.subs|].trace.upto == |b.log|
  {
    StepKeepsInv(b, Subscribe);
  }

  /** Subscriber i, if there is one, has lost no event. */
  predicate Intact(b: Bus, i: nat) {
    i < |b.subs| ==> b.subs[i].trace.lost == 0
  }

  /** The bus may be closed now, and the sentinel will fit in the queue of an intact subscriber i. */
  predicate ReadyToClose(b: Bus, i: nat) {
    Enabled(b, Close) && !b.closed && Intact(b, i) && (i < |b.subs| ==> !Full(b.queueSize, b.subs[i].queue))
  }

  /**
   While the bus is open, a subscriber that lost nothing has been given exactly the history retained when it
   subscribed followed by every event published since, except one whose critical publish is still on its way to it.
   */
  lemma {:induction false} OpenStreamIsExact(b0: Bus, during: seq<Op>)
    requires Inv(b0) && Enabled(b0, Subscribe)
    requires !Run(Step(b0, Subscribe), during).closed && Intact(Run(Step(b0, Subscribe), during), |b0.subs|)
    ensures var b2 := Run(Step(b0, Subscribe), during);
            var i := |b0.subs|;
            var n := |b2.log| - (if Awaits(b2, i) then 1 else 0);
            i < |b2.subs| && |b0.log| <= n && Stream(b2.subs[i]) == b0.history + b2.log[|b0.log|..n]
  {
    var i := |b0.subs|;
    var b1 := Step(b0, Subscribe);
    SubscribeStarts(b0);
    RunFromKeepsInv(b1, during);
    RunEvolves(b1, during, i);
    var b2 := Run(b1, during);
    assert SubOk(b2, i);
    NothingLost(b2.log, b2.subs[i].trace);
    TailThenRest(b0.log, b2.log, b0.historyMax, b2.subs[i].trace.upto);
  }

  lemma TailThenRest(log: seq<Event>, later: seq<Event>, max: int, n: nat)
    requires log <= later && |log| <= n <= |later|
    ensures |Tail(log, max)| <= |log|
    ensures later[|log| - |Tail(log, max)|..n] == Tail(log, max) + later[|log|..n]
  {
    assert later[..|log|] == log;
  }

  /** A sentinel that fits settles the stream for ever. */
  lemma {:induction false} CloseSettles(b: Bus, i: nat, after: seq<Op>)
    requires Inv(b) && Enabled(b, Close) && !b.closed && i < |b.subs| && !Full(b.queueSize, b.subs[i].queue)
    ensures var b' := Run(Step(b, Close), after);
            i < |b'.subs| && None in b'.subs[i].trace.put && Stream(b'.subs[i]) == Stream(b.subs[i])
  {
    assert SubOk(b, i);
    var b1 := Step(b, Close);
    StepKeepsInv(b, Close);
    assert b1.subs[i] == OfferEnd(b.queueSize, b.subs[i]);
    BeforeAppend(b.subs[i].trace.put, None);
    assert Stream(b1.subs[i]) == Stream(b.subs[i]) + [];
    RunEvolves(b1, after, i);
  }

  /** Closed, and subscriber i has not been and never will be told. */
  predicate Untold(b: Bus, i: nat) {
    b.closed && i < |b.subs| && None !in b.subs[i].trace.put && !b.subs[i].done
  }

  lemma StaysUntold(b: Bus, op: Op, i: nat)
    requires Inv(b) && Untold(b, i) && op != Close
    ensures Untold(Step(b, op), i)
  {
    assert SubOk(b, i);
    if Enabled(b, op) && op == Consume(i) {
      assert b.subs[i].queue[0] in b.subs[i].trace.put by {
        assert (Delivered(b.subs[i]) + b.subs[i].queue)[|Delivered(b.subs[i])|] == b.subs[i].queue[0];
      }
    }
  }

  lemma {:induction false} RunStaysUntold(b: Bus, i: nat, after: seq<Op>)
    requires Inv(b) && Untold(b, i) && Close !in after
    ensures Untold(Run(b, after), i)
  {
    if after != [] {
      var n := |after| - 1;
      assert after[n] in after && forall op :: op in after[..n] ==> op in after;
      RunStaysUntold(b, i, after[..n]);
      RunFromKeepsInv(b, after[..n]);
      StaysUntold(Run(b, after[..n]), after[n], i);
    }
  }

  lemma DoneMeansTold(s: Sub)
    requires s.trace.put == Delivered(s) + s.queue
    ensures s.done ==> None in s.trace.put
  {
    if s.done { assert s.trace.put[|s.received|] == None; }
  }

  /** Closing once gives subscriber i a sentinel exactly if its queue has room; otherwise its reader never finishes. */
  lemma CloseDecides(b: Bus, i: nat, after: seq<Op>)
    requires Inv(b) && Enabled(b, Close) && !b.closed && i < |b.subs| && Close !in after
    ensures var b' := Run(Step(b, Close), after);
            && i < |b'.subs|
            && (None in b'.subs[i].trace.put <==> !Full(b.queueSize, b.subs[i].queue))
            && (Full(b.queueSize, b.subs[i].queue) ==> !b'.subs[i].done)
  {
    if Full(b.queueSize, b.subs[i].queue) {
      assert SubOk(b, i);
      DoneMeansTold(b.subs[i]);
      StepKeepsInv(b, Close);
      assert Step(b, Close).subs[i] == OfferEnd(b.queueSize, b.subs[i]);
      RunStaysUntold(Step(b, Close), i, after);
    } else {
      CloseSettles(b, i, after);
    }
  }

  // --- A run that loses both ways ---

  function ToOneDelivered(e1: Event): seq<Op> {
    [] + [Subscribe] + [Subscribe] + [Begin(e1)] + [Offer] + [Offer]
  }

  function ToTheClose(e1: Event, e2: Event): seq<Op> {
    ToOneDelivered(e1) + [Consume(1)] + [Begin(e2)] + [Offer]
  }

  function OneDelivered(e1: Event): Bus {
    var s := Sub([Some(e1)], [], false, Trace([Some(e1)], [0], 0, 1, 0, false, true));
    Bus(1, 10, [s, s], false, [e1], [e1], None)
  }

  /** Two subscribers with room for one event each have been sent one. */
  lemma DeliversOne(e1: Event)
    ensures Run(NewBus(1, 10), ToOneDelivered(e1)) == OneDelivered(e1)
  {
    var b0 := NewBus(1, 10);
    RunLast(b0, [], Subscribe);
    RunLast(b0, [] + [Subscribe], Subscribe);
    RunLast(b0, [] + [Subscribe] + [Subscribe], Begin(e1));
    RunLast(b0, [] + [Subscribe] + [Subscribe] + [Begin(e1)], Offer);
    RunLast(b0, [] + [Subscribe] + [Subscribe] + [Begin(e1)] + [Offer], Offer);
    var s := Sub([], [], false, Trace([], [], 0, 0, 0, false, false));
    var b2 := Run(b0, [] + [Subscribe] + [Subscribe]);
    assert b2 == b0.(subs := [s, s]);
    assert Numbers(0, 2) == [0, 1] && [0, 1][1..] == [1] && [1][1..] == [];
    var b3 := Step(b2, Begin(e1));
    assert b3 == Bus(1, 10, [s, s], false, [e1], [e1], Some(Pending(e1, [0, 1], false)));
    var s' := PutEvent(1, s, e1, 0);
    assert s' == Sub([Some(e1)], [], false, Trace([Some(e1)], [0], 0, 1, 0, false, true));
    assert Step(b3, Offer) == Bus(1, 10, [s', s], false, [e1], [e1], Some(Pending(e1, [1], false)));
  }

  /** The first does not read, so a second, critical event waits for it, and the second one is still to come. */
  lemma SuspendedAtTheClose(e1: Event, e2: Event)
    requires Critical(e2)
    ensures var b := Run(NewBus(1, 10), ToTheClose(e1, e2));
            && Enabled(b, Close) && !b.closed && b.queueSize == 1 && b.log == [e1, e2] && |b.subs| == 2
            && b.pending == Some(Pending(e2, [0, 1], true))
            && b.subs[0].queue == [Some(e1)] && b.subs[1].queue == [] && b.subs[1].received == [e1]
            && b.subs[1].trace.put == [Some(e1)] && b.subs[1].trace.lost == 0 && !b.subs[1].done && Awaits(b, 1)
  {
    var b0 := NewBus(1, 10);
    DeliversOne(e1);
    RunLast(b0, ToOneDelivered(e1), Consume(1));
    RunLast(b0, ToOneDelivered(e1) + [Consume(1)], Begin(e2));
    RunLast(b0, ToOneDelivered(e1) + [Consume(1)] + [Begin(e2)], Offer);
    var b6 := Step(OneDelivered(e1), Consume(1));
    assert b6.subs[1].queue == [] && b6.subs[1].received == [e1] && b6.subs[0] == OneDelivered(e1).subs[0];
    assert Numbers(0, 2) == [0, 1];
    assert Step(b6, Begin(e2)).pending == Some(Pending(e2, [0, 1], false)) && Step(b6, Begin(e2)).log == [e1, e2];
  }

  /** Whatever happens after that close, the first reader never finishes, and the second one's stream lacks the second event. */
  lemma TheCloseLosesBoth(e1: Event, e2: Event, after: seq<Op>)
    requires Critical(e2) && Close !in after
    ensures var b := Run(Step(Run(NewBus(1, 10), ToTheClose(e1, e2)), Close), after);
            && |b.subs| >= 2 && [e1, e2] <= b.log && !b.subs[0].done
            && None in b.subs[1].trace.put && Stream(b.subs[1]) == [e1]
  {
    var b := Run(NewBus(1, 10), ToTheClose(e1, e2));
    SuspendedAtTheClose(e1, e2);
    RunKeepsInv(1, 10, ToTheClose(e1, e2));
    StepKeepsInv(b, Close);
    CloseDecides(b, 0, after);
    CloseDecides(b, 1, after);
    CloseSettles(b, 1, after);
    RunEvolves(Step(b, Close), after, 1);
    assert Before([Some(e1)]) == [e1] by {
      BeforeItems([e1], []);
      assert Items([e1]) + [] == [Some(e1)] && Before([]) == [];
    }
  }

  /** The event does arrive, behind the sentinel and after the reader has left. */
  lemma BehindTheSentinel(e1: Event, e2: Event)
    requires Critical(e2)
    ensures var b := Run(Step(Run(NewBus(1, 10), ToTheClose(e1, e2)), Close), [] + [Timeout] + [Offer] + [Consume(1)] + [Wake]);
            && |b.subs| == 2 && b.subs[1].done && b.subs[1].received == [e1]
            && b.subs[1].queue == [Some(e2)] && b.subs[1].trace.put == [Some(e1), None, Some(e2)]
  {
    SuspendedAtTheClose(e1, e2);
    var b1 := Step(Run(NewBus(1, 10), ToTheClose(e1, e2)), Close);
    assert b1.subs[1].queue == [None] && b1.subs[1].trace.put == [Some(e1), None];
    RunLast(b1, [], Timeout);
    assert [0, 1][1..] == [1] && [1][1..] == [];
    var b2 := Step(b1, Timeout);
    assert b2.pending == Some(Pending(e2, [1], false)) && b2.subs[1] == b1.subs[1];
    RunLast(b1, [] + [Timeout], Offer);
    var b3 := Step(b2, Offer);
    assert b3.pending == Some(Pending(e2, [1], true)) && b3.subs == b2.subs;
    RunLast(b1, [] + [Timeout] + [Offer], Consume(1));
    var b4 := Step(b3, Consume(1));
    assert b4.subs[1].queue == [] && b4.subs[1].done;
    RunLast(b1, [] + [Timeout] + [Offer] + [Consume(1)], Wake);
  }

  /**
   Subscribe, run, close, run on. If no event was dropped and the sentinel fitted, then from the close onwards the
   stream is for ever the history retained at subscription followed by every event published between subscription
   and close - without the event of a critical publish that was still on its way to this subscriber at the close.
   */
  lemma {:induction false} StreamIsExact(queueSize: int, historyMax: int, before: seq<Op>, during: seq<Op>, after: seq<Op>)
    requires Enabled(Run(NewBus(queueSize, historyMax), before), Subscribe)
    requires ReadyToClose(Run(Step(Run(NewBus(queueSize, historyMax), before), Subscribe), during),
                          |Run(NewBus(queueSize, historyMax), before).subs|)
    ensures var b0 := Run(NewBus(queueSize, historyMax), before);
            var b2 := Run(Step(b0, Subscribe), during);
            var b4 := Run(Step(b2, Close), after);
            var i := |b0.subs|;
            var n := |b2.log| - (if Awaits(b2, i) then 1 else 0);
            && i < |b4.subs| && |b0.log| <= n
            && None in b4.subs[i].trace.put && Stream(b4.subs[i]) == b0.history + b2.log[|b0.log|..n]
  {
    RunKeepsInv(queueSize, historyMax, before);
    var b0 := Run(NewBus(queueSize, historyMax), before);
    StreamFromHere(b0, during, Run(Step(b0, Subscribe), during), after);
  }

  lemma {:induction false} StreamFromHere(b0: Bus, during: seq<Op>, b2: Bus, after: seq<Op>)
    requires Inv(b0) && Enabled(b0, Subscribe) && b2 == Run(Step(b0, Subscribe), during) && ReadyToClose(b2, |b0.subs|)
    ensures var b4 := Run(Step(b2, Close), after);
            var i := |b0.subs|;
            var n := |b2.log| - (if Awaits(b2, i) then 1 else 0);
            && i < |b4.subs| && |b0.log| <= n
            && None in b4.subs[i].trace.put && Stream(b4.subs[i]) == b0.history + b2.log[|b0.log|..n]
  {
    OpenStreamIsExact(b0, during);
    StepKeepsInv(b0, Subscribe);
    RunFromKeepsInv(Step(b0, Subscribe), during);
    CloseSettles(b2, |b0.subs|, after);
  }

  /** In particular a subscriber whose queue has never been at capacity streams exactly that. */
  lemma {:induction false} UnfilledStreamIsExact(b0: Bus, during: seq<Op>, after: seq<Op>)
    requires Inv(b0) && Enabled(b0, Subscribe)
    requires var b2 := Run(Step(b0, Subscribe), during);
             Enabled(b2, Close) && !b2.closed && (|b0.subs| < |b2.subs| ==> !b2.subs[|b0.subs|].trace.filled)
    ensures var b2 := Run(Step(b0, Subscribe), during);
            var b4 := Run(Step(b2, Close), after);
            var i := |b0.subs|;
            var n := |b2.log| - (if Awaits(b2, i) then 1 else 0);
            && i < |b4.subs| && |b0.log| <= n
            && None in b4.subs[i].trace.put && Stream(b4.subs[i]) == b0.history + b2.log[|b0.log|..n]
  {
    var b2 := Run(Step(b0, Subscribe), during);
    StepKeepsInv(b0, Subscribe);
    RunFromKeepsInv(Step(b0, Subscribe), during);
    if |b0.subs| < |b2.subs| { assert SubOk(b2, |b0.subs|); }
    StreamFromHere(b0, during, b2, after);
  }

  /** A subscriber that arrives after the close is told about the end exactly when the history leaves room for it. */
  lemma {:induction false} LateSubscriber(queueSize: int, historyMax: int, ops: seq<Op>)
    requires Run(NewBus(queueSize, historyMax), ops).closed
    ensures var b := Run(NewBus(queueSize, historyMax), ops);
            && |b.history| <= |b.log|
            && (None in NewSub(b).queue <==> queueSize <= 0 || |b.history| < queueSize)
            && (None in NewSub(b).queue ==> NewSub(b).queue == Items(b.history) + [None] && Stream(NewSub(b)) == b.history)
            && (None !in NewSub(b).queue ==> NewSub(b).queue == Items(b.history[..queueSize]))
  {
    RunKeepsInv(queueSize, historyMax, ops);
    ParametersStay(NewBus(queueSize, historyMax), ops);
    var b := Run(NewBus(queueSize, historyMax), ops);
    assert |b.history| <= |b.log|;
    BeforeItems(b.history, [None]);
    assert b.history[..|b.history|] == b.history;
    assert Before([None]) == [] && b.history + [] == b.history;
  }

  /** Once the sentinel is in the queue, reading on reaches the end after finitely many steps, with the whole stream. */
  lemma {:induction false} DrainingReachesTheEnd(b: Bus, i: nat) returns (n: nat)
    requires Inv(b) && MayInterleave(b) && i < |b.subs| && !b.subs[i].done && None in b.subs[i].queue
    ensures n <= |b.subs[i].queue|
    ensures var b' := Run(b, Repeat(Consume(i), n));
            i < |b'.subs| && b'.subs[i].done && b'.subs[i].received == Stream(b.subs[i])
    decreases |b.subs[i].queue|
  {
    var op := Consume(i);
    var b1 := Step(b, op);
    StepKeepsInv(b, op);
    if b.subs[i].queue[0].None? {
      n := 1;
      assert Repeat(op, 1)[..0] == [];
      assert Run(b, Repeat(op, 1)) == b1;
      assert SubOk(b1, i);
      DeliveredIsPrefix(b1.subs[i]);
    } else {
      n := DrainingReachesTheEnd(b1, i);
      RunFront(b, op, Repeat(op, n));
      n := n + 1;
      assert Repeat(op, n) == [op] + Repeat(op, n - 1);
    }
  }

  lemma RunLast(b: Bus, ops: seq<Op>, op: Op)
    ensures Run(b, ops + [op]) == Step(Run(b, ops), op)
  {
    assert (ops + [op])[..|ops|] == ops;
  }

  lemma {:induction false} RunFront(b: Bus, op: Op, ops: seq<Op>)
    ensures Run(b, [op] + ops) == Run(Step(b, op), ops)
  {
    if ops == [] {
      RunLast(b, [], op);
      assert [op] + ops == [] + [op];
    } else {
      var front, last := ops[..|ops| - 1], ops[|ops| - 1];
      RunFront(b, op, front);
      RunLast(b, [op] + front, last);
      RunLast(Step(b, op), front, last);
      assert ops == front + [last] && [op] + ops == ([op] + front) + [last];
    }
  }
}
