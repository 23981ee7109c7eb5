/** What each step does to the queues, told by their contents alone, and what becomes of a critical event (app/workflow/events.py). */
module EventBusDelivery {
  import opened Wrappers
  import opened EventBusSpec
  import opened EventBusStreams

  // --- What may happen to one subscriber ---

  /** The event joins the end of the queue, and of the stream unless that has ended. */
  ghost predicate Got(s: Sub, s': Sub, ev: Event) {
    && s'.queue == s.queue + [Some(ev)] && s'.received == s.received && s'.done == s.done
    && s'.trace.put == s.trace.put + [Some(ev)]
    && s'.trace.lost == s.trace.lost && s'.trace.lostEnd == s.trace.lostEnd
    && Stream(s') == Stream(s) + (if None in s.trace.put then [] else [ev])
  }

  /** The event is dropped, and counted as lost unless the stream has ended. */
  ghost predicate Missed(s: Sub, s': Sub) {
    && s'.queue == s.queue && s'.received == s.received && s'.done == s.done && s'.trace.put == s.trace.put
    && s'.trace.lost == s.trace.lost + (if None in s.trace.put then 0 else 1)
  }

  // --- What may happen to the rest of the bus ---

  /** No queue but that of subscriber h is touched, and nothing is published or closed. */
  ghost predicate OnlyTouches(b: Bus, b': Bus, h: nat) {
    && |b'.subs| == |b.subs| && (forall i :: 0 <= i < |b.subs| && i != h ==> b'.subs[i] == b.subs[i])
    && b'.log == b.log && b'.history == b.history && b'.closed == b.closed
    && b'.queueSize == b.queueSize && b'.historyMax == b.historyMax
  }

  /** The publisher is through with the first subscriber it had left, and not suspended. */
  ghost predicate MovedOn(b: Bus, b': Bus)
    requires b.pending.Some? && b.pending.value.waitlist != []
  {
    var p := b.pending.value;
    b'.pending == if |p.waitlist| == 1 then None else Some(Pending(p.ev, p.waitlist[1..], false))
  }

  /** The subscriber that the publisher has reached. */
  function Reached(b: Bus): (h: nat)
    requires b.pending.Some? && HeadKnown(b)
  {
    b.pending.value.waitlist[0]
  }

  predicate HasRoom(b: Bus, i: nat)
    requires i < |b.subs|
  {
    b.queueSize <= 0 || |b.subs[i].queue| < b.queueSize
  }

  /** A queue entry added at the end. */
  lemma PutIsGot(size: int, s: Sub, ev: Event, p: nat)
    ensures Got(s, PutEvent(size, s, ev, p), ev)
  {
    BeforeAppend(s.trace.put, Some(ev));
  }

  lemma AdvanceMoves(b: Bus, s: Sub)
    requires b.pending.Some? && HeadKnown(b)
    ensures OnlyTouches(b, Advance(b, s), Reached(b)) && MovedOn(b, Advance(b, s)) && Advance(b, s).subs[Reached(b)] == s
  {
    assert b.pending.value.waitlist[1..] == [] <==> |b.pending.value.waitlist| == 1;
  }

  /** A waiting put goes through as soon as there is room, open bus or closed: the event is in the queue, and nothing is lost. */
  lemma WakeDelivers(b: Bus)
    requires Inv(b) && b.pending.Some? && b.pending.value.waiting
    requires HeadKnown(b) && HasRoom(b, Reached(b))
    ensures Enabled(b, Wake)
    ensures var b' := Step(b, Wake);
            && OnlyTouches(b, b', Reached(b)) && MovedOn(b, b')
            && Got(b.subs[Reached(b)], b'.subs[Reached(b)], b.pending.value.ev)
  {
    PutIsGot(b.queueSize, Head(b), b.pending.value.ev, |b.log| - 1);
    AdvanceMoves(b, PutEvent(b.queueSize, Head(b), b.pending.value.ev, |b.log| - 1));
  }

  /** A put that runs out of time loses the event for this subscriber alone. */
  lemma TimeoutDrops(b: Bus)
    requires Inv(b) && b.pending.Some? && b.pending.value.waiting && HeadKnown(b)
    ensures Enabled(b, Timeout)
    ensures var b' := Step(b, Timeout);
            && OnlyTouches(b, b', Reached(b)) && MovedOn(b, b') && Missed(b.subs[Reached(b)], b'.subs[Reached(b)])
  {
    AdvanceMoves(b, MissEvent(Head(b), |b.log| - 1));
  }

  /** The start and end of a workflow and the error of a node are waited for. */
  predicate WaitedFor(kind: EventType) {
    kind == WorkflowStart || kind == WorkflowEnd || kind == NodeError
  }

  /** An offer puts the event if there is room; if not, it suspends for the three kinds above and drops every other. */
  lemma OfferDecides(b: Bus)
    requires Inv(b) && b.pending.Some? && !b.pending.value.waiting && HeadKnown(b)
    ensures Enabled(b, Offer)
    ensures var (b', h, ev) := (Step(b, Offer), Reached(b), b.pending.value.ev);
            && OnlyTouches(b, b', h)
            && (HasRoom(b, h) ==> MovedOn(b, b') && Got(b.subs[h], b'.subs[h], ev))
            && (!HasRoom(b, h) && !WaitedFor(ev.kind) ==> MovedOn(b, b') && Missed(b.subs[h], b'.subs[h]))
            && (!HasRoom(b, h) && WaitedFor(ev.kind) ==>
                  b'.subs[h] == b.subs[h] && b'.pending == Some(Pending(ev, b.pending.value.waitlist, true)))
  {
    PutIsGot(b.queueSize, Head(b), b.pending.value.ev, |b.log| - 1);
    AdvanceMoves(b, PutEvent(b.queueSize, Head(b), b.pending.value.ev, |b.log| - 1));
    AdvanceMoves(b, MissEvent(Head(b), |b.log| - 1));
  }

  /** A publish records the event and goes on to offer it to every subscriber there is, in their order; on a closed bus to none. */
  lemma BeginReachesAll(b: Bus, ev: Event)
    requires Inv(b) && b.pending.None?
    ensures Enabled(b, Begin(ev))
    ensures var b' := Step(b, Begin(ev));
            && b'.subs == b.subs && b'.closed == b.closed && b'.log == b.log + [ev]
            && |b'.history| <= |b'.log| && b'.history == b'.log[|b'.log| - |b'.history|..]
            && |b'.history| == (if b.historyMax <= 0 then 0 else if |b'.log| < b.historyMax then |b'.log| else b.historyMax)
            && (b'.pending.None? <==> b.closed || b.subs == [])
            && (b'.pending.Some? ==>
                  var p := b'.pending.value;
                  p.ev == ev && !p.waiting && |p.waitlist| == |b.subs| && forall i :: 0 <= i < |b.subs| ==> p.waitlist[i] == i)
  {
    StepKeepsInv(b, Begin(ev));
  }

  /** Closing appends the sentinel to every queue with room and leaves the full ones as they are. */
  lemma CloseEnds(b: Bus, i: nat)
    requires Enabled(b, Close) && i < |b.subs|
    ensures var (b', s) := (Step(b, Close), b.subs[i]);
            && b'.closed && b'.log == b.log && b'.history == b.history && b'.pending == b.pending && |b'.subs| == |b.subs|
            && b'.subs[i].received == s.received && b'.subs[i].done == s.done
            && b'.subs[i].queue == s.queue + (if HasRoom(b, i) then [None] else [])
            && Stream(b'.subs[i]) == Stream(s)
  {
    assert Step(b, Close).subs[i] == OfferEnd(b.queueSize, b.subs[i]);
    BeforeAppend(b.subs[i].trace.put, None);
  }

  /** Reading takes the first entry: an event is yielded, the sentinel ends the reader. */
  lemma ConsumeYields(b: Bus, i: nat)
    requires MayInterleave(b) && i < |b.subs| && b.subs[i].queue != [] && !b.subs[i].done
    ensures Enabled(b, Consume(i))
    ensures var (b', s) := (Step(b, Consume(i)), b.subs[i]);
            && OnlyTouches(b, b', i) && b'.pending == b.pending
            && [s.queue[0]] + b'.subs[i].queue == s.queue
            && b'.subs[i].received == s.received + (match s.queue[0] case None => [] case Some(ev) => [ev])
            && b'.subs[i].done == s.queue[0].None? && b'.subs[i].trace == s.trace
  {
  }

  /** A new subscriber finds the retained history in its queue as far as it fits, and the sentinel if the bus is closed and there is room. */
  lemma SubscribeReplays(b: Bus)
    requires Inv(b) && MayInterleave(b)
    ensures Enabled(b, Subscribe)
    ensures var (b', s) := (Step(b, Subscribe), NewSub(b));
            && b'.subs == b.subs + [s] && b'.log == b.log && b'.history == b.history && b'.closed == b.closed && b'.pending == b.pending
            && s.received == [] && !s.done
            && var fits := if b.queueSize <= 0 || |b.history| <= b.queueSize then |b.history| else b.queueSize;
               s.queue == Items(b.history[..fits]) + (if b.closed && (b.queueSize <= 0 || fits < b.queueSize) then [None] else [])
  {
    TailFits(b.log, b.historyMax);
    var fits := if b.queueSize <= 0 || |b.history| <= b.queueSize then |b.history| else b.queueSize;
    assert Items(b.history[..fits]) + [] == Items(b.history[..fits]);
  }

  lemma TailFits(log: seq<Event>, max: int)
    ensures |Tail(log, max)| <= |log|
  {
  }

  // --- What becomes of a critical event ---

  /** Publication number p has a place in the stream of subscriber i. */
  ghost predicate Streamed(b: Bus, p: nat, i: nat)
    requires i < |b.subs|
  {
    var s := b.subs[i];
    exists j :: 0 <= j < |s.trace.at| && s.trace.at[j] == p && j < |Stream(s)| && p < |b.log| && Stream(s)[j] == b.log[p]
  }

  /** Publication number p is the one in progress, and subscriber i still has to get it. */
  ghost predicate OnItsWay(b: Bus, p: nat, i: nat) {
    Awaits(b, i) && |b.log| == p + 1
  }

  ghost predicate NotDropped(b: Bus, p: nat, i: nat) {
    && Inv(b) && !b.closed && i < |b.subs| && p < |b.log| && WaitedFor(b.log[p].kind)
    && (OnItsWay(b, p, i) || p in b.subs[i].trace.at)
  }

  lemma InStream(b: Bus, p: nat, i: nat)
    requires Inv(b) && i < |b.subs| && p in b.subs[i].trace.at
    ensures Streamed(b, p, i)
  {
    assert SubOk(b, i);
    var t := b.subs[i].trace;
    var j :| 0 <= j < |t.at| && t.at[j] == p;
    assert Before(t.put)[j] == b.log[t.at[j]];
  }

  lemma PutDropsNothing(b: Bus, p: nat, i: nat)
    requires NotDropped(b, p, i) && b.pending.Some? && HeadKnown(b) && HasRoom(b, Reached(b))
    ensures NotDropped(Advance(b, PutEvent(b.queueSize, Head(b), b.pending.value.ev, |b.log| - 1)), p, i)
  {
    PutHeadOk(b);
    assert SubOk(b, i);
    var w := b.pending.value.waitlist;
    var at := b.subs[i].trace.at;
    if Reached(b) == i {
      assert (at + [|b.log| - 1])[|at|] == |b.log| - 1;
      assert forall q :: q in at ==> q in at + [|b.log| - 1];
    } else if i in w {
      var j :| 0 <= j < |w| && w[j] == i;
      assert w[1..][j - 1] == i;
    }
  }

  lemma StepDropsNothing(b: Bus, op: Op, p: nat, i: nat)
    requires NotDropped(b, p, i) && op != Timeout && op != Close
    ensures NotDropped(Step(b, op), p, i)
  {
    StepKeepsInv(b, op);
    if Enabled(b, op) {
      match op
      case Offer => if HasRoom(b, Reached(b)) { PutDropsNothing(b, p, i); }
      case Wake => PutDropsNothing(b, p, i);
      case _ =>
    }
  }

  lemma {:induction false} RunDropsNothing(b: Bus, ops: seq<Op>, p: nat, i: nat)
    requires NotDropped(b, p, i) && Timeout !in ops && Close !in ops
    ensures NotDropped(Run(b, ops), p, i)
  {
    if ops != [] {
      var n := |ops| - 1;
      assert ops[n] in ops && forall op :: op in ops[..n] ==> op in ops;
      RunDropsNothing(b, ops[..n], p, i);
      StepDropsNothing(Run(b, ops[..n]), ops[n], p, i);
    }
  }

  /**
   A critical event published on an open bus reaches every subscriber there is at that moment, in every interleaving without a
   timeout or a close: it has its place in the subscriber's stream unless the publisher has still to get there.
   */
  lemma {:induction false} CriticalArrives(queueSize: int, historyMax: int, before: seq<Op>, ev: Event, after: seq<Op>, i: nat)
    requires var b := Run(NewBus(queueSize, historyMax), before);
             !b.closed && b.pending.None? && i < |b.subs| && WaitedFor(ev.kind)
    requires Timeout !in after && Close !in after
    ensures var b := Run(NewBus(queueSize, historyMax), before);
            var b' := Run(Step(b, Begin(ev)), after);
            && b.log + [ev] <= b'.log && i < |b'.subs|
            && (!OnItsWay(b', |b.log|, i) ==> Streamed(b', |b.log|, i) && ev in Stream(b'.subs[i]))
  {
    RunKeepsInv(queueSize, historyMax, before);
    var b := Run(NewBus(queueSize, historyMax), before);
    var b1 := Step(b, Begin(ev));
    var p := |b.log|;
    BeginReachesAll(b, ev);
    StepKeepsInv(b, Begin(ev));
    assert b1.pending.value.waitlist[i] == i;
    RunDropsNothing(b1, after, p, i);
    RunEvolves(b1, after, i);
    var b' := Run(b1, after);
    assert b'.log[p] == b1.log[p] == ev;
    if !OnItsWay(b', p, i) { InStream(b', p, i); }
  }

  /** The subscriber the publisher has reached gets the event once its reader makes room. */
  lemma SettleReached(b: Bus) returns (ops: seq<Op>)
    requires Inv(b) && !b.closed && b.pending.Some?
    ensures |ops| <= 3 && Timeout !in ops && Close !in ops
    ensures Inv(Run(b, ops)) && !Run(b, ops).closed && MovedOn(b, Run(b, ops))
  {
    var p := b.pending.value;
    var h := Reached(b);
    assert SubOk(b, h);
    if !p.waiting {
      OfferDecides(b);
      ops := [Offer];
      RunOne(b, Offer);
      StepKeepsInv(b, Offer);
      if !HasRoom(b, h) && WaitedFor(p.ev.kind) {
        var rest := SettleWaiting(Step(b, Offer));
        RunFront(b, Offer, rest);
        ops := [Offer] + rest;
      }
    } else {
      ops := SettleWaiting(b);
    }
  }

  /** With the queue full, one reading makes the room that the waiting put needs. */
  lemma ReadingMakesRoom(b: Bus)
    requires Inv(b) && !b.closed && b.pending.Some? && b.pending.value.waiting
    requires HeadKnown(b) && !HasRoom(b, Reached(b))
    ensures var b1 := Step(b, Consume(Reached(b)));
            Inv(b1) && !b1.closed && b1.pending == b.pending && |b1.subs| == |b.subs| && HasRoom(b1, Reached(b))
  {
    assert SubOk(b, Reached(b));
    DoneMeansTold(b.subs[Reached(b)]);
    ConsumeYields(b, Reached(b));
    StepKeepsInv(b, Consume(Reached(b)));
  }

  lemma RunOne(b: Bus, op: Op)
    ensures Run(b, [op]) == Step(b, op)
  {
    RunLast(b, [], op);
    assert [] + [op] == [op];
  }

  lemma WakeSettles(b: Bus)
    requires Inv(b) && !b.closed && b.pending.Some? && b.pending.value.waiting
    requires HeadKnown(b) && HasRoom(b, Reached(b))
    ensures Inv(Run(b, [Wake])) && !Run(b, [Wake]).closed && MovedOn(b, Run(b, [Wake]))
  {
    RunOne(b, Wake);
    WakeDelivers(b);
    StepKeepsInv(b, Wake);
  }

  lemma SettleWaiting(b: Bus) returns (ops: seq<Op>)
    requires Inv(b) && !b.closed && b.pending.Some? && b.pending.value.waiting
    ensures |ops| <= 2 && Timeout !in ops && Close !in ops
    ensures Inv(Run(b, ops)) && !Run(b, ops).closed && MovedOn(b, Run(b, ops))
  {
    if HasRoom(b, Reached(b)) {
      WakeSettles(b);
      ops := [Wake];
    } else {
      var read := Consume(Reached(b));
      ReadingMakesRoom(b);
      RunFront(b, read, [Wake]);
      WakeSettles(Step(b, read));
      ops := [read] + [Wake];
    }
  }

  /** A publish on an open bus is never stuck: if the readers read, it ends without a timeout, at most three steps per subscriber. */
  lemma {:induction false} PublishCompletes(b: Bus) returns (ops: seq<Op>)
    requires Inv(b) && !b.closed && b.pending.Some?
    ensures |ops| <= 3 * |b.pending.value.waitlist| && Timeout !in ops && Close !in ops
    ensures Run(b, ops).pending.None?
    decreases |b.pending.value.waitlist|
  {
    var first := SettleReached(b);
    var b1 := Run(b, first);
    ops := first;
    if b1.pending.Some? {
      var rest := PublishCompletes(b1);
      RunJoin(b, first, rest);
      ops := first + rest;
    }
  }

  lemma {:induction false} RunJoin(b: Bus, first: seq<Op>, rest: seq<Op>)
    ensures Run(b, first + rest) == Run(Run(b, first), rest)
  {
    if rest == [] {
      assert first + rest == first;
    } else {
      var n := |rest| - 1;
      RunJoin(b, first, rest[..n]);
      RunLast(b, first + rest[..n], rest[n]);
      RunLast(Run(b, first), rest[..n], rest[n]);
      assert first + rest == (first + rest[..n]) + [rest[n]] && rest == rest[..n] + [rest[n]];
    }
  }
}
