/**
 The execution event bus as a machine of small atomic steps (app/workflow/events.py). One publisher at a time;
 a critical publish may be suspended before each subscriber, and subscribing, consuming and closing may then
 happen in between. A non-critical publish never suspends.
 */
module EventBusSpec {
  import opened Wrappers

  datatype EventType =
    | WorkflowStart | WorkflowEnd | NodeStart | NodeOutput | NodeError | NodeEnd
    | StreamChunk | Heartbeat | WaitingInput

  datatype Event = Event(kind: EventType, executionId: string, nodeId: Option<string>, data: string)

  // A queue entry; None is the end-of-stream sentinel.
  type Item = Option<Event>

  // What happened to a queue so far. None of it influences a step.
  datatype Trace = Trace(
    put: seq<Item>,      // everything ever put in the queue
    at: seq<nat>,        // publication numbers of the events put before the first sentinel
    start: nat,          // publication number of the oldest event retained when it subscribed
    upto: nat,           // how many publications it has been offered before its first sentinel
    lost: nat,           // how many events offered before the first sentinel were dropped
    lostEnd: bool,       // the sentinel itself was dropped
    filled: bool)        // the queue has been at capacity

  datatype Sub = Sub(queue: seq<Item>, received: seq<Event>, done: bool, trace: Trace)

  datatype Pending = Pending(ev: Event, waitlist: seq<nat>, waiting: bool)

  datatype Bus = Bus(
    queueSize: int,
    historyMax: int,
    subs: seq<Sub>,
    closed: bool,
    history: seq<Event>,
    log: seq<Event>,     // everything ever published, in order
    pending: Option<Pending>)

  datatype Op = Subscribe | Begin(ev: Event) | Offer | Wake | Timeout | Close | Consume(i: nat)

  predicate Critical(ev: Event) {
    ev.kind in {WorkflowStart, WorkflowEnd, NodeError}
  }

  /** asyncio.Queue treats a capacity of zero or less as unbounded. */
  predicate Full(size: int, queue: seq<Item>) {
    size > 0 && |queue| >= size
  }

  /** The most recent entries, at most max of them. */
  function Tail(s: seq<Event>, max: int): seq<Event> {
    if max <= 0 then [] else if |s| > max then s[|s| - max..] else s
  }

  // --- Effects on one queue ---

  function PutEvent(size: int, s: Sub, ev: Event, p: nat): Sub {
    var t := s.trace;
    var queue := s.queue + [Some(ev)];
    var t' := if None in t.put then t.(put := t.put + [Some(ev)])
              else t.(put := t.put + [Some(ev)], at := t.at + [p], upto := p + 1);
    s.(queue := queue, trace := t'.(filled := t.filled || Full(size, queue)))
  }

  function MissEvent(s: Sub, p: nat): Sub {
    if None in s.trace.put then s else s.(trace := s.trace.(lost := s.trace.lost + 1, upto := p + 1))
  }

  function OfferEnd(size: int, s: Sub): Sub {
    if Full(size, s.queue) then s.(trace := s.trace.(lostEnd := true))
    else
      var queue := s.queue + [None];
      s.(queue := queue, trace := s.trace.(put := s.trace.put + [None], filled := s.trace.filled || Full(size, queue)))
  }

  function Items(events: seq<Event>): (items: seq<Item>)
    ensures |items| == |events| && forall i :: 0 <= i < |events| ==> items[i] == Some(events[i])
    ensures None !in items
  {
    seq(|events|, i requires 0 <= i < |events| => Some(events[i]))
  }

  function Numbers(start: nat, n: nat): (r: seq<nat>)
    ensures |r| == n && forall i :: 0 <= i < n ==> r[i] == start + i
  {
    seq(n, i => start + i)
  }

  /** A fresh queue holding the first n events of the history. */
  function Replayed(size: int, history: seq<Event>, published: nat, n: nat): Sub
    requires n <= |history| <= published
  {
    var start := published - |history|;
    Sub(Items(history[..n]), [], false,
        Trace(Items(history[..n]), Numbers(start, n), start, published, |history| - n, false, size > 0 && n >= size))
  }

  function NewSub(b: Bus): Sub
    requires |b.history| <= |b.log|
  {
    var n := if b.queueSize > 0 && |b.history| > b.queueSize then b.queueSize else |b.history|;
    var s := Replayed(b.queueSize, b.history, |b.log|, n);
    if b.closed then OfferEnd(b.queueSize, s) else s
  }

  // --- Steps ---

  predicate MayInterleave(b: Bus) {
    b.pending.None? || Critical(b.pending.value.ev)
  }

  predicate Enabled(b: Bus, op: Op) {
    match op
    case Subscribe => MayInterleave(b) && |b.history| <= |b.log|
    case Begin(_) => b.pending.None?
    case Offer => b.pending.Some? && !b.pending.value.waiting && HeadKnown(b)
    case Wake => b.pending.Some? && b.pending.value.waiting && HeadKnown(b) && !Full(b.queueSize, Head(b).queue)
    case Timeout => b.pending.Some? && b.pending.value.waiting && HeadKnown(b)
    case Close => MayInterleave(b)
    case Consume(i) => MayInterleave(b) && i < |b.subs| && !b.subs[i].done && b.subs[i].queue != []
  }

  predicate HeadKnown(b: Bus)
    requires b.pending.Some?
  {
    b.pending.value.waitlist != [] && b.pending.value.waitlist[0] < |b.subs| && b.log != []
  }

  function Head(b: Bus): Sub
    requires b.pending.Some? && HeadKnown(b)
  {
    b.subs[b.pending.value.waitlist[0]]
  }

  /** Settle the subscriber the publisher has reached and move on to the next one. */
  function Advance(b: Bus, s: Sub): Bus
    requires b.pending.Some? && HeadKnown(b)
  {
    var p := b.pending.value;
    var rest := p.waitlist[1..];
    b.(subs := b.subs[p.waitlist[0] := s],
       pending := if rest == [] then None else Some(Pending(p.ev, rest, false)))
  }

  function ConsumeOne(s: Sub): Sub
    requires s.queue != []
  {
    match s.queue[0]
    case None => s.(queue := s.queue[1..], done := true)
    case Some(ev) => s.(queue := s.queue[1..], received := s.received + [ev])
  }

  function Step(b: Bus, op: Op): Bus {
    if !Enabled(b, op) then b
    else match op
      case Subscribe => b.(subs := b.subs + [NewSub(b)])
      case Begin(ev) =>
        var b' := b.(history := Tail(b.history + [ev], b.historyMax), log := b.log + [ev]);
        if b.closed || b.subs == [] then b'
        else b'.(pending := Some(Pending(ev, Numbers(0, |b.subs|), false)))
      case Offer =>
        var p := b.pending.value;
        if !Full(b.queueSize, Head(b).queue) then Advance(b, PutEvent(b.queueSize, Head(b), p.ev, |b.log| - 1))
        else if Critical(p.ev) then b.(pending := Some(p.(waiting := true)))
        else Advance(b, MissEvent(Head(b), |b.log| - 1))
      case Wake => Advance(b, PutEvent(b.queueSize, Head(b), b.pending.value.ev, |b.log| - 1))
      case Timeout => Advance(b, MissEvent(Head(b), |b.log| - 1))
      case Close => b.(closed := true, subs := seq(|b.subs|, i requires 0 <= i < |b.subs| => OfferEnd(b.queueSize, b.subs[i])))
      case Consume(i) => b.(subs := b.subs[i := ConsumeOne(b.subs[i])])
  }

  function Run(b: Bus, ops: seq<Op>): Bus {
    if ops == [] then b else Step(Run(b, ops[..|ops| - 1]), ops[|ops| - 1])
  }

  function Repeat(op: Op, n: nat): (ops: seq<Op>)
    ensures |ops| == n && forall i :: 0 <= i < n ==> ops[i] == op
  {
    seq(n, _ => op)
  }

  lemma RunRepeat(b: Bus, op: Op, n: nat)
    ensures Run(b, Repeat(op, n + 1)) == Step(Run(b, Repeat(op, n)), op)
  {
    assert Repeat(op, n + 1)[..n] == Repeat(op, n);
  }

  function NewBus(queueSize: int, historyMax: int): Bus {
    Bus(queueSize, historyMax, [], false, [], [], None)
  }

  // --- Streams ---

  /** The events ahead of the first sentinel: what stream() yields. */
  function Before(items: seq<Item>): seq<Event> {
    if items == [] || items[0].None? then [] else [items[0].value] + Before(items[1..])
  }

  function Stream(s: Sub): seq<Event> {
    Before(s.trace.put)
  }

  lemma {:induction false} BeforeAppend(items: seq<Item>, x: Item)
    ensures Before(items + [x]) == Before(items) + (if None in items || x.None? then [] else [x.value])
  {
    if items == [] {
      assert [x][1..] == [];
    } else if items[0].Some? {
      assert (items + [x])[1..] == items[1..] + [x];
      BeforeAppend(items[1..], x);
      assert None in items <==> None in items[1..];
    }
  }

  lemma {:induction false} BeforeItems(events: seq<Event>, rest: seq<Item>)
    ensures Before(Items(events) + rest) == events + Before(rest)
  {
    var all := Items(events) + rest;
    if events == [] {
      assert all == rest;
    } else {
      assert all[1..] == Items(events[1..]) + rest;
      BeforeItems(events[1..], rest);
    }
  }

  function Delivered(s: Sub): seq<Item> {
    Items(s.received) + (if s.done then [None] else [])
  }

  // --- The invariant of every interleaving ---

  predicate Awaits(b: Bus, i: nat) {
    b.pending.Some? && i in b.pending.value.waitlist
  }

  ghost predicate Increasing(at: seq<nat>) {
    forall j, k :: 0 <= j < k < |at| ==> at[j] < at[k]
  }

  /** The stream picks publications in increasing order, all from the offered range. */
  ghost predicate TraceOk(log: seq<Event>, t: Trace) {
    && |t.at| == |Before(t.put)|
    && Increasing(t.at)
    && t.start <= t.upto <= |log|
    && (forall j :: 0 <= j < |t.at| ==> t.start <= t.at[j] < t.upto && Before(t.put)[j] == log[t.at[j]])
    && |t.at| + t.lost == t.upto - t.start
    && (t.lost > 0 || t.lostEnd ==> t.filled)
  }

  ghost predicate QueueOk(log: seq<Event>, size: int, closed: bool, s: Sub, awaits: bool) {
    && TraceOk(log, s.trace)
    && s.trace.put == Delivered(s) + s.queue
    && (size > 0 ==> |s.queue| <= size)
    && (Full(size, s.queue) ==> s.trace.filled)
    && (awaits ==> s.trace.upto == |log| - 1 || None in s.trace.put)
    && (!closed ==> None !in s.trace.put && s.trace.upto == |log| - (if awaits then 1 else 0))
    && (closed && !s.trace.lostEnd ==> None in s.trace.put)
  }

  ghost predicate SubOk(b: Bus, i: nat)
    requires i < |b.subs|
  {
    QueueOk(b.log, b.queueSize, b.closed, b.subs[i], Awaits(b, i))
  }

  ghost predicate PendingOk(b: Bus) {
    b.pending.Some? ==>
      var p := b.pending.value;
      && p.waitlist != [] && Increasing(p.waitlist)
      && (forall j :: 0 <= j < |p.waitlist| ==> p.waitlist[j] < |b.subs|)
      && b.log != [] && b.log[|b.log| - 1] == p.ev
      && (p.waiting ==> Critical(p.ev) && b.subs[p.waitlist[0]].trace.filled)
  }

  ghost predicate Inv(b: Bus) {
    && b.history == Tail(b.log, b.historyMax)
    && PendingOk(b)
    && forall i :: 0 <= i < |b.subs| ==> SubOk(b, i)
  }

  lemma PutEventOk(log: seq<Event>, size: int, s: Sub, ev: Event, p: nat)
    requires TraceOk(log, s.trace) && p < |log| && log[p] == ev
    requires None in s.trace.put || s.trace.upto == p
    ensures TraceOk(log, PutEvent(size, s, ev, p).trace)
  {
    BeforeAppend(s.trace.put, Some(ev));
  }

  lemma OfferEndOk(log: seq<Event>, size: int, s: Sub)
    requires TraceOk(log, s.trace) && (Full(size, s.queue) ==> s.trace.filled)
    ensures TraceOk(log, OfferEnd(size, s).trace)
  {
    BeforeAppend(s.trace.put, None);
  }

  /** A longer log keeps every trace valid. */
  lemma LogGrows(log: seq<Event>, ev: Event, t: Trace)
    requires TraceOk(log, t)
    ensures TraceOk(log + [ev], t)
  {
  }

  lemma TailAppend(log: seq<Event>, ev: Event, max: int)
    ensures Tail(Tail(log, max) + [ev], max) == Tail(log + [ev], max)
  {
  }

  lemma ReplayedOk(log: seq<Event>, size: int, max: int, n: nat)
    requires n <= |Tail(log, max)|
    requires size > 0 ==> n <= size
    requires n < |Tail(log, max)| ==> size > 0 && n >= size
    ensures var s := Replayed(size, Tail(log, max), |log|, n);
            && TraceOk(log, s.trace) && s.trace.upto == |log|
            && Before(s.trace.put) == Tail(log, max)[..n]
            && (Full(size, s.queue) ==> s.trace.filled)
  {
    var history := Tail(log, max);
    var s := Replayed(size, history, |log|, n);
    assert Items(history[..n]) + [] == s.trace.put;
    BeforeItems(history[..n], []);
    assert Before([]) == [];
  }

  lemma NewSubOk(b: Bus)
    requires Inv(b)
    ensures |b.history| <= |b.log|
    ensures QueueOk(b.log, b.queueSize, b.closed, NewSub(b), false)
  {
    var n := if b.queueSize > 0 && |b.history| > b.queueSize then b.queueSize else |b.history|;
    var s := Replayed(b.queueSize, b.history, |b.log|, n);
    ReplayedOk(b.log, b.queueSize, b.historyMax, n);
    OfferEndOk(b.log, b.queueSize, s);
    assert Delivered(s) + s.queue == s.queue;
    var s' := NewSub(b);
    assert Delivered(s') + s'.queue == s'.queue;
  }

  lemma AppendKeepsInv(b: Bus, s: Sub)
    requires Inv(b) && QueueOk(b.log, b.queueSize, b.closed, s, false)
    ensures Inv(b.(subs := b.subs + [s]))
  {
    var b' := b.(subs := b.subs + [s]);
    assert !Awaits(b', |b.subs|);
    forall i | 0 <= i < |b'.subs| ensures SubOk(b', i) {
      if i < |b.subs| { assert SubOk(b, i); }
    }
  }

  lemma BeginKeepsInv(b: Bus, ev: Event)
    requires Inv(b) && Enabled(b, Begin(ev))
    ensures Inv(Step(b, Begin(ev)))
  {
    var b' := Step(b, Begin(ev));
    TailAppend(b.log, ev, b.historyMax);
    forall i | 0 <= i < |b'.subs| ensures SubOk(b', i) {
      assert SubOk(b, i);
      LogGrows(b.log, ev, b.subs[i].trace);
      if !b.closed { assert Numbers(0, |b.subs|)[i] == i; }
    }
  }

  /** Settling the head of the waitlist keeps the invariant if the settled queue is in order. */
  lemma AdvanceKeepsInv(b: Bus, s: Sub)
    requires Inv(b) && b.pending.Some? && HeadKnown(b)
    requires QueueOk(b.log, b.queueSize, b.closed, s, false)
    ensures Inv(Advance(b, s))
  {
    var p := b.pending.value;
    var h := p.waitlist[0];
    var b' := Advance(b, s);
    forall i | 0 <= i < |b'.subs| ensures SubOk(b', i) {
      if i == h {
        assert !Awaits(b', h);
      } else {
        assert SubOk(b, i);
        assert Awaits(b', i) <==> Awaits(b, i);
      }
    }
  }

  lemma PutHeadOk(b: Bus)
    requires Inv(b) && b.pending.Some? && HeadKnown(b) && !Full(b.queueSize, Head(b).queue)
    ensures Inv(Advance(b, PutEvent(b.queueSize, Head(b), b.pending.value.ev, |b.log| - 1)))
  {
    var h := b.pending.value.waitlist[0];
    var s := Head(b);
    var s' := PutEvent(b.queueSize, s, b.pending.value.ev, |b.log| - 1);
    assert SubOk(b, h) && Awaits(b, h);
    PutEventOk(b.log, b.queueSize, s, b.pending.value.ev, |b.log| - 1);
    assert Delivered(s') + s'.queue == Delivered(s) + s.queue + [Some(b.pending.value.ev)];
    AdvanceKeepsInv(b, s');
  }

  lemma MissHeadOk(b: Bus)
    requires Inv(b) && b.pending.Some? && HeadKnown(b) && Head(b).trace.filled
    ensures Inv(Advance(b, MissEvent(Head(b), |b.log| - 1)))
  {
    var h := b.pending.value.waitlist[0];
    assert SubOk(b, h) && Awaits(b, h);
    AdvanceKeepsInv(b, MissEvent(Head(b), |b.log| - 1));
  }

  lemma CloseKeepsInv(b: Bus)
    requires Inv(b) && Enabled(b, Close)
    ensures Inv(Step(b, Close))
  {
    var b' := Step(b, Close);
    forall i | 0 <= i < |b'.subs| ensures SubOk(b', i) {
      assert SubOk(b, i);
      var s, s' := b.subs[i], b'.subs[i];
      OfferEndOk(b.log, b.queueSize, s);
      assert s' == OfferEnd(b.queueSize, s);
      assert !Full(b.queueSize, s.queue) ==> Delivered(s') + s'.queue == Delivered(s) + s.queue + [None];
    }
  }

  lemma ConsumeOk(log: seq<Event>, size: int, closed: bool, s: Sub, awaits: bool)
    requires QueueOk(log, size, closed, s, awaits) && s.queue != [] && !s.done
    ensures QueueOk(log, size, closed, ConsumeOne(s), awaits)
  {
    assert Delivered(ConsumeOne(s)) + ConsumeOne(s).queue == Delivered(s) + s.queue;
  }

  lemma ConsumeKeepsInv(b: Bus, i: nat)
    requires Inv(b) && Enabled(b, Consume(i))
    ensures Inv(Step(b, Consume(i)))
  {
    var b' := Step(b, Consume(i));
    assert SubOk(b, i);
    ConsumeOk(b.log, b.queueSize, b.closed, b.subs[i], Awaits(b, i));
    forall j | 0 <= j < |b'.subs| ensures SubOk(b', j) {
      assert SubOk(b, j);
    }
  }

  lemma {:induction false} StepKeepsInv(b: Bus, op: Op)
    requires Inv(b)
    ensures Inv(Step(b, op))
  {
    if Enabled(b, op) {
      match op
      case Subscribe =>
        NewSubOk(b);
        AppendKeepsInv(b, NewSub(b));
      case Begin(ev) => BeginKeepsInv(b, ev);
      case Offer =>
        assert SubOk(b, b.pending.value.waitlist[0]);
        if !Full(b.queueSize, Head(b).queue) {
          PutHeadOk(b);
        } else if Critical(b.pending.value.ev) {
          var b' := Step(b, op);
          forall i | 0 <= i < |b'.subs| ensures SubOk(b', i) { assert SubOk(b, i); }
        } else {
          MissHeadOk(b);
        }
      case Wake => PutHeadOk(b);
      case Timeout => MissHeadOk(b);
      case Close => CloseKeepsInv(b);
      case Consume(i) => ConsumeKeepsInv(b, i);
    }
  }

  /** A non-critical event never waits: each offer settles one subscriber. */
  lemma OfferSettles(b: Bus)
    requires Inv(b) && b.pending.Some? && !b.pending.value.waiting && !Critical(b.pending.value.ev)
    ensures Enabled(b, Offer) && Inv(Step(b, Offer))
    ensures var (p, b') := (b.pending.value, Step(b, Offer));
            && |b'.subs| == |b.subs| && b'.closed == b.closed
            && b'.pending == if |p.waitlist| == 1 then None else Some(Pending(p.ev, p.waitlist[1..], false))
  {
    StepKeepsInv(b, Offer);
  }

  lemma {:induction false} RunKeepsInv(queueSize: int, historyMax: int, ops: seq<Op>)
    ensures Inv(Run(NewBus(queueSize, historyMax), ops))
  {
    if ops != [] {
      RunKeepsInv(queueSize, historyMax, ops[..|ops| - 1]);
      StepKeepsInv(Run(NewBus(queueSize, historyMax), ops[..|ops| - 1]), ops[|ops| - 1]);
    }
  }
}
