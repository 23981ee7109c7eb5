/** The event bus over mutable queues (app/workflow/events.py), each method proved to take its atomic step. */
module EventBuses {
  import opened Wrappers
  import opened EventBusSpec

  /** A bounded queue together with the reader that stream() runs over it. */
  class Subscription {
    const maxsize: int
    var queue: seq<Item>
    var received: seq<Event>
    var done: bool
    ghost var trace: Trace

    ghost function Value(): Sub
      reads this
    {
      Sub(queue, received, done, trace)
    }

    constructor (maxsize: int, ghost start: nat)
      ensures this.maxsize == maxsize
      ensures Value() == Sub([], [], false, Trace([], [], start, start, 0, false, false))
    {
      this.maxsize := maxsize;
      queue, received, done := [], [], false;
      trace := Trace([], [], start, start, 0, false, false);
    }

    /** put_nowait for an event: refused when the queue is full. */
    method PutEventNowait(ev: Event, ghost p: nat) returns (ok: bool)
      modifies this
      ensures ok == !old(Full(maxsize, queue))
      ensures Value() == if ok then PutEvent(maxsize, old(Value()), ev, p) else old(Value())
    {
      ok := !(maxsize > 0 && |queue| >= maxsize);
      if ok {
        trace := PutEvent(maxsize, Value(), ev, p).trace;
        queue := queue + [Some(ev)];
      }
    }

    /** put_nowait for the sentinel. */
    method PutEndNowait() returns (ok: bool)
      modifies this
      ensures ok == !old(Full(maxsize, queue))
      ensures Value() == OfferEnd(maxsize, old(Value()))
    {
      ok := !(maxsize > 0 && |queue| >= maxsize);
      trace := OfferEnd(maxsize, Value()).trace;
      if ok {
        queue := queue + [None];
      }
    }

    /** One turn of stream(): take the next item, stop at the sentinel. */
    method Get()
      requires !done && queue != []
      modifies this
      ensures Value() == ConsumeOne(old(Value()))
    {
      var item := queue[0];
      queue := queue[1..];
      match item {
        case None => done := true;
        case Some(ev) => received := received + [ev];
      }
    }
  }

  class EventBus {
    const queueSize: int
    const historyMax: int
    var subs: seq<Subscription>
    var closed: bool
    var history: seq<Event>
    var pending: Option<Pending>   // the frame of a publish in progress
    ghost var log: seq<Event>

    ghost predicate Valid()
      reads this, subs
    {
      && (forall i, j :: 0 <= i < j < |subs| ==> subs[i] != subs[j])
      && (forall i :: 0 <= i < |subs| ==> subs[i].maxsize == queueSize)
    }

    ghost function State(): Bus
      reads this, subs
    {
      Bus(queueSize, historyMax, seq(|subs|, i requires 0 <= i < |subs| reads this, subs => subs[i].Value()),
          closed, history, log, pending)
    }

    constructor (queueSize: int, historyMax: int)
      ensures Valid() && State() == NewBus(queueSize, historyMax)
    {
      this.queueSize, this.historyMax := queueSize, historyMax;
      subs, closed, history, pending := [], false, [], None;
      log := [];
    }

    /** Fill an empty queue from the history until it is full. */
    method Replay(q: Subscription)
      requires q.maxsize == queueSize && |history| <= |log|
      requires q.Value() == Sub([], [], false, Trace([], [], |log| - |history|, |log| - |history|, 0, false, false))
      modifies q
      ensures q.Value() == Replayed(queueSize, history, |log|,
                                    if queueSize > 0 && |history| > queueSize then queueSize else |history|)
    {
      ghost var start := |log| - |history|;
      var i := 0;
      while i < |history|
        invariant 0 <= i <= |history| && (queueSize > 0 ==> i <= queueSize)
        invariant q.queue == Items(history[..i]) && q.received == [] && !q.done
        invariant q.trace == Trace(Items(history[..i]), Numbers(start, i), start, start + i, 0, false, queueSize > 0 && i >= queueSize)
      {
        assert history[..i + 1] == history[..i] + [history[i]];
        assert Items(history[..i + 1]) == Items(history[..i]) + [Some(history[i])];
        assert Numbers(start, i + 1) == Numbers(start, i) + [start + i];
        var ok := q.PutEventNowait(history[i], start + i);
        if !ok {
          break;
        }
        i := i + 1;
      }
      q.trace := q.trace.(lost := |history| - i, upto := |log|);
    }

    method Subscribe() returns (q: Subscription)
      requires Valid() && Enabled(State(), Op.Subscribe)
      modifies this`subs
      ensures Valid() && fresh(q) && subs == old(subs) + [q]
      ensures State() == Step(old(State()), Op.Subscribe)
    {
      q := new Subscription(queueSize, |log| - |history|);
      Replay(q);
      if closed {
        var _ := q.PutEndNowait();
      }
      assert q.Value() == NewSub(old(State()));
      subs := subs + [q];
      assert State().subs == old(State()).subs + [q.Value()];
    }

    /** The part of publish before the first delivery: record the event and take the list of subscribers. */
    method BeginPublish(ev: Event)
      requires Valid() && Enabled(State(), Op.Begin(ev))
      modifies this`history, this`log, this`pending
      ensures Valid() && State() == Step(old(State()), Op.Begin(ev))
    {
      history := history + [ev];
      log := log + [ev];
      if |history| > historyMax {
        history := if historyMax <= 0 then [] else history[|history| - historyMax..];
      }
      if closed || subs == [] {
        return;
      }
      pending := Some(Pending(ev, Numbers(0, |subs|), false));
    }

    /** One turn of the delivery loop; a critical event that finds the queue full starts to wait. */
    method OfferNext()
      requires Valid() && Enabled(State(), Op.Offer)
      modifies this`pending, subs
      ensures Valid() && State() == Step(old(State()), Op.Offer)
    {
      var p := pending.value;
      var h := p.waitlist[0];
      ghost var was := State().subs;
      var ok := subs[h].PutEventNowait(p.ev, |log| - 1);
      if ok {
        pending := Rest(p);
        assert State().subs == was[h := subs[h].Value()];
      } else if Critical(p.ev) {
        pending := Some(p.(waiting := true));
        assert State().subs == was;
      } else {
        subs[h].trace := MissEvent(subs[h].Value(), |log| - 1).trace;
        pending := Rest(p);
        assert State().subs == was[h := subs[h].Value()];
      }
    }

    function Rest(p: Pending): Option<Pending>
      requires p.waitlist != []
    {
      if p.waitlist[1..] == [] then None else Some(Pending(p.ev, p.waitlist[1..], false))
    }

    /** The waiting put goes through because the reader has made room. */
    method Resume()
      requires Valid() && Enabled(State(), Op.Wake)
      modifies this`pending, subs
      ensures Valid() && State() == Step(old(State()), Op.Wake)
    {
      var p := pending.value;
      var h := p.waitlist[0];
      ghost var was := State().subs;
      var _ := subs[h].PutEventNowait(p.ev, |log| - 1);
      pending := Rest(p);
      assert State().subs == was[h := subs[h].Value()];
    }

    /** The bounded wait runs out: this subscriber misses the critical event. */
    method GiveUp()
      requires Valid() && Enabled(State(), Op.Timeout)
      modifies this`pending, subs
      ensures Valid() && State() == Step(old(State()), Op.Timeout)
    {
      var p := pending.value;
      var h := p.waitlist[0];
      ghost var was := State().subs;
      subs[h].trace := MissEvent(subs[h].Value(), |log| - 1).trace;
      pending := Rest(p);
      assert State().subs == was[h := subs[h].Value()];
    }

    method Close()
      requires Valid() && Enabled(State(), Op.Close)
      modifies this`closed, subs
      ensures Valid() && State() == Step(old(State()), Op.Close)
    {
      closed := true;
      ghost var was := State().subs;
      for i := 0 to |subs|
        invariant closed && Valid() && subs == old(subs)
        invariant forall j :: 0 <= j < |subs| ==> subs[j].Value() == if j < i then OfferEnd(queueSize, was[j]) else was[j]
      {
        var _ := subs[i].PutEndNowait();
      }
      assert State().subs == Step(old(State()), Op.Close).subs;
    }

    method Consume(i: nat)
      requires Valid() && Enabled(State(), Op.Consume(i))
      modifies subs
      ensures Valid() && State() == Step(old(State()), Op.Consume(i))
    {
      ghost var was := State().subs;
      subs[i].Get();
      assert State().subs == was[i := subs[i].Value()];
    }

    /** One turn of the delivery loop for an event that never waits. */
    method OfferNonCritical()
      requires Valid() && Inv(State()) && pending.Some? && !pending.value.waiting && !Critical(pending.value.ev)
      modifies this`pending, subs
      ensures Valid() && State() == Step(old(State()), Op.Offer) && Inv(State())
      ensures pending == if |old(pending).value.waitlist| == 1 then None
                         else Some(Pending(old(pending).value.ev, old(pending).value.waitlist[1..], false))
    {
      OfferSettles(State());
      OfferNext();
    }

    /** A non-critical publish runs to its end without suspending. */
    method PublishNonCritical(ev: Event)
      requires Valid() && Inv(State()) && Enabled(State(), Op.Begin(ev)) && !Critical(ev)
      modifies this`history, this`log, this`pending, subs
      ensures Valid() && Inv(State()) && pending.None?
      ensures State() == Run(Step(old(State()), Op.Begin(ev)), Repeat(Op.Offer, if closed then 0 else |subs|))
    {
      StepKeepsInv(State(), Op.Begin(ev));
      BeginPublish(ev);
      if pending.Some? {
        DeliverNonCritical();
      } else {
        assert Repeat(Op.Offer, 0) == [];
      }
    }

    method DeliverNonCritical()
      requires Valid() && Inv(State()) && pending.Some? && !pending.value.waiting && !Critical(pending.value.ev)
      requires |pending.value.waitlist| == |subs|
      modifies this`pending, subs
      ensures Valid() && Inv(State()) && pending.None?
      ensures State() == Run(old(State()), Repeat(Op.Offer, |subs|))
    {
      ghost var b := State();
      var n := 0;
      assert Repeat(Op.Offer, 0) == [];
      while pending.Some?
        invariant Valid() && Inv(State()) && State() == Run(b, Repeat(Op.Offer, n))
        invariant pending.Some? ==>
          !pending.value.waiting && !Critical(pending.value.ev) && |pending.value.waitlist| == |subs| - n > 0
        invariant pending.None? ==> n == |subs|
        decreases |subs| - n
      {
        OfferNonCritical();
        RunRepeat(b, Op.Offer, n);
        n := n + 1;
      }
    }
  }
}
