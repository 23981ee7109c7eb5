/** Message feedback, the governance events it writes, and what a rebuild reads out of them (app/chat/service.py). */
module FeedbackSpec {
  import opened Wrappers

  /** A retrieved chunk as the message metadata mentions it; missing keys are None. */
  datatype Ref = Ref(id: Option<string>, chunkId: Option<string>, kbId: Option<string>)

  datatype Message = Message(refs: seq<Ref>, feedback: Option<int>)

  datatype Kind = Positive | Negative | Reverse

  datatype Event = Event(chunk: nat, kb: nat, kind: Kind, message: nat, user: Option<nat>)

  datatype Db = Db(messages: seq<Message>, events: seq<Event>)

  const EMPTY_DB := Db([], [])

  datatype FeedbackError = MessageNotFound

  datatype Op =
    | AddMessage(refs: seq<Ref>)
    | SetFeedback(id: nat, feedback: Option<int>, user: Option<nat>)

  predicate Truthy(s: Option<string>) {
    s.Some? && s.value != ""
  }

  function ChunkRef(ref: Ref): Option<string> {
    if Truthy(ref.id) then ref.id else ref.chunkId
  }

  /** The chunk and knowledge base of a reference, if both are there and read as UUIDs. */
  function PairOf(uuid: string -> Option<nat>, ref: Ref): Option<(nat, nat)> {
    var cid := ChunkRef(ref);
    if !Truthy(cid) || !Truthy(ref.kbId) then None
    else if uuid(cid.value).None? || uuid(ref.kbId.value).None? then None
    else Some((uuid(cid.value).value, uuid(ref.kbId.value).value))
  }

  function Pairs(uuid: string -> Option<nat>, refs: seq<Ref>): seq<(nat, nat)> {
    if refs == [] then []
    else
      var last := PairOf(uuid, refs[|refs| - 1]);
      Pairs(uuid, refs[..|refs| - 1]) + (if last.Some? then [last.value] else [])
  }

  function KindOf(sentiment: int): Kind {
    if sentiment > 0 then Positive else if sentiment < 0 then Negative else Reverse
  }

  function Recorded(pairs: seq<(nat, nat)>, sentiment: int, message: nat, user: Option<nat>): (r: seq<Event>)
    ensures |r| == |pairs|
    ensures forall i :: 0 <= i < |pairs| ==> r[i] == Event(pairs[i].0, pairs[i].1, KindOf(sentiment), message, user)
  {
    seq(|pairs|, i requires 0 <= i < |pairs| => Event(pairs[i].0, pairs[i].1, KindOf(sentiment), message, user))
  }

  function OrZero(feedback: Option<int>): int {
    if feedback.Some? then feedback.value else 0
  }

  predicate Reverses(previous: Option<int>, feedback: Option<int>) {
    previous.Some? && previous.value != OrZero(feedback)
  }

  predicate Votes(previous: Option<int>, feedback: Option<int>) {
    feedback.Some? && feedback.value != 0 && feedback != previous
  }

  /** The events one call appends. */
  function Appended(pairs: seq<(nat, nat)>, previous: Option<int>, id: nat, feedback: Option<int>, user: Option<nat>): seq<Event> {
    (if Reverses(previous, feedback) then Recorded(pairs, 0, id, user) else [])
    + (if Votes(previous, feedback) then Recorded(pairs, feedback.value, id, user) else [])
  }

  function SetStep(uuid: string -> Option<nat>, db: Db, id: nat, feedback: Option<int>, user: Option<nat>)
    : (Db, Result<Message, FeedbackError>)
  {
    if id >= |db.messages| then (db, Err(MessageNotFound))
    else
      var msg := db.messages[id];
      var msg' := msg.(feedback := feedback);
      (Db(db.messages[id := msg'], db.events + Appended(Pairs(uuid, msg.refs), msg.feedback, id, feedback, user)), Ok(msg'))
  }

  function Step(uuid: string -> Option<nat>, db: Db, op: Op): Db {
    match op
    case AddMessage(refs) => db.(messages := db.messages + [Message(refs, None)])
    case SetFeedback(id, feedback, user) => SetStep(uuid, db, id, feedback, user).0
  }

  function Run(uuid: string -> Option<nat>, ops: seq<Op>): Db {
    if ops == [] then EMPTY_DB else Step(uuid, Run(uuid, ops[..|ops| - 1]), ops[|ops| - 1])
  }

  // --- Replay ---

  function KindSign(kind: Kind): int {
    match kind
    case Positive => 1
    case Negative => -1
    case Reverse => 0
  }

  function Sign(n: int): int {
    if n > 0 then 1 else if n < 0 then -1 else 0
  }

  /** Where the events leave the opinion of one message on one chunk. */
  function Replay(events: seq<Event>, message: nat, chunk: nat): int {
    if events == [] then 0
    else
      var last := events[|events| - 1];
      if last.message == message && last.chunk == chunk then KindSign(last.kind)
      else Replay(events[..|events| - 1], message, chunk)
  }

  predicate Mentions(pairs: seq<(nat, nat)>, chunk: nat) {
    exists i :: 0 <= i < |pairs| && pairs[i].0 == chunk
  }

  lemma {:induction false} ReplayRecorded(events: seq<Event>, pairs: seq<(nat, nat)>, sentiment: int, id: nat, user: Option<nat>, message: nat, chunk: nat)
    ensures Replay(events + Recorded(pairs, sentiment, id, user), message, chunk)
            == if message == id && Mentions(pairs, chunk) then Sign(sentiment) else Replay(events, message, chunk)
  {
    if pairs == [] {
      assert events + Recorded(pairs, sentiment, id, user) == events;
    } else {
      var n := |pairs| - 1;
      var all := events + Recorded(pairs, sentiment, id, user);
      assert all[..|all| - 1] == events + Recorded(pairs[..n], sentiment, id, user);
      assert all[|all| - 1] == Recorded(pairs, sentiment, id, user)[n];
      ReplayRecorded(events, pairs[..n], sentiment, id, user, message, chunk);
      assert forall i :: 0 <= i < n ==> pairs[..n][i] == pairs[i];
    }
  }

  /** Replaying a message's events gives its feedback on every chunk it cites, and nothing on any other. */
  ghost predicate LogAgrees(uuid: string -> Option<nat>, db: Db) {
    && (forall e :: e in db.events ==> e.message < |db.messages|)
    && forall m, c :: 0 <= m < |db.messages| ==> AgreesOn(uuid, db, m, c)
  }

  ghost predicate AgreesOn(uuid: string -> Option<nat>, db: Db, m: nat, c: nat)
    requires m < |db.messages|
  {
    var msg := db.messages[m];
    Replay(db.events, m, c) == if Mentions(Pairs(uuid, msg.refs), c) then Sign(OrZero(msg.feedback)) else 0
  }

  lemma {:induction false} NoEventsNoOpinion(events: seq<Event>, message: nat, chunk: nat)
    requires forall e :: e in events ==> e.message != message
    ensures Replay(events, message, chunk) == 0
  {
    if events != [] {
      assert events[|events| - 1] in events;
      NoEventsNoOpinion(events[..|events| - 1], message, chunk);
    }
  }

  lemma ReplayAppended(events: seq<Event>, pairs: seq<(nat, nat)>, previous: Option<int>, id: nat, feedback: Option<int>, user: Option<nat>, message: nat, chunk: nat)
    ensures Replay(events + Appended(pairs, previous, id, feedback, user), message, chunk)
            == if message != id || !Mentions(pairs, chunk) then Replay(events, message, chunk)
               else if Votes(previous, feedback) then Sign(feedback.value)
               else if Reverses(previous, feedback) then 0
               else Replay(events, message, chunk)
  {
    var reversed := if Reverses(previous, feedback) then Recorded(pairs, 0, id, user) else [];
    var voted := if Votes(previous, feedback) then Recorded(pairs, feedback.value, id, user) else [];
    var mid := events + reversed;
    assert events + Appended(pairs, previous, id, feedback, user) == mid + voted;
    if Reverses(previous, feedback) {
      ReplayRecorded(events, pairs, 0, id, user, message, chunk);
    } else {
      assert mid == events;
    }
    if Votes(previous, feedback) {
      ReplayRecorded(mid, pairs, feedback.value, id, user, message, chunk);
    } else {
      assert mid + voted == mid;
    }
  }

  lemma SetAgrees(uuid: string -> Option<nat>, db: Db, id: nat, feedback: Option<int>, user: Option<nat>, m: nat, c: nat)
    requires id < |db.messages| && m < |db.messages| && AgreesOn(uuid, db, m, c)
    ensures AgreesOn(uuid, SetStep(uuid, db, id, feedback, user).0, m, c)
  {
    var msg := db.messages[id];
    ReplayAppended(db.events, Pairs(uuid, msg.refs), msg.feedback, id, feedback, user, m, c);
  }

  lemma StepAgrees(uuid: string -> Option<nat>, db: Db, op: Op)
    requires LogAgrees(uuid, db)
    ensures LogAgrees(uuid, Step(uuid, db, op))
  {
    var db' := Step(uuid, db, op);
    match op
    case AddMessage(refs) =>
      forall m, c | 0 <= m < |db'.messages| ensures AgreesOn(uuid, db', m, c) {
        if m == |db.messages| {
          NoEventsNoOpinion(db.events, m, c);
        } else {
          assert AgreesOn(uuid, db, m, c);
        }
      }
    case SetFeedback(id, feedback, user) =>
      if id < |db.messages| {
        forall m, c | 0 <= m < |db'.messages| ensures AgreesOn(uuid, db', m, c) {
          assert AgreesOn(uuid, db, m, c);
          SetAgrees(uuid, db, id, feedback, user, m, c);
        }
      }
  }

  /** After any run of calls the event log and the messages agree. */
  lemma {:induction false} RunAgrees(uuid: string -> Option<nat>, ops: seq<Op>)
    ensures LogAgrees(uuid, Run(uuid, ops))
  {
    if ops != [] {
      RunAgrees(uuid, ops[..|ops| - 1]);
      StepAgrees(uuid, Run(uuid, ops[..|ops| - 1]), ops[|ops| - 1]);
    }
  }

  /** However often a call is repeated, and by whomever, only the first time appends or changes anything. */
  lemma {:induction false} RepeatingIsSilent(uuid: string -> Option<nat>, db: Db, id: nat, feedback: Option<int>, first: Option<nat>, users: seq<Option<nat>>)
    ensures Repeated(uuid, SetStep(uuid, db, id, feedback, first).0, id, feedback, users)
            == SetStep(uuid, db, id, feedback, first).0
  {
    if users != [] { RepeatingIsSilent(uuid, db, id, feedback, first, users[..|users| - 1]); }
  }

  function Repeated(uuid: string -> Option<nat>, db: Db, id: nat, feedback: Option<int>, users: seq<Option<nat>>): Db {
    if users == [] then db
    else SetStep(uuid, Repeated(uuid, db, id, feedback, users[..|users| - 1]), id, feedback, users[|users| - 1]).0
  }

  // --- What the rebuild job makes of the counts ---

  function Count(events: seq<Event>, chunk: nat, kind: Kind): nat {
    if events == [] then 0
    else
      var last := events[|events| - 1];
      Count(events[..|events| - 1], chunk, kind) + (if last.chunk == chunk && last.kind == kind then 1 else 0)
  }

  function Times(pairs: seq<(nat, nat)>, chunk: nat): nat {
    if pairs == [] then 0 else Times(pairs[..|pairs| - 1], chunk) + (if pairs[|pairs| - 1].0 == chunk then 1 else 0)
  }

  function Min(a: int, b: int): int {
    if a < b then a else b
  }

  function Max(a: int, b: int): int {
    if a < b then b else a
  }

  /** The positive and negative counts that the rebuild stores for a chunk. */
  function Rebuilt(positive: nat, negative: nat, reverse: nat): (int, int) {
    var cancel := Min(reverse, positive + negative);
    if cancel > 0 then
      var posCancel := Min(cancel, positive);
      var negCancel := cancel - posCancel;
      (Max(positive - posCancel, 0), Max(negative - negCancel, 0))
    else (positive, negative)
  }

  /** The opinions of one sign that messages now hold on the chunk, one for each time it is cited. */
  function Standing(uuid: string -> Option<nat>, messages: seq<Message>, chunk: nat, sign: int): nat {
    if messages == [] then 0
    else
      var last := messages[|messages| - 1];
      Standing(uuid, messages[..|messages| - 1], chunk, sign)
      + (if Sign(OrZero(last.feedback)) == sign then Times(Pairs(uuid, last.refs), chunk) else 0)
  }

  /** The reverse events of a run that took back an opinion of the given sign; sign 0 took back none. */
  function TakenBack(uuid: string -> Option<nat>, ops: seq<Op>, chunk: nat, sign: int): nat {
    if ops == [] then 0
    else
      var front, op := ops[..|ops| - 1], ops[|ops| - 1];
      TakenBack(uuid, front, chunk, sign) + TakesBack(uuid, Run(uuid, front), op, chunk, sign)
  }

  function TakesBack(uuid: string -> Option<nat>, db: Db, op: Op, chunk: nat, sign: int): nat {
    if op.SetFeedback? && op.id < |db.messages| then
      var msg := db.messages[op.id];
      if Reverses(msg.feedback, op.feedback) && Sign(msg.feedback.value) == sign then Times(Pairs(uuid, msg.refs), chunk) else 0
    else 0
  }

  lemma {:induction false} CountConcat(a: seq<Event>, b: seq<Event>, chunk: nat, kind: Kind)
    ensures Count(a + b, chunk, kind) == Count(a, chunk, kind) + Count(b, chunk, kind)
  {
    if b == [] {
      assert a + b == a;
    } else {
      assert (a + b)[..|a + b| - 1] == a + b[..|b| - 1];
      CountConcat(a, b[..|b| - 1], chunk, kind);
    }
  }

  lemma {:induction false} CountRecorded(pairs: seq<(nat, nat)>, sentiment: int, id: nat, user: Option<nat>, chunk: nat, kind: Kind)
    ensures Count(Recorded(pairs, sentiment, id, user), chunk, kind) == if KindOf(sentiment) == kind then Times(pairs, chunk) else 0
  {
    if pairs != [] {
      var n := |pairs| - 1;
      assert Recorded(pairs, sentiment, id, user)[..n] == Recorded(pairs[..n], sentiment, id, user);
      CountRecorded(pairs[..n], sentiment, id, user, chunk, kind);
    }
  }

  lemma CountGrows(events: seq<Event>, pairs: seq<(nat, nat)>, previous: Option<int>, id: nat, feedback: Option<int>, user: Option<nat>, chunk: nat, kind: Kind)
    ensures Count(events + Appended(pairs, previous, id, feedback, user), chunk, kind)
            == Count(events, chunk, kind)
               + (if Reverses(previous, feedback) && kind == Reverse then Times(pairs, chunk) else 0)
               + (if Votes(previous, feedback) && kind == KindOf(feedback.value) then Times(pairs, chunk) else 0)
  {
    var reversed := if Reverses(previous, feedback) then Recorded(pairs, 0, id, user) else [];
    var voted := if Votes(previous, feedback) then Recorded(pairs, feedback.value, id, user) else [];
    CountConcat(events, reversed + voted, chunk, kind);
    CountConcat(reversed, voted, chunk, kind);
    CountRecorded(pairs, 0, id, user, chunk, kind);
    if Votes(previous, feedback) { CountRecorded(pairs, feedback.value, id, user, chunk, kind); }
  }

  lemma {:induction false} StandingUpdated(uuid: string -> Option<nat>, messages: seq<Message>, id: nat, msg': Message, chunk: nat, sign: int)
    requires id < |messages|
    ensures Standing(uuid, messages[id := msg'], chunk, sign)
            + (if Sign(OrZero(messages[id].feedback)) == sign then Times(Pairs(uuid, messages[id].refs), chunk) else 0)
            == Standing(uuid, messages, chunk, sign)
            + (if Sign(OrZero(msg'.feedback)) == sign then Times(Pairs(uuid, msg'.refs), chunk) else 0)
  {
    var n := |messages| - 1;
    if id == n {
      assert messages[id := msg'][..n] == messages[..n];
    } else {
      assert messages[id := msg'][..n] == messages[..n][id := msg'];
      StandingUpdated(uuid, messages[..n], id, msg', chunk, sign);
    }
  }

  /** Every vote ever counted either stands or has been taken back, and every reverse took back a vote or nothing. */
  ghost predicate Tally(uuid: string -> Option<nat>, ops: seq<Op>, chunk: nat) {
    var db := Run(uuid, ops);
    && Count(db.events, chunk, Positive) == Standing(uuid, db.messages, chunk, 1) + TakenBack(uuid, ops, chunk, 1)
    && Count(db.events, chunk, Negative) == Standing(uuid, db.messages, chunk, -1) + TakenBack(uuid, ops, chunk, -1)
    && Count(db.events, chunk, Reverse)
       == TakenBack(uuid, ops, chunk, 1) + TakenBack(uuid, ops, chunk, -1) + TakenBack(uuid, ops, chunk, 0)
  }

  lemma {:induction false} RunTally(uuid: string -> Option<nat>, ops: seq<Op>, chunk: nat)
    ensures Tally(uuid, ops, chunk)
  {
    if ops != [] {
      var front, op := ops[..|ops| - 1], ops[|ops| - 1];
      RunTally(uuid, front, chunk);
      StepTally(uuid, Run(uuid, front), op, chunk);
    }
  }

  lemma StepTally(uuid: string -> Option<nat>, db: Db, op: Op, chunk: nat)
    ensures var db' := Step(uuid, db, op);
            && Count(db'.events, chunk, Positive) + Standing(uuid, db.messages, chunk, 1)
               == Count(db.events, chunk, Positive) + Standing(uuid, db'.messages, chunk, 1) + TakesBack(uuid, db, op, chunk, 1)
            && Count(db'.events, chunk, Negative) + Standing(uuid, db.messages, chunk, -1)
               == Count(db.events, chunk, Negative) + Standing(uuid, db'.messages, chunk, -1) + TakesBack(uuid, db, op, chunk, -1)
            && Count(db'.events, chunk, Reverse)
               == Count(db.events, chunk, Reverse) + TakesBack(uuid, db, op, chunk, 1)
                  + TakesBack(uuid, db, op, chunk, -1) + TakesBack(uuid, db, op, chunk, 0)
  {
    if op.AddMessage? {
      assert (db.messages + [Message(op.refs, None)])[..|db.messages|] == db.messages;
    } else if op.id < |db.messages| {
      var msg := db.messages[op.id];
      var pairs, msg' := Pairs(uuid, msg.refs), msg.(feedback := op.feedback);
      CountGrows(db.events, pairs, msg.feedback, op.id, op.feedback, op.user, chunk, Positive);
      CountGrows(db.events, pairs, msg.feedback, op.id, op.feedback, op.user, chunk, Negative);
      CountGrows(db.events, pairs, msg.feedback, op.id, op.feedback, op.user, chunk, Reverse);
      StandingUpdated(uuid, db.messages, op.id, msg', chunk, 1);
      StandingUpdated(uuid, db.messages, op.id, msg', chunk, -1);
    }
  }

  lemma RebuiltCounts(liked: nat, disliked: nat, unliked: nat, undisliked: nat, idle: nat)
    ensures var (p, n) := Rebuilt(liked + unliked, disliked + undisliked, unliked + undisliked + idle);
            && p == Max(liked - undisliked - idle, 0)
            && p + n == Max(liked + disliked - idle, 0)
  {
  }

  /** The rebuilt counts are the standing ones exactly unless a vote went on top of a stored 0, or a negative vote was taken back
      while a positive one stands. */
  lemma {:induction false} RebuildIsRightIff(uuid: string -> Option<nat>, ops: seq<Op>, chunk: nat)
    ensures var db := Run(uuid, ops);
            var liked, disliked := Standing(uuid, db.messages, chunk, 1), Standing(uuid, db.messages, chunk, -1);
            var idle, undone := TakenBack(uuid, ops, chunk, 0), TakenBack(uuid, ops, chunk, -1);
            var rebuilt := Rebuilt(Count(db.events, chunk, Positive), Count(db.events, chunk, Negative), Count(db.events, chunk, Reverse));
            && (rebuilt == (liked, disliked) <==> (idle == 0 || liked + disliked == 0) && (undone == 0 || liked == 0))
            && (rebuilt.0 + rebuilt.1 == liked + disliked <==> idle == 0 || liked + disliked == 0)
  {
    RunTally(uuid, ops, chunk);
    var db := Run(uuid, ops);
    RebuiltCounts(Standing(uuid, db.messages, chunk, 1), Standing(uuid, db.messages, chunk, -1),
                  TakenBack(uuid, ops, chunk, 1), TakenBack(uuid, ops, chunk, -1), TakenBack(uuid, ops, chunk, 0));
  }

  predicate NeverZero(ops: seq<Op>) {
    forall i :: 0 <= i < |ops| && ops[i].SetFeedback? ==> ops[i].feedback != Some(0)
  }

  /** If callers clear a vote with null and never with 0, the rebuild counts every standing vote once. */
  lemma {:induction false} ClearingWithNull(uuid: string -> Option<nat>, ops: seq<Op>, chunk: nat)
    requires NeverZero(ops)
    ensures var db := Run(uuid, ops);
            var rebuilt := Rebuilt(Count(db.events, chunk, Positive), Count(db.events, chunk, Negative), Count(db.events, chunk, Reverse));
            rebuilt.0 + rebuilt.1 == Standing(uuid, db.messages, chunk, 1) + Standing(uuid, db.messages, chunk, -1)
  {
    NothingIdle(uuid, ops, chunk);
    RebuildIsRightIff(uuid, ops, chunk);
  }

  lemma {:induction false} NothingIdle(uuid: string -> Option<nat>, ops: seq<Op>, chunk: nat)
    requires NeverZero(ops)
    ensures TakenBack(uuid, ops, chunk, 0) == 0
    ensures forall i :: 0 <= i < |Run(uuid, ops).messages| ==> Run(uuid, ops).messages[i].feedback != Some(0)
  {
    if ops != [] {
      var front, op := ops[..|ops| - 1], ops[|ops| - 1];
      assert forall i :: 0 <= i < |front| ==> front[i] == ops[i];
      NothingIdle(uuid, front, chunk);
    }
  }

  lemma ThreeSteps(uuid: string -> Option<nat>, a: Op, b: Op, c: Op)
    ensures Run(uuid, [a, b, c]) == Step(uuid, Step(uuid, Step(uuid, EMPTY_DB, a), b), c)
  {
    assert [a, b, c][..2] == [a, b] && [a, b][..1] == [a] && [a][..0] == [];
    assert Run(uuid, []) == EMPTY_DB;
    assert Run(uuid, [a]) == Step(uuid, EMPTY_DB, a);
    assert Run(uuid, [a, b]) == Step(uuid, Run(uuid, [a]), b);
  }

  lemma OnePair(uuid: string -> Option<nat>, ref: Ref, chunk: nat, kb: nat)
    requires PairOf(uuid, ref) == Some((chunk, kb))
    ensures Pairs(uuid, [ref]) == [(chunk, kb)] && Times([(chunk, kb)], chunk) == 1
  {
    assert [ref][..0] == [] && [(chunk, kb)][..0] == [];
    assert Pairs(uuid, []) == [] && Times([], chunk) == 0;
  }

  lemma DislikeThenLike(pairs: seq<(nat, nat)>, user: Option<nat>, chunk: nat, kind: Kind)
    requires Times(pairs, chunk) == 1
    ensures Count([] + Appended(pairs, None, 0, Some(-1), user) + Appended(pairs, Some(-1), 0, Some(1), user), chunk, kind) == 1
  {
    CountGrows([], pairs, None, 0, Some(-1), user, chunk, kind);
    CountGrows([] + Appended(pairs, None, 0, Some(-1), user), pairs, Some(-1), 0, Some(1), user, chunk, kind);
  }

  lemma OneMessageStep(uuid: string -> Option<nat>, ref: Ref, previous: Option<int>, events: seq<Event>, feedback: Option<int>, user: Option<nat>)
    ensures Step(uuid, Db([Message([ref], previous)], events), SetFeedback(0, feedback, user))
            == Db([Message([ref], feedback)], events + Appended(Pairs(uuid, [ref]), previous, 0, feedback, user))
  {
  }

  lemma FlippedRun(uuid: string -> Option<nat>, ref: Ref, user: Option<nat>)
    ensures var pairs := Pairs(uuid, [ref]);
            Run(uuid, [AddMessage([ref]), SetFeedback(0, Some(-1), user), SetFeedback(0, Some(1), user)])
            == Db([Message([ref], Some(1))], [] + Appended(pairs, None, 0, Some(-1), user) + Appended(pairs, Some(-1), 0, Some(1), user))
  {
    ThreeSteps(uuid, AddMessage([ref]), SetFeedback(0, Some(-1), user), SetFeedback(0, Some(1), user));
    assert Step(uuid, EMPTY_DB, AddMessage([ref])) == Db([Message([ref], None)], []);
    OneMessageStep(uuid, ref, None, [], Some(-1), user);
    OneMessageStep(uuid, ref, Some(-1), [] + Appended(Pairs(uuid, [ref]), None, 0, Some(-1), user), Some(1), user);
  }

  /** A dislike turned into a like is rebuilt as a dislike. */
  lemma FlippedVote(uuid: string -> Option<nat>, ref: Ref, chunk: nat, kb: nat, user: Option<nat>)
    requires PairOf(uuid, ref) == Some((chunk, kb))
    ensures var db := Run(uuid, [AddMessage([ref]), SetFeedback(0, Some(-1), user), SetFeedback(0, Some(1), user)]);
            && db.messages == [Message([ref], Some(1))]
            && Rebuilt(Count(db.events, chunk, Positive), Count(db.events, chunk, Negative), Count(db.events, chunk, Reverse)) == (0, 1)
  {
    FlippedRun(uuid, ref, user);
    OnePair(uuid, ref, chunk, kb);
    var pairs := [(chunk, kb)];
    DislikeThenLike(pairs, user, chunk, Positive);
    DislikeThenLike(pairs, user, chunk, Negative);
    DislikeThenLike(pairs, user, chunk, Reverse);
  }
}
