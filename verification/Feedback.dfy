/** The feedback call over the message table and the append-only event log. */
module Feedback {
  import opened Wrappers
  import opened FeedbackSpec

  class ConversationService {
    const uuid: string -> Option<nat>
    var messages: seq<Message>
    var events: seq<Event>

    function State(): Db
      reads this
    {
      Db(messages, events)
    }

    constructor (uuid: string -> Option<nat>)
      ensures this.uuid == uuid && State() == EMPTY_DB
    {
      this.uuid, messages, events := uuid, [], [];
    }

    method Add(refs: seq<Ref>) returns (id: nat)
      modifies this`messages
      ensures State() == Step(uuid, old(State()), AddMessage(refs)) && id == |old(messages)|
    {
      id := |messages|;
      messages := messages + [Message(refs, None)];
    }

    /** The cited chunks in order; references with missing or unreadable ids are passed over. */
    method CitedPairs(refs: seq<Ref>) returns (pairs: seq<(nat, nat)>)
      ensures pairs == Pairs(uuid, refs)
    {
      pairs := [];
      for i := 0 to |refs|
        invariant pairs == Pairs(uuid, refs[..i])
      {
        assert refs[..i + 1][..i] == refs[..i];
        var cid := if Truthy(refs[i].id) then refs[i].id else refs[i].chunkId;
        if !Truthy(cid) || !Truthy(refs[i].kbId) {
          continue;
        }
        var chunk, kb := uuid(cid.value), uuid(refs[i].kbId.value);
        if chunk.Some? && kb.Some? {
          pairs := pairs + [(chunk.value, kb.value)];
        }
      }
      assert refs[..|refs|] == refs;
    }

    method RecordFeedback(pairs: seq<(nat, nat)>, sentiment: int, message: nat, user: Option<nat>)
      modifies this`events
      ensures events == old(events) + Recorded(pairs, sentiment, message, user)
    {
      var kind := if sentiment > 0 then Positive else if sentiment < 0 then Negative else Reverse;
      var rows: seq<Event> := [];
      for i := 0 to |pairs|
        invariant rows == Recorded(pairs, sentiment, message, user)[..i]
      {
        rows := rows + [Event(pairs[i].0, pairs[i].1, kind, message, user)];
      }
      events := events + rows;
    }

    /** Takes back the previous opinion, if there is one and it differs, before it records the new one. */
    method RecordChange(pairs: seq<(nat, nat)>, previous: Option<int>, feedback: Option<int>, id: nat, user: Option<nat>)
      modifies this`events
      ensures events == old(events) + Appended(pairs, previous, id, feedback, user)
    {
      if previous.Some? && previous.value != OrZero(feedback) && pairs != [] {
        RecordFeedback(pairs, 0, id, user);
      }
      if feedback.Some? && feedback.value != 0 && feedback != previous && pairs != [] {
        RecordFeedback(pairs, feedback.value, id, user);
      }
    }

    /** Takes the step prescribed, and keeps the log in agreement with the messages. */
    method Set(id: nat, feedback: Option<int>, user: Option<nat>) returns (r: Result<Message, FeedbackError>)
      modifies this
      ensures (State(), r) == SetStep(uuid, old(State()), id, feedback, user)
      ensures old(LogAgrees(uuid, State())) ==> LogAgrees(uuid, State())
    {
      ghost var before := State();
      if id >= |messages| {
        return Err(MessageNotFound);
      }
      var msg := messages[id];
      var previous := msg.feedback;
      var pairs := CitedPairs(msg.refs);
      RecordChange(pairs, previous, feedback, id, user);
      msg := msg.(feedback := feedback);
      messages := messages[id := msg];
      if LogAgrees(uuid, before) { StepAgrees(uuid, before, SetFeedback(id, feedback, user)); }
      return Ok(msg);
    }
  }
}
