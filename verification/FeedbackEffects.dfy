/** What one feedback call stores and logs, told by its rows and events (app/chat/service.py, app/knowledge/governance/events.py). */
module FeedbackEffects {
  import opened Wrappers
  import opened FeedbackSpec

  /** The text is there, is not empty, and reads as that UUID. */
  ghost predicate ReadsAs(uuid: string -> Option<nat>, text: Option<string>, n: nat) {
    text.Some? && text.value != "" && uuid(text.value) == Some(n)
  }

  /** A reference cites chunk c of knowledge base k: the chunk by its id, or by its chunk_id if it has no id, and the base by its own text. */
  ghost predicate Cites(uuid: string -> Option<nat>, ref: Ref, c: nat, k: nat) {
    && (if ref.id.Some? && ref.id.value != "" then ReadsAs(uuid, ref.id, c) else ReadsAs(uuid, ref.chunkId, c))
    && ReadsAs(uuid, ref.kbId, k)
  }

  /** One reference gives one pair, chunk first, or none if either text is missing or unreadable. */
  lemma PairsOfOne(uuid: string -> Option<nat>, ref: Ref, c: nat, k: nat)
    ensures Cites(uuid, ref, c, k) <==> Pairs(uuid, [ref]) == [(c, k)]
    ensures Pairs(uuid, [ref]) == [] <==> forall c: nat, k: nat :: !Cites(uuid, ref, c, k)
  {
    assert [ref][..0] == [];
    var p := PairOf(uuid, ref);
    if p.Some? {
      assert Pairs(uuid, [ref]) == [p.value];
      assert Cites(uuid, ref, p.value.0, p.value.1);
    }
  }

  /** And they come in the order of the references. */
  lemma {:induction false} PairsConcat(uuid: string -> Option<nat>, a: seq<Ref>, b: seq<Ref>)
    ensures Pairs(uuid, a + b) == Pairs(uuid, a) + Pairs(uuid, b)
  {
    if b == [] {
      assert a + b == a;
    } else {
      assert (a + b)[..|a + b| - 1] == a + b[..|b| - 1];
      PairsConcat(uuid, a, b[..|b| - 1]);
    }
  }

  /** One event of that kind per pair. */
  ghost predicate Logs(events: seq<Event>, pairs: seq<(nat, nat)>, kind: Kind, id: nat, user: Option<nat>) {
    && |events| == |pairs|
    && forall i :: 0 <= i < |pairs| ==> events[i] == Event(pairs[i].0, pairs[i].1, kind, id, user)
  }

  /** An opinion of 0 is none. */
  function Opinion(feedback: Option<int>): int {
    match feedback case None => 0 case Some(n) => n
  }

  /** The message is stored with the feedback as given, and the log grows by what was taken back and then by what was given. */
  lemma SetStores(uuid: string -> Option<nat>, db: Db, id: nat, feedback: Option<int>, user: Option<nat>)
    returns (taken: seq<Event>, given: seq<Event>)
    ensures var (db', r) := SetStep(uuid, db, id, feedback, user);
            && (r.Ok? <==> id < |db.messages|)
            && (r.Err? ==> db' == db && r.error == MessageNotFound)
            && (r.Ok? ==>
                  && |db'.messages| == |db.messages| && r.value == db'.messages[id]
                  && (forall m :: 0 <= m < |db.messages| && m != id ==> db'.messages[m] == db.messages[m])
                  && db'.messages[id].feedback == feedback && db'.messages[id].refs == db.messages[id].refs
                  && db'.events == db.events + taken + given
                  && Given(Pairs(uuid, db.messages[id].refs), db.messages[id].feedback, id, feedback, user, taken, given))
  {
    taken, given := [], [];
    if id < |db.messages| {
      var msg := db.messages[id];
      var pairs := Pairs(uuid, msg.refs);
      if msg.feedback.Some? && msg.feedback.value != Opinion(feedback) { taken := Recorded(pairs, 0, id, user); }
      if Opinion(feedback) != 0 && feedback != msg.feedback { given := Recorded(pairs, Opinion(feedback), id, user); }
      assert db.events + (taken + given) == db.events + taken + given;
    }
  }

  /** A stored value that changes is taken back, 0 included; an opinion that is new is given by its sign. */
  ghost predicate Given(pairs: seq<(nat, nat)>, previous: Option<int>, id: nat, feedback: Option<int>, user: Option<nat>,
                        taken: seq<Event>, given: seq<Event>)
  {
    && Logs(taken, if previous.Some? && previous.value != Opinion(feedback) then pairs else [], Reverse, id, user)
    && Logs(given, if Opinion(feedback) != 0 && previous != feedback then pairs else [],
            if Opinion(feedback) > 0 then Positive else Negative, id, user)
  }
}
