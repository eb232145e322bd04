/** What each step makes of events and intents, field by field. */
module IntentEffects {
  import opened Basics
  import Ledger = PushLedger
  import opened PushIntents
  import opened IntentInvariants

  // ----- One step ---------------------------------------------------------------------------------

  /** A send under a new key stores the message and one event, with an intent due at once if pushes are enabled. */
  lemma SendStores(s: State, e: Event)
    requires Enabled(s, e) && e.op.Send? && forall id | id in s.messages :: s.messages[id].key != e.op.key
    ensures Next(s, e).messages == s.messages[e.op.message := Message(e.op.key, e.op.content)]
    ensures var intent := if e.op.pushEnabled then Some(Intent(Pending, 0, e.now, None, None)) else None;
            Next(s, e).outbox == s.outbox[e.op.event := OutboxEvent(e.op.message, intent, Unpublished)]
  {
    assert forall id :: !HasKey(s.messages, e.op.key, id);
    assert forall id | id in s.outbox :: EventAfter(id, s.outbox[id], e, 0) == s.outbox[id];
  }

  /** A claim can take the intent: it waits and is due, or its claim is more than thirty seconds old. */
  predicate Ready(i: Intent, now: int) {
    || (i.status == Pending && i.availableAt <= now)
    || (i.status == Processing && i.lockedAt.Some? && i.lockedAt.value + 30_000 < now)
  }

  /** The intent is in processing under the claim. */
  predicate Under(x: OutboxEvent, id: EventId, c: Claim) {
    id == c.event && x.intent.Some? && x.intent.value.status == Processing && x.intent.value.claim == Some(c.token)
  }

  /** The intent after a step on the event: claimed, completed or failed under its claim, or as it was. */
  function IntentAfter(x: OutboxEvent, id: EventId, op: Op, now: int, attempts: nat): Option<Intent> {
    match op
    case ClaimIntents(events, token) =>
      if id in events && x.intent.Some? && Ready(x.intent.value, now)
      then Some(x.intent.value.(status := Processing, attempts := x.intent.value.attempts + 1, lockedAt := Some(now), claim := Some(token)))
      else x.intent
    case Materialize(c, _) =>
      if Under(x, id, c) then Some(x.intent.value.(status := Completed, lockedAt := None, claim := None)) else x.intent
    case MarkFailed(c) =>
      if Under(x, id, c) then
        Some(if attempts >= 20 then x.intent.value.(status := Dead, lockedAt := None, claim := None)
             else x.intent.value.(status := Pending, availableAt := now + Backoff(attempts), lockedAt := None, claim := None))
      else x.intent
    case _ => x.intent
  }

  /** The event is old: published for more than a day or undeliverable for more than a week, and its intent is over or was never there. */
  predicate Old(x: OutboxEvent, now: int) {
    && (x.intent == None || x.intent.value.status == Completed || x.intent.value.status == Dead)
    && ((x.publication.Published? && x.publication.at + 86_400_000 < now)
        || (x.publication.Undeliverable? && x.publication.at + 604_800_000 < now))
  }

  /** The fate of an event in one step; a failed materialisation counts the attempts that its claim was issued with. */
  lemma EventFate(s: State, e: Event, id: EventId)
    requires Enabled(s, e) && id in s.outbox
    requires e.op.Send? ==> e.op.event != id
    ensures id in Next(s, e).outbox <==> !(e.op.CleanOutbox? && id in e.op.events && Old(s.outbox[id], e.now))
    ensures id in Next(s, e).outbox ==>
              var x, after := s.outbox[id], Next(s, e).outbox[id];
              && after.message == x.message
              && after.intent == IntentAfter(x, id, e.op, e.now, if e.op.MarkFailed? then s.issued[e.op.c] else 0)
              && after.publication == (if e.op.Publish? && e.op.event == id && x.publication == Unpublished
                                       then (if e.op.delivered then Published(e.now) else Undeliverable(e.now)) else x.publication)
  {
  }

  // ----- No intent is left behind -------------------------------------------------------------------

  /** From when on the intent can be claimed. */
  function ReadyAt(i: Intent): int {
    if i.status == Pending then i.availableAt else i.lockedAt.GetOr(0) + 30_001
  }

  /** Not finished, and to be claimed within the minute. */
  ghost predicate Timely(i: Intent, clock: int) {
    && (i.status == Processing ==> i.lockedAt.Some?)
    && (i.status == Pending || i.status == Processing ==> ReadyAt(i) <= clock + 60_000)
  }

  ghost predicate AllTimely(s: State) {
    forall id | id in s.outbox && s.outbox[id].intent.Some? :: Timely(s.outbox[id].intent.value, s.ledger.clock)
  }

  lemma TimelyStep(s: State, e: Event, id: EventId)
    requires Enabled(s, e) && AllTimely(s) && id in s.outbox && s.outbox[id].intent.Some?
    ensures var i := EventAfter(id, s.outbox[id], e, AttemptsFor(s, e)).intent; i.Some? && Timely(i.value, e.now)
  {
    assert Timely(s.outbox[id].intent.value, s.ledger.clock);
  }

  lemma TimelyNext(s: State, e: Event)
    requires Inv(s) && Enabled(s, e) && AllTimely(s)
    ensures AllTimely(Next(s, e))
  {
    LedgerMoves(s, e);
    forall id | id in Next(s, e).outbox && Next(s, e).outbox[id].intent.Some?
      ensures Timely(Next(s, e).outbox[id].intent.value, e.now)
    {
      if e.op.Send? && id == e.op.event && Existing(s.messages, e.op.key).None? {
      } else {
        assert Next(s, e).outbox[id] == EventAfter(id, s.outbox[id], e, AttemptsFor(s, e));
        TimelyStep(s, e, id);
      }
    }
  }

  lemma StartTimely(states: seq<State>, events: seq<Event>)
    requires Run(states, events)
    ensures AllTimely(states[0])
  {
  }

  lemma MomentTimely(states: seq<State>, events: seq<Event>, k: nat)
    requires Run(states, events) && k < |events| && AllTimely(states[k])
    ensures AllTimely(states[k + 1])
  {
    RunKeepsInv(states, events, k);
    assert Moves(states, events, k);
    TimelyNext(states[k], events[k]);
  }

  lemma {:induction false} RunTimely(states: seq<State>, events: seq<Event>, n: nat)
    requires Run(states, events) && n <= |events|
    ensures AllTimely(states[n])
  {
    if n == 0 {
      StartTimely(states, events);
    } else {
      RunTimely(states, events, n - 1);
      MomentTimely(states, events, n - 1);
    }
  }

  /** In every reachable state an intent that is not finished can be claimed from some time on, at most a minute ahead. */
  lemma IntentsReadySoon(states: seq<State>, events: seq<Event>, n: nat, id: EventId, token: Token, now: int)
    requires Run(states, events) && n <= |events| && id in states[n].outbox && states[n].outbox[id].intent.Some?
    requires now >= states[n].ledger.clock && forall c | c in states[n].issued :: c.token != token
    ensures var i, claim := states[n].outbox[id].intent.value, Event(ClaimIntents({id}, token), now);
            i.status == Pending || i.status == Processing ==>
              && ReadyAt(i) <= states[n].ledger.clock + 60_000
              && Enabled(states[n], claim) && id in Next(states[n], claim).outbox && Next(states[n], claim).outbox[id].intent.Some?
              && (Next(states[n], claim).outbox[id].intent.value.claim == Some(token) <==> ReadyAt(i) <= now)
  {
    RunTimely(states, events, n);
    RunKeepsInv(states, events, n);
    var i := states[n].outbox[id].intent.value;
    assert IntentOk(states[n], id, i) && Timely(i, states[n].ledger.clock);
    assert i.claim.Some? ==> Claim(id, i.claim.value) in states[n].issued;
  }
}
