/** What holds over whole runs from a message to its deliveries. */
module OneDelivery {
  import opened Basics
  import Ledger = PushLedger
  import opened PushIntents
  import opened IntentInvariants

  /** Over any run, with leases lost and both clean-ups, an outbox event is materialised at most once. */
  lemma MaterialisedAtMostOnce(states: seq<State>, events: seq<Event>, n: nat, event: EventId)
    requires Run(states, events) && n <= |events|
    ensures CommitsOf(states[n], event) <= 1
  {
    RunKeepsInv(states, events, n);
  }

  /** Of all deliveries that were ever inserted, no two are for the same message and device, or the same message and token. */
  lemma OneDeliveryEver(states: seq<State>, events: seq<Event>, n: nat, d: DeliveryId, f: DeliveryId)
    requires Run(states, events) && n <= |events|
    requires d in states[n].born && f in states[n].born && d != f && states[n].born[d].message == states[n].born[f].message
    ensures states[n].born[d].device != states[n].born[f].device
    ensures states[n].born[d].fingerprint != states[n].born[f].fingerprint
  {
    RunKeepsInv(states, events, n);
  }

  lemma BornStays(s: State, e: Event, d: DeliveryId)
    requires Inv(s) && Enabled(s, e) && d in s.born
    ensures d in Next(s, e).born && Next(s, e).born[d] == s.born[d]
    ensures d in Next(s, e).ledger.rows ==> d in s.ledger.rows
  {
    LedgerMoves(s, e);
    if !Commits(s, e) {
      LedgerOnlyDrops(s, e);
    }
  }

  lemma MomentKeepsBorn(states: seq<State>, events: seq<Event>, k: nat, d: DeliveryId)
    requires Run(states, events) && k < |events| && d in states[k].born
    ensures d in states[k + 1].born && states[k + 1].born[d] == states[k].born[d]
    ensures d in states[k + 1].ledger.rows ==> d in states[k].ledger.rows
  {
    RunKeepsInv(states, events, k);
    assert Moves(states, events, k);
    BornStays(states[k], events[k], d);
  }

  lemma {:induction false} BornHistory(states: seq<State>, events: seq<Event>, i: nat, j: nat, d: DeliveryId)
    requires Run(states, events) && i <= j <= |events| && d in states[i].born
    ensures d in states[j].born && states[j].born[d] == states[i].born[d]
    ensures d in states[j].ledger.rows ==> d in states[i].ledger.rows
  {
    if i < j {
      BornHistory(states, events, i, j - 1, d);
      MomentKeepsBorn(states, events, j - 1, d);
    }
  }

  // ----- Every target gets its delivery ------------------------------------------------------------------

  lemma {:induction false} IdsOf(targets: seq<Target>, i: nat)
    requires i < |targets|
    ensures targets[i].delivery in Ids(targets)
    decreases |targets|
  {
    if i < |targets| - 1 {
      IdsOf(targets[..|targets| - 1], i);
    }
  }

  lemma {:induction false} FreshIdsAreOwn(ever: set<DeliveryId>, targets: seq<Target>)
    requires FreshTargets(ever, targets)
    ensures forall i | 0 <= i < |targets| :: targets[i].delivery !in ever
    ensures forall i, j | 0 <= i < j < |targets| :: targets[i].delivery != targets[j].delivery
    decreases |targets|
  {
    if targets != [] {
      var front := targets[..|targets| - 1];
      FreshIdsAreOwn(ever, front);
      forall i | 0 <= i < |front| ensures front[i].delivery in Ids(front) && front[i] == targets[i] {
        IdsOf(front, i);
      }
    }
  }

  /** A materialisation under the claim that the intent bears commits. */
  ghost predicate Materialises(s: State, e: Event) {
    && e.op.Materialize? && e.op.c.event in s.outbox && s.outbox[e.op.c.event].intent.Some?
    && s.outbox[e.op.c.event].intent.value.status.Processing? && s.outbox[e.op.c.event].intent.value.claim == Some(e.op.c.token)
  }

  lemma CommitInserts(s: State, e: Event)
    requires Inv(s) && Enabled(s, e) && Materialises(s, e)
    ensures Inserted(s.ledger.rows, s.outbox[e.op.c.event].message, e.op.targets, |e.op.targets|, e.now, Next(s, e).ledger.rows)
  {
    FreshIdsAreOwn(s.ledger.ever, e.op.targets);
    BirthsKeepRowsApart(s);
    AllInserted(s.ledger, s.outbox[e.op.c.event].message, e.op.targets, e.now);
  }

  lemma NoneCoveredBefore(s: State, e: Event, t: Target)
    requires Inv(s) && Enabled(s, e) && Materialises(s, e)
    ensures !Covered(s.ledger.rows, s.outbox[e.op.c.event].message, t)
  {
    forall d | d in s.ledger.rows ensures s.ledger.rows[d].message != s.outbox[e.op.c.event].message {
      NothingBornBefore(s, e, d);
    }
  }

  /** A birth of the message for the target's device or for its token. */
  ghost predicate BornFor(born: map<DeliveryId, Birth>, message: MessageId, t: Target) {
    exists d | d in born :: born[d].message == message && (born[d].device == t.device || born[d].fingerprint == t.fingerprint)
  }

  lemma CoveredIsBorn(s: State, message: MessageId, t: Target)
    requires BirthsOk(s) && Covered(s.ledger.rows, message, t)
    ensures BornFor(s.born, message, t)
  {
    var d :| d in s.ledger.rows && s.ledger.rows[d].message == message
             && (s.ledger.rows[d].device == t.device || s.ledger.rows[d].fingerprint == t.fingerprint);
    assert d in s.born;
  }

  /**
    A materialisation that commits in a run gives each target that no earlier one precedes a row
    of its own, waiting to be sent at once; a delivery was born for every target.
   */
  lemma EveryTargetIsBorn(states: seq<State>, events: seq<Event>, k: nat, i: nat)
    requires Run(states, events) && k < |events| && Materialises(states[k], events[k]) && i < |events[k].op.targets|
    ensures var targets, message, after := events[k].op.targets, states[k].outbox[events[k].op.c.event].message, states[k + 1];
            && (targets[i].delivery in after.ledger.rows <==> !Preceded(targets, i, after.ledger.rows))
            && (targets[i].delivery in after.ledger.rows ==> Waiting(after.ledger.rows[targets[i].delivery], message, targets[i], events[k].now))
            && BornFor(after.born, message, targets[i])
  {
    RunKeepsInv(states, events, k);
    RunKeepsInv(states, events, k + 1);
    assert Moves(states, events, k);
    CommitInserts(states[k], events[k]);
    var targets, message, rows := events[k].op.targets, states[k].outbox[events[k].op.c.event].message, states[k + 1].ledger.rows;
    NoneCoveredBefore(states[k], events[k], targets[i]);
    assert Decided(states[k].ledger.rows, message, targets, i, events[k].now, rows);
    CoveredIsBorn(states[k + 1], message, targets[i]);
  }

  lemma BornForStays(states: seq<State>, events: seq<Event>, i: nat, j: nat, message: MessageId, t: Target)
    requires Run(states, events) && i <= j <= |events| && BornFor(states[i].born, message, t)
    ensures BornFor(states[j].born, message, t)
  {
    var d :| d in states[i].born && states[i].born[d].message == message
             && (states[i].born[d].device == t.device || states[i].born[d].fingerprint == t.fingerprint);
    BornHistory(states, events, i, j, d);
  }

  // ----- What is gone stays gone ---------------------------------------------------------------------------

  /** A delivery that was cleaned up is never there again, nor any other for its message and device, or message and token. */
  lemma CleanedUpStaysGone(states: seq<State>, events: seq<Event>, i: nat, j: nat, d: DeliveryId, f: DeliveryId)
    requires Run(states, events) && i <= j <= |events|
    requires d in states[i].born && d !in states[i].ledger.rows && f in states[j].ledger.rows
    ensures var b, row := states[i].born[d], states[j].ledger.rows[f];
            !Ledger.Clashes(row, b.message, b.device, b.fingerprint)
  {
    BornHistory(states, events, i, j, d);
    RunKeepsInv(states, events, j);
    if states[j].born[f].message == states[j].born[d].message {
      OneDeliveryEver(states, events, j, d, f);
    }
  }

  /** A pending intent has had fewer than twenty attempts, and a failed one is dead exactly from its twentieth claim on. */
  lemma IntentsEndAtTwenty(states: seq<State>, events: seq<Event>, n: nat, id: EventId)
    requires Run(states, events) && n <= |events| && id in states[n].outbox && states[n].outbox[id].intent.Some?
    ensures var i := states[n].outbox[id].intent.value;
            && (i.status.Pending? ==> i.attempts < Ledger.ATTEMPTS_MAX)
            && (n < |events| && events[n].op.MarkFailed? && events[n].op.c.event == id && Fenced(states[n].outbox[id], events[n].op.c.token) ==>
                  && id in states[n + 1].outbox && states[n + 1].outbox[id].intent.Some?
                  && states[n + 1].outbox[id].intent.value.status == (if i.attempts >= Ledger.ATTEMPTS_MAX then Dead else Pending))
  {
    RunKeepsInv(states, events, n);
    if n < |events| {
      assert Moves(states, events, n);
    }
  }

  lemma MessageStays(s: State, e: Event, id: MessageId)
    requires Enabled(s, e) && id in s.messages
    ensures id in Next(s, e).messages && Next(s, e).messages[id] == s.messages[id]
  {
  }

  lemma {:induction false} MessageHistory(states: seq<State>, events: seq<Event>, i: nat, j: nat, id: MessageId)
    requires Run(states, events) && i <= j <= |events| && id in states[i].messages
    ensures id in states[j].messages && states[j].messages[id] == states[i].messages[id]
  {
    if i < j {
      MessageHistory(states, events, i, j - 1, id);
      assert Moves(states, events, j - 1);
      MessageStays(states[j - 1], events[j - 1], id);
    }
  }

  lemma RepeatIsAnswered(s: State, id: MessageId, again: Event)
    requires MessagesOk(s) && id in s.messages && again.op.Send? && again.op.key == s.messages[id].key
    ensures Existing(s.messages, again.op.key) == Some(id)
  {
    assert HasKey(s.messages, again.op.key, id);
  }

  lemma RepeatWritesNothing(s: State, id: MessageId, again: Event)
    requires MessagesOk(s) && id in s.messages && again.op.Send? && again.op.key == s.messages[id].key
    ensures Next(s, again) == s.(ledger := s.ledger.(clock := again.now))
  {
    RepeatIsAnswered(s, id, again);
    assert OutboxAfter(s, again) == s.outbox;
  }

  /** However often a client sends again under one key, there is one message and one event: the same text is answered with it, another text is refused. */
  lemma SendIsIdempotent(states: seq<State>, events: seq<Event>, i: nat, j: nat, id: MessageId, again: Event)
    requires Run(states, events) && i <= j <= |events| && id in states[i].messages
    requires again.op.Send? && again.op.key == states[i].messages[id].key && Enabled(states[j], again)
    ensures Answer(states[j].messages, again.op.key, again.op.content, again.op.message)
         == if again.op.content == states[i].messages[id].content then Deduplicated(id) else IdempotencyConflict
    ensures Next(states[j], again) == states[j].(ledger := states[j].ledger.(clock := again.now))
  {
    MessageHistory(states, events, i, j, id);
    RunKeepsInv(states, events, j);
    RepeatIsAnswered(states[j], id, again);
    RepeatWritesNothing(states[j], id, again);
  }
}
