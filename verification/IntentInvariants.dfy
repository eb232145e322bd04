/**
  What every run of sends, claims, materialisations and clean-ups keeps: one message per
  client key and one event per message, intents that are fenced by their claim, events that
  were materialised once at most and are then completed or gone, and deliveries that were
  born in the materialisation of their message's event and are distinct for ever. A
  materialisation is the only step that adds rows to the ledger.
 */
module IntentInvariants {
  import opened Basics
  import Ledger = PushLedger
  import opened PushIntents

  /** One message per client key, one event per message. */
  ghost predicate MessagesOk(s: State) {
    && (forall i, j | i in s.messages && j in s.messages && s.messages[i].key == s.messages[j].key :: i == j)
    && s.eventOf.Keys == s.messages.Keys
    && (forall i, j | i in s.eventOf && j in s.eventOf && s.eventOf[i] == s.eventOf[j] :: i == j)
    && (forall e | e in s.outbox :: s.outbox[e].message in s.eventOf && s.eventOf[s.outbox[e].message] == e)
  }

  ghost predicate IntentOk(s: State, id: EventId, i: Intent) {
    && (i.status.Pending? ==> i.attempts < Ledger.ATTEMPTS_MAX)
    && (i.claim.Some? <==> i.status.Processing?)
    && (i.claim.Some? ==> Claim(id, i.claim.value) in s.issued && s.issued[Claim(id, i.claim.value)] == i.attempts)
  }

  ghost predicate IntentsOk(s: State) {
    forall e | e in s.outbox && s.outbox[e].intent.Some? :: IntentOk(s, e, s.outbox[e].intent.value)
  }

  predicate CompletedOrGone(s: State, id: EventId) {
    id in s.outbox ==> s.outbox[id].intent.Some? && s.outbox[id].intent.value.status.Completed?
  }

  /** An event that was materialised is completed or gone. */
  ghost predicate CommitsOk(s: State) {
    forall e | CommitsOf(s, e) != 0 ::
      CommitsOf(s, e) == 1 && e in s.eventOf.Values && CompletedOrGone(s, e)
  }

  ghost predicate BirthsOk(s: State) {
    && (forall d | d in s.born ::
          && d in s.ledger.ever && s.born[d].message in s.eventOf
          && CommitsOf(s, s.eventOf[s.born[d].message]) == 1)
    && (forall d | d in s.ledger.rows :: d in s.born && s.born[d] == BirthOf(s.ledger.rows[d]))
    && DistinctBirths(s.born)
  }

  function BirthOf(row: Ledger.Row): Birth {
    Birth(row.message, row.device, row.fingerprint)
  }

  ghost predicate DistinctBirths(born: map<DeliveryId, Birth>) {
    forall d, f | d in born && f in born && d != f && born[d].message == born[f].message ::
      born[d].device != born[f].device && born[d].fingerprint != born[f].fingerprint
  }

  ghost predicate Inv(s: State) {
    MessagesOk(s) && IntentsOk(s) && CommitsOk(s) && BirthsOk(s)
  }

  lemma EventKeepsOutboxLinks(s: State, e: Event)
    requires MessagesOk(s) && Enabled(s, e)
    ensures forall id | id in Next(s, e).outbox ::
              var m := Next(s, e).outbox[id].message; m in Next(s, e).eventOf && Next(s, e).eventOf[m] == id
  {
    forall id | id in s.outbox ensures EventAfter(id, s.outbox[id], e, AttemptsFor(s, e)).message == s.outbox[id].message {
    }
  }

  /** A message of a new key and an event of a new id keep keys and events apart. */
  lemma SendKeepsMessages(s: State, e: Event)
    requires MessagesOk(s) && Enabled(s, e) && e.op.Send? && Existing(s.messages, e.op.key).None?
    ensures var t := Next(s, e);
            && (forall i, j | i in t.messages && j in t.messages && t.messages[i].key == t.messages[j].key :: i == j)
            && t.eventOf.Keys == t.messages.Keys
            && (forall i, j | i in t.eventOf && j in t.eventOf && t.eventOf[i] == t.eventOf[j] :: i == j)
  {
    assert forall i | i in s.messages :: !HasKey(s.messages, e.op.key, i);
    assert forall i | i in s.eventOf :: s.eventOf[i] in s.eventOf.Values;
  }

  lemma EventKeepsMessages(s: State, e: Event)
    requires MessagesOk(s) && Enabled(s, e)
    ensures MessagesOk(Next(s, e))
  {
    EventKeepsOutboxLinks(s, e);
    if e.op.Send? && Existing(s.messages, e.op.key).None? {
      SendKeepsMessages(s, e);
    } else {
      assert Next(s, e).messages == s.messages && Next(s, e).eventOf == s.eventOf;
    }
  }

  lemma NewIssueOf(s: State, e: Event, id: EventId)
    requires e.op.ClaimIntents? && id in s.outbox && id in e.op.events && Claimable(s.outbox[id], e.now)
    ensures var c := Claim(id, e.op.token);
            c in NewIssues(s.outbox, e.op.events, e.op.token, e.now)
            && NewIssues(s.outbox, e.op.events, e.op.token, e.now)[c] == s.outbox[id].intent.value.attempts + 1
  {
  }

  lemma IntentStaysOk(s: State, e: Event, id: EventId)
    requires IntentsOk(s) && Enabled(s, e) && id in s.outbox && s.outbox[id].intent.Some?
    ensures var x := EventAfter(id, s.outbox[id], e, AttemptsFor(s, e)); x.intent.Some? && IntentOk(Next(s, e), id, x.intent.value)
  {
    var i := s.outbox[id].intent.value;
    if e.op.ClaimIntents? {
      if id in e.op.events && Claimable(s.outbox[id], e.now) {
        NewIssueOf(s, e, id);
      } else if i.claim.Some? {
        assert Claim(id, i.claim.value) in s.issued && Claim(id, i.claim.value).token != e.op.token;
      }
    }
  }

  lemma EventKeepsIntents(s: State, e: Event)
    requires IntentsOk(s) && Enabled(s, e)
    ensures IntentsOk(Next(s, e))
  {
    var s' := Next(s, e);
    forall id | id in s'.outbox && s'.outbox[id].intent.Some? ensures IntentOk(s', id, s'.outbox[id].intent.value) {
      if e.op.Send? && Existing(s.messages, e.op.key).None? && id == e.op.event {
      } else {
        assert s'.outbox[id] == EventAfter(id, s.outbox[id], e, AttemptsFor(s, e));
        IntentStaysOk(s, e, id);
      }
    }
  }

  /** A materialisation commits under a live claim only, so not on a completed event. */
  lemma CommitIsFirst(s: State, e: Event)
    requires CommitsOk(s) && Commits(s, e)
    ensures CommitsOf(s, e.op.c.event) == 0
  {
  }

  lemma CompletedStays(s: State, e: Event, id: EventId)
    requires Enabled(s, e) && IntentsOk(s) && id in s.eventOf.Values && CompletedOrGone(s, id)
    ensures CompletedOrGone(Next(s, e), id)
  {
    if id in s.outbox {
      assert IntentOk(s, id, s.outbox[id].intent.value);
    }
  }

  lemma EventStaysKnown(s: State, e: Event, id: EventId)
    requires Enabled(s, e) && MessagesOk(s) && id in s.eventOf.Values
    ensures id in Next(s, e).eventOf.Values
  {
    var m :| m in s.eventOf && s.eventOf[m] == id;
    assert m in Next(s, e).eventOf && Next(s, e).eventOf[m] == id;
  }

  lemma CommitStaysOk(s: State, e: Event, id: EventId)
    requires MessagesOk(s) && IntentsOk(s) && CommitsOk(s) && Enabled(s, e) && CommitsOf(Next(s, e), id) != 0
    ensures CommitsOf(Next(s, e), id) == 1 && id in Next(s, e).eventOf.Values && CompletedOrGone(Next(s, e), id)
  {
    if Commits(s, e) && id == e.op.c.event {
      CommitIsFirst(s, e);
      assert s.eventOf[s.outbox[id].message] in s.eventOf.Values;
    } else {
      assert CommitsOf(s, id) != 0;
      CompletedStays(s, e, id);
    }
    EventStaysKnown(s, e, id);
  }

  lemma EventKeepsCommits(s: State, e: Event)
    requires MessagesOk(s) && IntentsOk(s) && CommitsOk(s) && Enabled(s, e)
    ensures CommitsOk(Next(s, e))
  {
    var s' := Next(s, e);
    forall id | CommitsOf(s', id) != 0
      ensures CommitsOf(s', id) == 1 && id in s'.eventOf.Values && CompletedOrGone(s', id)
    {
      CommitStaysOk(s, e, id);
    }
  }

  // ----- Deliveries ------------------------------------------------------------------------------------

  lemma BirthsKeepRowsApart(s: State)
    requires BirthsOk(s)
    ensures Ledger.RowsKnown(s.ledger) && Ledger.NoClashes(s.ledger.rows)
  {
    forall i, j | i in s.ledger.rows && j in s.ledger.rows && i != j
      ensures !Ledger.Clashes(s.ledger.rows[i], s.ledger.rows[j].message, s.ledger.rows[j].device, s.ledger.rows[j].fingerprint)
    {
      assert s.born[i] == BirthOf(s.ledger.rows[i]) && s.born[j] == BirthOf(s.ledger.rows[j]);
    }
  }

  lemma RowsAfterInsert(rows: Ledger.Rows, e: Ledger.Event)
    requires e.op.Insert? && e.op.id !in rows
    ensures var after := Ledger.RowsAfter(rows, e);
            || after == rows
            || after == rows[e.op.id := Ledger.Fresh(e.op.message, e.op.device, e.op.fingerprint, e.now)]
  {
  }

  lemma InsertOne(ledger: Ledger.State, e: Ledger.Event)
    requires Ledger.RowsKnown(ledger) && Ledger.NoClashes(ledger.rows) && Ledger.Enabled(ledger, e) && e.op.Insert?
    ensures var after := Ledger.Next(ledger, e);
            && Ledger.RowsKnown(after) && Ledger.NoClashes(after.rows)
            && after.clock == e.now && after.ever == ledger.ever + {e.op.id}
            && OnlyAdds(ledger, after, e.op.message)
  {
    RowsAfterInsert(ledger.rows, e);
    Ledger.StaysClashFree(ledger.rows, e);
  }

  /** What a list of inserts leaves: the old rows as they were, and new ones of the message alone. */
  ghost predicate OnlyAdds(before: Ledger.State, after: Ledger.State, message: MessageId) {
    && before.ever <= after.ever
    && (forall d | d in before.rows :: d in after.rows && after.rows[d] == before.rows[d])
    && (forall d | d in after.rows && d !in before.rows ::
          after.rows[d].message == message && d !in before.ever && d in after.ever)
  }

  lemma InsertStep(ledger: Ledger.State, before: Ledger.State, e: Ledger.Event)
    requires Ledger.Enabled(before, e) && e.op.Insert?
    requires OnlyAdds(ledger, before, e.op.message) && Ledger.RowsKnown(before) && Ledger.NoClashes(before.rows)
    ensures var after := Ledger.Next(before, e);
            && Ledger.RowsKnown(after) && Ledger.NoClashes(after.rows) && after.clock == e.now
            && after.ever == before.ever + {e.op.id} && OnlyAdds(ledger, after, e.op.message)
  {
    InsertOne(before, e);
    AddsOn(ledger, before, Ledger.Next(before, e), e.op.message);
  }

  lemma {:induction false} InsertAllOnlyAdds(ledger: Ledger.State, message: MessageId, targets: seq<Target>, now: int)
    requires Ledger.RowsKnown(ledger) && Ledger.NoClashes(ledger.rows)
    requires now >= ledger.clock && FreshTargets(ledger.ever, targets)
    ensures var after := InsertAll(ledger, message, targets, now);
            && Ledger.RowsKnown(after) && Ledger.NoClashes(after.rows) && now >= after.clock && after.ever == ledger.ever + Ids(targets)
            && OnlyAdds(ledger, after, message)
    decreases |targets|
  {
    if targets != [] {
      var front, t := targets[..|targets| - 1], targets[|targets| - 1];
      var before := InsertAll(ledger, message, front, now);
      InsertAllOnlyAdds(ledger, message, front, now);
      InsertStep(ledger, before, Ledger.Event(Ledger.Insert(t.delivery, message, t.device, t.fingerprint), now));
    }
  }

  lemma AddsOn(a: Ledger.State, b: Ledger.State, c: Ledger.State, message: MessageId)
    requires OnlyAdds(a, b, message) && OnlyAdds(b, c, message)
    ensures OnlyAdds(a, c, message)
  {
  }

  lemma LedgerMoves(s: State, e: Event)
    requires BirthsOk(s) && Enabled(s, e)
    ensures LedgerAfter(s, e).clock == e.now && s.ledger.ever <= LedgerAfter(s, e).ever
    ensures Commits(s, e) ==>
              && Ledger.NoClashes(LedgerAfter(s, e).rows)
              && OnlyAdds(s.ledger, LedgerAfter(s, e), s.outbox[e.op.c.event].message)
  {
    if Commits(s, e) {
      BirthsKeepRowsApart(s);
      InsertAllOnlyAdds(s.ledger, s.outbox[e.op.c.event].message, e.op.targets, e.now);
    }
  }

  /** Apart from a materialisation, no event adds a row or changes what a row is for. */
  lemma LedgerOnlyDrops(s: State, e: Event)
    requires Enabled(s, e) && !Commits(s, e)
    ensures forall d | d in LedgerAfter(s, e).rows :: d in s.ledger.rows && BirthOf(LedgerAfter(s, e).rows[d]) == BirthOf(s.ledger.rows[d])
  {
    if e.op.OnLedger? {
      var x := Ledger.Event(e.op.op, e.now);
      forall d | d in LedgerAfter(s, e).rows ensures d in s.ledger.rows && BirthOf(LedgerAfter(s, e).rows[d]) == BirthOf(s.ledger.rows[d]) {
        Ledger.RowAfterKeepsDelivery(d, s.ledger.rows[d], x);
      }
    }
  }

  /** Nothing was born for a message whose event has not been materialised. */
  lemma NothingBornBefore(s: State, e: Event, d: DeliveryId)
    requires Inv(s) && Enabled(s, e) && Commits(s, e) && d in s.born
    ensures s.born[d].message != s.outbox[e.op.c.event].message
  {
    CommitIsFirst(s, e);
  }

  /** The births that a materialisation of a message without births adds keep all births distinct. */
  lemma AddedBirths(born: map<DeliveryId, Birth>, before: Ledger.State, after: Ledger.State, message: MessageId)
    requires OnlyAdds(before, after, message) && Ledger.NoClashes(after.rows) && DistinctBirths(born)
    requires forall d | d in born :: d in before.ever && born[d].message != message
    requires forall d | d in before.rows :: d in born && born[d] == BirthOf(before.rows[d])
    ensures var all := born + Births(before.rows, after.rows);
            && DistinctBirths(all)
            && (forall d | d in after.rows :: d in all && all[d] == BirthOf(after.rows[d]))
            && (forall d | d in all :: d in after.ever)
            && (forall d | d in all && d in born :: all[d] == born[d])
            && (forall d | d in all && d !in born :: all[d].message == message)
  {
    var all := born + Births(before.rows, after.rows);
    forall d | d in all
      ensures if d in born then all[d] == born[d] else d in after.rows && all[d] == BirthOf(after.rows[d]) && all[d].message == message
    {
    }
    forall d, f | d in all && f in all && d != f && all[d].message == all[f].message
      ensures all[d].device != all[f].device && all[d].fingerprint != all[f].fingerprint
    {
      if d !in born {
        assert !Ledger.Clashes(after.rows[d], after.rows[f].message, after.rows[f].device, after.rows[f].fingerprint);
      }
    }
  }

  lemma CommitKeepsBirths(s: State, e: Event)
    requires Inv(s) && Enabled(s, e) && Commits(s, e)
    ensures BirthsOk(Next(s, e))
  {
    var m, after := s.outbox[e.op.c.event].message, LedgerAfter(s, e);
    LedgerMoves(s, e);
    forall d | d in s.born ensures s.born[d].message != m {
      NothingBornBefore(s, e, d);
    }
    AddedBirths(s.born, s.ledger, after, m);
    BirthsCounted(s, e);
  }

  /** The event's own count goes from none to one, and the others stay. */
  lemma CommitsAfter(s: State, e: Event, id: EventId)
    requires CommitsOk(s) && Commits(s, e)
    ensures CommitsOf(Next(s, e), id) == if id == e.op.c.event then 1 else CommitsOf(s, id)
  {
    CommitIsFirst(s, e);
  }

  lemma BirthCounted(s: State, e: Event, d: DeliveryId)
    requires MessagesOk(s) && CommitsOk(s) && BirthsOk(s) && Commits(s, e) && d in Next(s, e).born
    requires if d in s.born then Next(s, e).born[d] == s.born[d]
             else Next(s, e).born[d].message == s.outbox[e.op.c.event].message
    ensures var m := Next(s, e).born[d].message; m in s.eventOf && CommitsOf(Next(s, e), s.eventOf[m]) == 1
  {
    CommitIsFirst(s, e);
    CommitsAfter(s, e, s.eventOf[Next(s, e).born[d].message]);
  }

  lemma BirthsCounted(s: State, e: Event)
    requires MessagesOk(s) && CommitsOk(s) && BirthsOk(s) && Commits(s, e)
    requires forall d | d in Next(s, e).born ::
               if d in s.born then Next(s, e).born[d] == s.born[d]
               else Next(s, e).born[d].message == s.outbox[e.op.c.event].message
    ensures forall d | d in Next(s, e).born ::
              var m := Next(s, e).born[d].message; m in Next(s, e).eventOf && CommitsOf(Next(s, e), Next(s, e).eventOf[m]) == 1
  {
    assert Next(s, e).eventOf == s.eventOf;
    forall d | d in Next(s, e).born
      ensures var m := Next(s, e).born[d].message; m in s.eventOf && CommitsOf(Next(s, e), s.eventOf[m]) == 1
    {
      BirthCounted(s, e, d);
    }
  }

  lemma QuietKeepsBirths(s: State, e: Event)
    requires Inv(s) && Enabled(s, e) && !Commits(s, e)
    ensures BirthsOk(Next(s, e))
  {
    LedgerMoves(s, e);
    LedgerOnlyDrops(s, e);
  }

  lemma EventKeepsInv(s: State, e: Event)
    requires Inv(s) && Enabled(s, e)
    ensures Inv(Next(s, e))
  {
    EventKeepsMessages(s, e);
    EventKeepsIntents(s, e);
    EventKeepsCommits(s, e);
    if Commits(s, e) {
      CommitKeepsBirths(s, e);
    } else {
      QuietKeepsBirths(s, e);
    }
  }

  lemma StartIsOk(states: seq<State>, events: seq<Event>)
    requires Run(states, events)
    ensures Inv(states[0])
  {
    var s := states[0];
    assert MessagesOk(s) && IntentsOk(s);
    assert CommitsOk(s) && BirthsOk(s);
  }

  lemma MomentKeepsInv(states: seq<State>, events: seq<Event>, n: nat)
    requires Run(states, events) && 0 < n <= |events| && Inv(states[n - 1])
    ensures Inv(states[n])
  {
    assert Moves(states, events, n - 1);
    EventKeepsInv(states[n - 1], events[n - 1]);
  }

  lemma {:induction false} RunKeepsInv(states: seq<State>, events: seq<Event>, n: nat)
    requires Run(states, events) && n <= |events|
    ensures Inv(states[n])
  {
    if n == 0 {
      StartIsOk(states, events);
    } else {
      RunKeepsInv(states, events, n - 1);
      MomentKeepsInv(states, events, n);
    }
  }
}
