/** What holds over whole executions of the delivered events and their dispatcher. */
module DeliveredCoverage {
  import opened Basics
  import Cursors = ChatCursors
  import opened DeliveredOutbox
  import opened OutboxInvariants

  lemma {:induction false} AdvancesStay(states: seq<State>, steps: seq<Step>, i: nat, j: nat, r: Cursors.Range)
    requires Execution(states, steps) && i <= j <= |steps| && r in states[i].advances
    ensures r in states[j].advances
  {
    if i < j {
      AdvancesStay(states, steps, i, j - 1, r);
      assert Moved(states, steps, j - 1);
    }
  }

  /**
    After an advance over another's live message, at every later moment some event of the
    member covers the range from its start to its end, unless that event was cleaned up.
   */
  lemma AdvanceStaysCovered(states: seq<State>, steps: seq<Step>, i: nat, j: nat)
    requires Execution(states, steps) && i < j <= |steps|
    requires steps[i].op.Advance? && OthersIn(states[i].messages, states[i].actor, steps[i].op.range)
    ensures Covered(states[j], steps[i].op.range)
  {
    assert Moved(states, steps, i);
    AdvancesStay(states, steps, i + 1, j, steps[i].op.range);
    ExecutionKeepsInv(states, steps, j);
  }

  /** A published event was dispatched with the range that its row has, or withheld from everybody. */
  lemma PublishedWithFinalRange(states: seq<State>, steps: seq<Step>, n: nat, id: EventId)
    requires Execution(states, steps) && n <= |steps|
    ensures id in states[n].rows && states[n].rows[id].status.Published? ==> TrueOutcome(states[n], id, states[n].rows[id])
    ensures id in states[n].gone && states[n].gone[id].status.Published? ==> TrueOutcome(states[n], id, states[n].gone[id])
  {
    ExecutionKeepsInv(states, steps, n);
  }

  lemma SettledStep(s: State, e: Step, id: EventId)
    requires Inv(s) && Enabled(s, e) && id in s.rows && (s.rows[id].status.Published? || s.rows[id].status.Dead?)
    ensures (id in Next(s, e).rows && Next(s, e).rows[id] == s.rows[id]) || (id in Next(s, e).gone && Next(s, e).gone[id] == s.rows[id])
  {
    match e.op
    case Advance(_, _) => AdvanceFrame(s, e, id);
    case Claim(_) =>
    case Clean(_) =>
    case MarkPublished => MarkFrame(s, e, id);
    case MarkFailed => MarkFrame(s, e, id);
    case _ => OtherKeepsRows(s, e);
  }

  /** A mark writes on an event in processing only. */
  lemma MarkFrame(s: State, e: Step, id: EventId)
    requires Enabled(s, e) && (e.op.MarkPublished? || e.op.MarkFailed?) && id in s.rows && !s.rows[id].status.Processing?
    ensures id in Next(s, e).rows && Next(s, e).rows[id] == s.rows[id]
  {
  }

  lemma GoneStep(s: State, e: Step, id: EventId)
    requires Inv(s) && Enabled(s, e) && id in s.gone
    ensures id in Next(s, e).gone && Next(s, e).gone[id] == s.gone[id]
  {
    StepKeepsRows(s, e);
  }

  ghost predicate SettledAs(s: State, id: EventId, row: Row) {
    (id in s.rows && s.rows[id] == row) || (id in s.gone && s.gone[id] == row)
  }

  /** That range is final: a published or dead event is never widened, claimed or marked again. */
  lemma {:induction false} SettledIsFinal(states: seq<State>, steps: seq<Step>, i: nat, j: nat, id: EventId)
    requires Execution(states, steps) && i <= j <= |steps| && id in states[i].rows
    requires states[i].rows[id].status.Published? || states[i].rows[id].status.Dead?
    ensures SettledAs(states[j], id, states[i].rows[id])
  {
    if i < j {
      SettledIsFinal(states, steps, i, j - 1, id);
      ExecutionKeepsInv(states, steps, j - 1);
      assert Moved(states, steps, j - 1);
      var s := states[j - 1];
      if id in s.rows && s.rows[id] == states[i].rows[id] {
        SettledStep(s, steps[j - 1], id);
      } else {
        GoneStep(s, steps[j - 1], id);
      }
    }
  }

  /**
    What is sent for an event reaches every recipient with a live message in a covered range,
    as far back as the newest five hundred sequences, and nobody without one.
   */
  lemma SentReachesSenders(s: State, row: Row, r: Cursors.Range, recipients: set<string>)
    requires Covers(row, r)
    ensures var to := OutcomeOf(s, row, recipients).to;
            && (forall k | k in OthersOf(s.messages, s.actor, r) && k > row.sequence - SCAN_LIMIT && s.messages[k].sender in recipients ::
                  s.messages[k].sender in to)
            && (forall a | a in to ::
                  a in recipients && a != s.actor
                  && exists k :: k in OthersOf(s.messages, s.actor, Cursors.Range(row.rangeStart.value, row.sequence)) && s.messages[k].sender == a)
  {
    var to := OutcomeOf(s, row, recipients).to;
    forall k | k in OthersOf(s.messages, s.actor, r) && k > row.sequence - SCAN_LIMIT && s.messages[k].sender in recipients
      ensures s.messages[k].sender in to
    {
      assert k in OthersOf(s.messages, s.actor, Scanned(row));
    }
    forall a | a in to
      ensures exists k :: k in OthersOf(s.messages, s.actor, Cursors.Range(row.rangeStart.value, row.sequence)) && s.messages[k].sender == a
    {
      var k :| k in OthersOf(s.messages, s.actor, Scanned(row)) && s.messages[k].sender == a;
      assert k in OthersOf(s.messages, s.actor, Cursors.Range(row.rangeStart.value, row.sequence));
    }
  }

  // ----- From the advance to the senders --------------------------------------------------------------

  ghost predicate Exists(s: State, id: EventId) {
    id in s.rows || id in s.gone
  }

  /** The event as it is, or as it was cleaned up. */
  ghost function EventOf(s: State, id: EventId): Row
    requires Exists(s, id)
  {
    if id in s.rows then s.rows[id] else s.gone[id]
  }

  /** Step `d` dispatches the event, and does not fail. */
  ghost predicate Dispatches(s: State, e: Step, id: EventId) {
    e.op.Dispatch? && !e.op.reply.Fails? && s.phase.Dispatching? && s.phase.queue != [] && s.phase.queue[0].id == id
  }

  ghost function OutcomeAt(s: State, e: Step): Outcome
    requires e.op.Dispatch? && s.phase.Dispatching? && s.phase.queue != []
  {
    if e.op.reply.Delivered? then OutcomeOf(s, s.phase.queue[0].row, e.op.reply.recipients) else Withheld
  }

  /** The outcome of the event at moment `n` is that of a dispatch since moment `i`. */
  ghost predicate DispatchedSince(states: seq<State>, steps: seq<Step>, i: nat, n: nat, d: nat, id: EventId)
    requires n <= |steps| < |states|
  {
    && i < d < n && Dispatches(states[d], steps[d], id)
    && id in states[n].outcomes && states[n].outcomes[id] == OutcomeAt(states[d], steps[d])
  }

  /** An event that is about to be marked as published, or is published, was dispatched since. */
  ghost predicate FollowedUp(states: seq<State>, steps: seq<Step>, i: nat, n: nat, id: EventId)
    requires n <= |steps| < |states|
  {
    && Exists(states[n], id)
    && ((states[n].phase.Marking? && states[n].phase.event.id == id) || EventOf(states[n], id).status.Published? ==>
          exists d: nat :: DispatchedSince(states, steps, i, n, d, id))
  }

  lemma MarkingStep(s: State, e: Step, id: EventId)
    requires Enabled(s, e)
    ensures Next(s, e).phase.Marking? && Next(s, e).phase.event.id == id ==>
              (s.phase.Marking? && s.phase.event.id == id) || Dispatches(s, e, id)
  {
    match e.op
    case Dispatch(reply) =>
    case MarkPublished =>
    case MarkFailed =>
    case _ => SamePhase(s, e);
  }

  lemma SamePhase(s: State, e: Step)
    requires Enabled(s, e) && !e.op.Dispatch? && !e.op.MarkPublished? && !e.op.MarkFailed?
    ensures Next(s, e).phase == s.phase || !Next(s, e).phase.Marking?
  {
  }

  lemma PublishedRow(s: State, e: Step, id: EventId)
    requires RowsOk(s) && Enabled(s, e) && id in s.rows && id in Next(s, e).rows && Next(s, e).rows[id].status.Published?
    ensures s.rows[id].status.Published? || (e.op.MarkPublished? && s.phase.event.id == id)
  {
    match e.op
    case Advance(_, _) => AdvanceFrame(s, e, id);
    case Claim(_) =>
    case Clean(_) =>
    case MarkPublished =>
    case MarkFailed =>
    case _ => OtherKeepsRows(s, e);
  }

  lemma PublishedStep(s: State, e: Step, id: EventId)
    requires Inv(s) && Enabled(s, e) && Exists(s, id)
    ensures Exists(Next(s, e), id)
    ensures EventOf(Next(s, e), id).status.Published? ==>
              EventOf(s, id).status.Published? || (e.op.MarkPublished? && s.phase.event.id == id)
  {
    StepKeepsInv(s, e);
    StepKeepsRows(s, e);
    if id in s.rows && id in Next(s, e).rows && Next(s, e).rows[id].status.Published? {
      PublishedRow(s, e, id);
    }
  }

  lemma OutcomeStep(s: State, e: Step, id: EventId)
    requires Inv(s) && Enabled(s, e)
    ensures Dispatches(s, e, id) ==> id in Next(s, e).outcomes && Next(s, e).outcomes[id] == OutcomeAt(s, e)
    ensures !Dispatches(s, e, id) && id in s.outcomes ==> id in Next(s, e).outcomes && Next(s, e).outcomes[id] == s.outcomes[id]
    ensures Dispatches(s, e, id) ==> id in s.rows && s.rows[id].status.Processing? && s.phase.Dispatching?
  {
    if e.op.Dispatch? {
      HeadIsProcessing(s);
    }
  }

  lemma FollowUpStep(states: seq<State>, steps: seq<Step>, i: nat, n: nat, id: EventId)
    requires Execution(states, steps) && i < n < |steps| && FollowedUp(states, steps, i, n, id)
    ensures FollowedUp(states, steps, i, n + 1, id)
  {
    var s, e := states[n], steps[n];
    ExecutionKeepsInv(states, steps, n);
    assert Moved(states, steps, n);
    PublishedStep(s, e, id);
    MarkingStep(s, e, id);
    OutcomeStep(s, e, id);
    if Dispatches(s, e, id) {
      assert DispatchedSince(states, steps, i, n + 1, n, id);
    } else if (s.phase.Marking? && s.phase.event.id == id) || EventOf(s, id).status.Published? {
      var d: nat :| DispatchedSince(states, steps, i, n, d, id);
      assert DispatchedSince(states, steps, i, n + 1, d, id);
    }
  }

  lemma {:induction false} PendingIsFollowedUp(states: seq<State>, steps: seq<Step>, i: nat, n: nat, id: EventId)
    requires Execution(states, steps) && i < n <= |steps|
    requires id in states[i + 1].rows && states[i + 1].rows[id].status.Pending?
    ensures FollowedUp(states, steps, i, n, id)
  {
    if n == i + 1 {
      ExecutionKeepsInv(states, steps, n);
      if states[n].phase.Marking? {
        HeadIsProcessing(states[n]);
      }
    } else {
      PendingIsFollowedUp(states, steps, i, n - 1, id);
      FollowUpStep(states, steps, i, n - 1, id);
    }
  }

  lemma {:induction false} EventKeepsRange(states: seq<State>, steps: seq<Step>, i: nat, n: nat, id: EventId, r: Cursors.Range)
    requires Execution(states, steps) && i <= n <= |steps| && Exists(states[i], id) && Covers(EventOf(states[i], id), r)
    ensures Exists(states[n], id) && Covers(EventOf(states[n], id), r)
  {
    if i < n {
      EventKeepsRange(states, steps, i, n - 1, id, r);
      ExecutionKeepsInv(states, steps, n - 1);
      ExecutionKeepsInv(states, steps, n);
      assert Moved(states, steps, n - 1);
      StepKeepsRows(states[n - 1], steps[n - 1]);
    }
  }

  /** An advance over another's live message leaves an event pending that covers it. */
  lemma AdvanceIsPending(states: seq<State>, steps: seq<Step>, i: nat) returns (id: EventId)
    requires Execution(states, steps) && i < |steps|
    requires steps[i].op.Advance? && OthersIn(states[i].messages, states[i].actor, steps[i].op.range)
    ensures id in states[i + 1].rows && states[i + 1].rows[id].status.Pending? && Covers(states[i + 1].rows[id], steps[i].op.range)
  {
    assert Moved(states, steps, i);
    var s := states[i];
    if HasPending(s.rows) {
      id :| id in s.rows && s.rows[id].status.Pending?;
    } else {
      id := steps[i].op.id;
    }
  }

  /** Everybody whom the dispatch took for a recipient, and who then had a live message in the range, was told. */
  ghost predicate TellsSenders(s: State, e: Step, r: Cursors.Range, floor: int, to: set<string>) {
    && e.op.Dispatch? && e.op.reply.Delivered?
    && forall k | k in OthersOf(s.messages, s.actor, r) && k > floor && s.messages[k].sender in e.op.reply.recipients ::
         s.messages[k].sender in to
  }

  /**
    End to end: an advance over another's live message leaves a pending event that covers its
    range and goes on to cover it. Once that event is published, it was dispatched since the
    advance, and unless it was withheld from everybody, each recipient with a live message in
    the range, within the event's newest five hundred sequences, was told.
   */
  lemma AdvanceIsTold(states: seq<State>, steps: seq<Step>, i: nat, n: nat) returns (id: EventId)
    requires Execution(states, steps) && i < n <= |steps|
    requires steps[i].op.Advance? && OthersIn(states[i].messages, states[i].actor, steps[i].op.range)
    ensures id in states[i + 1].rows && states[i + 1].rows[id].status.Pending?
    ensures Exists(states[n], id) && Covers(EventOf(states[n], id), steps[i].op.range)
    ensures EventOf(states[n], id).status.Published? ==>
              && id in states[n].outcomes
              && exists d: nat :: i < d < n && Dispatches(states[d], steps[d], id)
                   && (states[n].outcomes[id].Withheld?
                       || TellsSenders(states[d], steps[d], steps[i].op.range, EventOf(states[n], id).sequence - SCAN_LIMIT, states[n].outcomes[id].to))
  {
    var r := steps[i].op.range;
    id := AdvanceIsPending(states, steps, i);
    EventKeepsRange(states, steps, i + 1, n, id, r);
    PendingIsFollowedUp(states, steps, i, n, id);
    PublishedWithFinalRange(states, steps, n, id);
    if EventOf(states[n], id).status.Published? {
      var d: nat :| DispatchedSince(states, steps, i, n, d, id);
      if states[n].outcomes[id].Sent? {
        var row := states[d].phase.queue[0].row;
        assert row.sequence == EventOf(states[n], id).sequence && Covers(row, r);
        SentReachesSenders(states[d], row, r, steps[d].op.reply.recipients);
        assert TellsSenders(states[d], steps[d], r, row.sequence - SCAN_LIMIT, states[n].outcomes[id].to);
      }
    }
  }

  // ----- Bounds -----------------------------------------------------------------------------------------

  lemma {:induction false} IntervalSize(keys: set<Cursors.Sequence>, after: nat, n: nat)
    requires forall k | k in keys :: after < k <= after + n
    ensures |keys| <= n
  {
    if n > 0 {
      IntervalSize(keys - {after + n}, after, n - 1);
      assert keys <= (keys - {after + n}) + {after + n};
    } else {
      assert keys == {};
    }
  }

  lemma {:induction false} ImageSize(messages: Cursors.Messages, keys: set<Cursors.Sequence>)
    requires keys <= messages.Keys
    ensures |set k | k in keys :: messages[k].sender| <= |keys|
  {
    if x :| x in keys {
      var rest := keys - {x};
      ImageSize(messages, rest);
      assert (set k | k in keys :: messages[k].sender) == (set k | k in rest :: messages[k].sender) + {messages[x].sender};
    } else {
      assert keys == {};
    }
  }

  /** The scan's limit of five hundred senders never cuts any off. */
  lemma ScanLimitCutsNothing(messages: Cursors.Messages, actor: string, row: Row)
    ensures |Senders(messages, actor, Scanned(row))| <= SCAN_LIMIT
  {
    var others := OthersOf(messages, actor, Scanned(row));
    IntervalSize(others, if row.sequence >= SCAN_LIMIT then row.sequence - SCAN_LIMIT else 0, SCAN_LIMIT);
    ImageSize(messages, others);
    assert Senders(messages, actor, Scanned(row)) == set k | k in others :: messages[k].sender;
  }

  /** A pending event has had fewer than twenty attempts, and a failed one is dead exactly from its twentieth claim on. */
  lemma EventsEndAtTwenty(states: seq<State>, steps: seq<Step>, n: nat)
    requires Execution(states, steps) && n <= |steps|
    ensures forall id | id in states[n].rows && states[n].rows[id].status.Pending? :: states[n].rows[id].attempts < MAX_ATTEMPTS
    ensures n < |steps| && steps[n].op.MarkFailed? && states[n].phase.Failing? ==>
              var id := states[n].phase.failed.id;
              && id in states[n].rows && id in states[n + 1].rows
              && states[n + 1].rows[id].status == if states[n].rows[id].attempts >= MAX_ATTEMPTS then Dead else Pending
  {
    ExecutionKeepsInv(states, steps, n);
    if n < |steps| && steps[n].op.MarkFailed? {
      assert Moved(states, steps, n);
      HeadIsProcessing(states[n]);
    }
  }
}
