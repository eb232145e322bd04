/**
  What every step of the delivered events keeps: each range that was advanced over another's
  live message is covered by some event, since events only ever grow wider until they are
  settled; the rows of a batch stay as they were claimed until they are marked, since only
  pending rows are widened and only settled ones are cleaned up; and a published event has
  the outcome that was recorded with its final range.
 */
module OutboxInvariants {
  import opened Basics
  import Cursors = ChatCursors
  import opened DeliveredOutbox

  predicate Covers(row: Row, r: Cursors.Range) {
    row.rangeStart.Some? && row.rangeStart.value <= r.after && r.upTo <= row.sequence
  }

  ghost predicate Covered(s: State, r: Cursors.Range) {
    || (exists id :: id in s.rows && Covers(s.rows[id], r))
    || (exists id :: id in s.gone && Covers(s.gone[id], r))
  }

  /** The events of a batch that were not marked yet. */
  function Batch(phase: Phase): seq<Claimed> {
    match phase
    case Idle => []
    case Loading(_) => []
    case Dispatching(queue) => queue
    case Marking(event, rest) => [event] + rest
    case Failing(event, rest) => [event] + rest
  }

  ghost predicate BatchOk(s: State) {
    && (forall i | 0 <= i < |Batch(s.phase)| ::
          var c := Batch(s.phase)[i]; c.id in s.rows && s.rows[c.id] == c.row && c.row.status.Processing?)
    && (forall i, j | 0 <= i < j < |Batch(s.phase)| :: Batch(s.phase)[i].id != Batch(s.phase)[j].id)
    && (s.phase.Loading? ==> forall id | id in s.phase.ids :: id in s.rows && s.rows[id].status.Processing?)
  }

  /** The outcome of an event, if it was sent, was sent with the range that its row has. */
  ghost predicate TrueOutcome(s: State, id: EventId, row: Row) {
    id in s.outcomes && (s.outcomes[id].Sent? ==> s.outcomes[id].sequence == row.sequence && s.outcomes[id].rangeStart == row.rangeStart)
  }

  ghost predicate RowsOk(s: State) {
    && (forall id | id in s.rows && s.rows[id].status.Pending? :: s.rows[id].attempts < MAX_ATTEMPTS)
    && (forall id | id in s.rows && s.rows[id].status.Published? :: TrueOutcome(s, id, s.rows[id]))
    && (forall id | id in s.gone && s.gone[id].status.Published? :: TrueOutcome(s, id, s.gone[id]))
    && (forall id | id in s.gone :: id !in s.rows)
    && (s.phase.Marking? ==> TrueOutcome(s, s.phase.event.id, s.phase.event.row))
  }

  ghost predicate Inv(s: State) {
    BatchOk(s) && RowsOk(s) && forall r | r in s.advances :: Covered(s, r)
  }

  lemma WidenedCovers(row: Row, r: Cursors.Range, q: Cursors.Range)
    ensures Covers(Widened(row, r), r)
    ensures Covers(row, q) ==> Covers(Widened(row, r), q)
  {
  }

  lemma QueuedCovers(rows: Rows, r: Cursors.Range, id: EventId, now: int)
    requires id !in rows
    ensures exists k :: k in Queued(rows, r, id, now) && Covers(Queued(rows, r, id, now)[k], r)
    ensures forall k | k in rows :: k in Queued(rows, r, id, now) && Wider(rows[k], Queued(rows, r, id, now)[k])
    ensures forall k | k in rows && !rows[k].status.Pending? :: Queued(rows, r, id, now)[k] == rows[k]
  {
    var after := Queued(rows, r, id, now);
    if HasPending(rows) {
      var k :| k in rows && rows[k].status.Pending?;
      WidenedCovers(rows[k], r, r);
      assert k in after && Covers(after[k], r);
    } else {
      assert id in after && Covers(after[id], r);
    }
  }

  /** A row may be widened, claimed and marked, but its range never shrinks. */
  ghost predicate Keeps(s: State, s': State) {
    && (forall id | id in s.rows :: (id in s'.rows && Wider(s.rows[id], s'.rows[id])) || (id in s'.gone && s'.gone[id] == s.rows[id]))
    && (forall id | id in s.gone :: id in s'.gone && s'.gone[id] == s.gone[id])
  }

  ghost predicate Wider(a: Row, b: Row) {
    a.sequence <= b.sequence && (a.rangeStart.Some? ==> b.rangeStart.Some? && b.rangeStart.value <= a.rangeStart.value)
  }

  lemma AdvanceKeepsRows(s: State, e: Step)
    requires Enabled(s, e) && e.op.Advance?
    ensures Keeps(s, Next(s, e))
  {
    QueuedCovers(s.rows, e.op.range, e.op.id, e.now);
  }

  lemma ClaimKeepsRows(s: State, e: Step)
    requires Enabled(s, e) && e.op.Claim?
    ensures Keeps(s, Next(s, e))
  {
  }

  lemma CleanKeepsRows(s: State, e: Step)
    requires Enabled(s, e) && e.op.Clean? && forall id | id in s.gone :: id !in s.rows
    ensures Keeps(s, Next(s, e))
  {
  }

  lemma MarkKeepsRows(s: State, e: Step)
    requires Enabled(s, e) && (e.op.MarkPublished? || e.op.MarkFailed?)
    ensures Keeps(s, Next(s, e))
  {
    if e.op.MarkPublished? {
      PublishedKeepsRows(s, e);
    } else {
      FailedKeepsRows(s, e);
    }
  }

  lemma PublishedKeepsRows(s: State, e: Step)
    requires Enabled(s, e) && e.op.MarkPublished?
    ensures Keeps(s, Next(s, e))
  {
  }

  lemma FailedKeepsRows(s: State, e: Step)
    requires Enabled(s, e) && e.op.MarkFailed?
    ensures Keeps(s, Next(s, e))
  {
  }

  lemma OtherKeepsRows(s: State, e: Step)
    requires Enabled(s, e) && !e.op.Advance? && !e.op.Claim? && !e.op.Clean? && !e.op.MarkPublished? && !e.op.MarkFailed?
    ensures Next(s, e).rows == s.rows && Next(s, e).gone == s.gone
  {
  }

  lemma StepKeepsRows(s: State, e: Step)
    requires Enabled(s, e) && RowsOk(s)
    ensures Keeps(s, Next(s, e))
  {
    match e.op {
      case Advance(_, _) => AdvanceKeepsRows(s, e);
      case Claim(_) => ClaimKeepsRows(s, e);
      case Clean(_) => CleanKeepsRows(s, e);
      case MarkPublished => MarkKeepsRows(s, e);
      case MarkFailed => MarkKeepsRows(s, e);
      case _ => OtherKeepsRows(s, e);
    }
  }

  lemma KeepsCovered(s: State, s': State, r: Cursors.Range)
    requires Keeps(s, s') && Covered(s, r)
    ensures Covered(s', r)
  {
    if id :| id in s.rows && Covers(s.rows[id], r) {
      if id in s'.rows && Wider(s.rows[id], s'.rows[id]) {
        assert Covers(s'.rows[id], r);
      } else {
        assert Covers(s'.gone[id], r);
      }
    } else {
      var id :| id in s.gone && Covers(s.gone[id], r);
      assert Covers(s'.gone[id], r);
    }
  }

  lemma AdvanceIsCovered(s: State, e: Step)
    requires Enabled(s, e) && e.op.Advance? && OthersIn(s.messages, s.actor, e.op.range)
    ensures Covered(Next(s, e), e.op.range)
  {
    QueuedCovers(s.rows, e.op.range, e.op.id, e.now);
  }

  lemma NewAdvance(s: State, e: Step, r: Cursors.Range)
    requires Enabled(s, e) && r in Next(s, e).advances && r !in s.advances
    ensures e.op.Advance? && e.op.range == r && OthersIn(s.messages, s.actor, r)
  {
  }

  lemma StepKeepsCovered(s: State, e: Step, r: Cursors.Range)
    requires RowsOk(s) && Enabled(s, e) && (r in s.advances ==> Covered(s, r)) && r in Next(s, e).advances
    ensures Covered(Next(s, e), r)
  {
    if r in s.advances {
      StepKeepsRows(s, e);
      KeepsCovered(s, Next(s, e), r);
    } else {
      NewAdvance(s, e, r);
      AdvanceIsCovered(s, e);
    }
  }

  // ----- The batch ---------------------------------------------------------------------------------------------

  /** Widening or adding touches pending events only. */
  lemma AdvanceFrame(s: State, e: Step, id: EventId)
    requires RowsOk(s) && Enabled(s, e) && e.op.Advance?
    ensures id in s.rows && !s.rows[id].status.Pending? ==> id in Next(s, e).rows && Next(s, e).rows[id] == s.rows[id]
    ensures id in Next(s, e).rows ==> id !in s.gone
    ensures id in Next(s, e).rows && Next(s, e).rows[id].status.Pending? ==> Next(s, e).rows[id].attempts < MAX_ATTEMPTS
    ensures id in Next(s, e).rows && !Next(s, e).rows[id].status.Pending? ==> id in s.rows && s.rows[id] == Next(s, e).rows[id]
  {
  }

  ghost predicate Widens(s: State, s': State) {
    && s' == s.(rows := s'.rows, advances := s'.advances, clock := s'.clock)
    && forall id ::
         && (id in s.rows && !s.rows[id].status.Pending? ==> id in s'.rows && s'.rows[id] == s.rows[id])
         && (id in s'.rows ==> id !in s.gone && (s'.rows[id].status.Pending? ==> s'.rows[id].attempts < MAX_ATTEMPTS))
         && (id in s'.rows && !s'.rows[id].status.Pending? ==> id in s.rows && s.rows[id] == s'.rows[id])
  }

  lemma AdvanceWidens(s: State, e: Step)
    requires RowsOk(s) && Enabled(s, e) && e.op.Advance?
    ensures Widens(s, Next(s, e))
  {
    var s' := Next(s, e);
    forall id
      ensures id in s.rows && !s.rows[id].status.Pending? ==> id in s'.rows && s'.rows[id] == s.rows[id]
      ensures id in s'.rows ==> id !in s.gone && (s'.rows[id].status.Pending? ==> s'.rows[id].attempts < MAX_ATTEMPTS)
      ensures id in s'.rows && !s'.rows[id].status.Pending? ==> id in s.rows && s.rows[id] == s'.rows[id]
    {
      AdvanceFrame(s, e, id);
    }
  }

  lemma WideningKeepsBatch(s: State, s': State)
    requires BatchOk(s) && RowsOk(s) && Widens(s, s')
    ensures BatchOk(s') && RowsOk(s')
  {
  }

  lemma AdvanceKeepsBatch(s: State, e: Step)
    requires BatchOk(s) && RowsOk(s) && Enabled(s, e) && e.op.Advance?
    ensures BatchOk(Next(s, e)) && RowsOk(Next(s, e))
  {
    AdvanceWidens(s, e);
    WideningKeepsBatch(s, Next(s, e));
  }

  lemma ClaimKeepsBatch(s: State, e: Step)
    requires BatchOk(s) && RowsOk(s) && Enabled(s, e) && (e.op.Claim? || e.op.Load? || e.op.EndCycle?)
    ensures BatchOk(Next(s, e)) && RowsOk(Next(s, e))
  {
    if e.op.Load? {
      var events := e.op.events;
      forall i | 0 <= i < |events| ensures events[i].id in s.rows && events[i].row.status.Processing? {
        assert events[i].id in s.phase.ids;
      }
    }
  }

  lemma HeadIsProcessing(s: State)
    requires BatchOk(s) && Batch(s.phase) != []
    ensures var head := Batch(s.phase)[0]; head.id in s.rows && s.rows[head.id] == head.row && head.row.status.Processing?
  {
  }

  /** Recording the outcome of an event in processing disturbs no outcome of a published one. */
  lemma OutcomeKeepsRows(s: State, head: Claimed, outcome: Outcome, rest: seq<Claimed>)
    requires RowsOk(s) && head.id in s.rows && s.rows[head.id] == head.row && head.row.status.Processing?
    requires outcome.Sent? ==> outcome.sequence == head.row.sequence && outcome.rangeStart == head.row.rangeStart
    ensures RowsOk(s.(outcomes := s.outcomes[head.id := outcome], phase := Marking(head, rest)))
  {
  }

  lemma SameBatch(s: State, s': State)
    requires BatchOk(s) && Batch(s'.phase) == Batch(s.phase) && s'.rows == s.rows && (s'.phase.Loading? ==> s'.phase == s.phase)
    ensures BatchOk(s')
  {
  }

  lemma DispatchKeepsQueue(s: State, e: Step)
    requires BatchOk(s) && Enabled(s, e) && e.op.Dispatch?
    ensures BatchOk(Next(s, e))
  {
    assert [s.phase.queue[0]] + s.phase.queue[1..] == s.phase.queue;
    SameBatch(s, Next(s, e));
  }

  lemma DispatchKeepsBatch(s: State, e: Step)
    requires BatchOk(s) && RowsOk(s) && Enabled(s, e) && e.op.Dispatch?
    ensures BatchOk(Next(s, e)) && RowsOk(Next(s, e))
  {
    var head, rest := s.phase.queue[0], s.phase.queue[1..];
    assert [head] + rest == s.phase.queue;
    HeadIsProcessing(s);
    DispatchKeepsQueue(s, e);
    match e.op.reply
    case Delivered(recipients) => OutcomeKeepsRows(s, head, OutcomeOf(s, head.row, recipients), rest);
    case Denied => OutcomeKeepsRows(s, head, Withheld, rest);
    case Fails =>
  }

  /** What is left of a batch when its first event has been marked. */
  lemma MarkedKeepsBatch(s: State, s': State, head: Claimed, rest: seq<Claimed>, row: Row)
    requires BatchOk(s) && RowsOk(s) && Batch(s.phase) == [head] + rest && !row.status.Processing?
    requires s' == s.(rows := s.rows[head.id := row], phase := Dispatching(rest), clock := s'.clock)
    requires row.status.Pending? ==> row.attempts < MAX_ATTEMPTS
    requires row.status.Published? ==> TrueOutcome(s, head.id, row)
    ensures BatchOk(s') && RowsOk(s')
  {
    assert Batch(s.phase)[0] == head;
    forall i | 0 <= i < |rest| ensures rest[i].id != head.id && rest[i].id in s.rows && s.rows[rest[i].id] == rest[i].row && rest[i].row.status.Processing? {
      assert Batch(s.phase)[i + 1] == rest[i];
    }
    forall i, j | 0 <= i < j < |rest| ensures rest[i].id != rest[j].id {
      assert Batch(s.phase)[i + 1] == rest[i] && Batch(s.phase)[j + 1] == rest[j];
    }
  }

  lemma MarkKeepsBatch(s: State, e: Step)
    requires BatchOk(s) && RowsOk(s) && Enabled(s, e) && (e.op.MarkPublished? || e.op.MarkFailed?)
    ensures BatchOk(Next(s, e)) && RowsOk(Next(s, e))
  {
    var head := Batch(s.phase)[0];
    assert head.id in s.rows && s.rows[head.id] == head.row && head.row.status.Processing?;
    var rest := if s.phase.Marking? then s.phase.rest else s.phase.remaining;
    var row := if e.op.MarkPublished? then head.row.(status := Published, settledAt := Some(e.now), lockedAt := None)
               else Failed(head.row, head.row.attempts, e.now);
    MarkedKeepsBatch(s, Next(s, e), head, rest, row);
  }

  /** Only settled events are cleaned up, and they are kept as they were. */
  lemma CleanFrame(s: State, e: Step, id: EventId)
    requires Enabled(s, e) && e.op.Clean? && id in s.rows
    ensures if id in Next(s, e).rows then Next(s, e).rows[id] == s.rows[id]
            else id in Next(s, e).gone && Next(s, e).gone[id] == s.rows[id] && (s.rows[id].status.Published? || s.rows[id].status.Dead?)
  {
  }

  lemma CleanKeepsOutcomes(s: State, e: Step)
    requires RowsOk(s) && Enabled(s, e) && e.op.Clean?
    ensures RowsOk(Next(s, e))
  {
    var s' := Next(s, e);
    forall id | id in s'.gone ensures id !in s'.rows && (s'.gone[id].status.Published? ==> TrueOutcome(s', id, s'.gone[id])) {
      if id in s.rows {
        CleanFrame(s, e, id);
      }
    }
  }

  lemma CleanKeepsBatch(s: State, e: Step)
    requires BatchOk(s) && RowsOk(s) && Enabled(s, e) && e.op.Clean?
    ensures BatchOk(Next(s, e)) && RowsOk(Next(s, e))
  {
    CleanKeepsOutcomes(s, e);
    var s' := Next(s, e);
    forall id | id in s.rows && s.rows[id].status.Processing? ensures id in s'.rows && s'.rows[id] == s.rows[id] {
      CleanFrame(s, e, id);
    }
  }

  lemma MessageKeepsBatch(s: State, e: Step)
    requires BatchOk(s) && RowsOk(s) && Enabled(s, e) && (e.op.Post? || e.op.Delete?)
    ensures BatchOk(Next(s, e)) && RowsOk(Next(s, e))
  {
    SameBatch(s, Next(s, e));
  }

  lemma RefusedKeepsBatch(s: State, e: Step)
    requires BatchOk(s) && RowsOk(s) && Enabled(s, e) && e.op.MarkRefused?
    ensures BatchOk(Next(s, e)) && RowsOk(Next(s, e))
  {
    SameBatch(s, Next(s, e));
  }

  lemma StepKeepsInv(s: State, e: Step)
    requires Inv(s) && Enabled(s, e)
    ensures Inv(Next(s, e))
  {
    match e.op {
      case Advance(_, _) => AdvanceKeepsBatch(s, e);
      case Claim(_) => ClaimKeepsBatch(s, e);
      case Load(_) => ClaimKeepsBatch(s, e);
      case EndCycle => ClaimKeepsBatch(s, e);
      case Dispatch(_) => DispatchKeepsBatch(s, e);
      case MarkRefused => RefusedKeepsBatch(s, e);
      case MarkPublished => MarkKeepsBatch(s, e);
      case MarkFailed => MarkKeepsBatch(s, e);
      case Clean(_) => CleanKeepsBatch(s, e);
      case _ => MessageKeepsBatch(s, e);
    }
    forall r | r in Next(s, e).advances ensures Covered(Next(s, e), r) {
      StepKeepsCovered(s, e, r);
    }
  }

  lemma {:induction false} ExecutionKeepsInv(states: seq<State>, steps: seq<Step>, n: nat)
    requires Execution(states, steps) && n <= |steps|
    ensures Inv(states[n])
  {
    if n > 0 {
      ExecutionKeepsInv(states, steps, n - 1);
      assert Moved(states, steps, n - 1);
      StepKeepsInv(states[n - 1], steps[n - 1]);
    }
  }
}
