/** Every delivery that is not settled can be claimed again soon. */
module LedgerProgress {
  import opened Basics
  import opened PushLedger

  /** From when on the row can be claimed: its own time, or more than thirty seconds after the claim that it is under. */
  function ReadyAt(row: Row): int {
    match row.status
    case Pending => row.availableAt
    case Processing => row.lockedAt.GetOr(0) + 30_001
    case TicketAccepted => row.receiptAt.GetOr(0)
    case _ => 0
  }

  /** A claim of the row alone, to send it as long as it has no ticket and else to poll it. */
  function ClaimOf(id: DeliveryId, row: Row, token: Token, now: int): Event {
    Event(if row.ticket.None? then ClaimSend({id}, token) else ClaimReceipts({id}, token), now)
  }

  function Open(row: Row): bool {
    row.status == Pending || row.status == Processing || row.status == TicketAccepted
  }

  /** A claim takes a row that is not settled exactly from that time on, and a settled one never. */
  lemma NothingStranded(states: seq<State>, events: seq<Event>, n: nat, id: DeliveryId, token: Token, now: int)
    requires Run(states, events) && n <= |events| && id in states[n].rows
    ensures var row, after := states[n].rows[id], RowsAfter(states[n].rows, ClaimOf(id, states[n].rows[id], token, now));
            && id in after
            && after[id] == (if Open(row) && ReadyAt(row) <= now
                             then row.(status := Processing, lockedAt := Some(now), claim := Some(token),
                                       attempts := row.attempts + (if row.ticket.None? then 1 else 0),
                                       receiptAttempts := row.receiptAttempts + (if row.ticket.None? then 0 else 1))
                             else row)
  {
    RunKeepsInv(states, events, n);
  }

  // ----- The wait is bounded ------------------------------------------------------------------------

  /** A minute before the row is sent, an hour before it is polled. */
  function Patience(row: Row): int {
    if row.ticket.None? then 60_000 else 3_600_000
  }

  ghost predicate Timely(row: Row, clock: int) {
    Open(row) ==> ReadyAt(row) <= clock + Patience(row)
  }

  lemma WaitsAreShort(n: nat)
    ensures 0 <= Backoff(n) <= 60_000 && 0 <= PollDelay(n) <= 3_600_000
  {
  }

  lemma TimelyRow(s: State, e: Event, id: DeliveryId)
    requires Inv(s) && Enabled(s, e) && id in s.rows && Timely(s.rows[id], s.clock)
    ensures Timely(RowAfter(id, s.rows[id], e), e.now)
  {
    if e.op.Retry? {
      WaitsAreShort(e.op.attempts);
    } else if e.op.Reschedule? {
      WaitsAreShort(e.op.polls);
    }
  }

  lemma TimelyMoment(states: seq<State>, events: seq<Event>, k: nat, id: DeliveryId)
    requires Run(states, events) && k < |events|
    requires id in states[k].rows ==> Timely(states[k].rows[id], states[k].clock)
    ensures id in states[k + 1].rows ==> Timely(states[k + 1].rows[id], states[k + 1].clock)
  {
    RunKeepsInv(states, events, k);
    assert Moves(states, events, k);
    if id in states[k].rows {
      TimelyRow(states[k], events[k], id);
    }
  }

  /** In every reachable ledger a row that is not settled can be claimed within the minute, or the hour if it has a ticket. */
  lemma {:induction false} ReadySoon(states: seq<State>, events: seq<Event>, n: nat, id: DeliveryId)
    requires Run(states, events) && n <= |events|
    ensures id in states[n].rows ==> Timely(states[n].rows[id], states[n].clock)
  {
    if n > 0 {
      ReadySoon(states, events, n - 1, id);
      TimelyMoment(states, events, n - 1, id);
    }
  }
}
