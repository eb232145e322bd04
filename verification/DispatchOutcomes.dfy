/**
  What a task and a flush of the dispatcher leave on the rows and in the buffer, stage by stage and
  in fields: only the claim's own row is ever written, and only while the claim is in force; an
  acceptance is in the buffer before anything is written and leaves it with the ticket on its row;
  and every failure of a statement or call leads to a retry, unless the ticket is in the buffer.
 */
module DispatchOutcomes {
  import opened Basics
  import opened PushLedger
  import opened PushDispatch

  /** The row is in processing under the claim, without a ticket. */
  ghost predicate Live(rows: Rows, c: Claim) {
    c.id in rows && rows[c.id].status == Processing && rows[c.id].claim == Some(c.token) && rows[c.id].ticket == None
  }

  /** Only the claim's row has changed, and that only if the claim was live. */
  ghost predicate OnlyUnder(rows: Rows, c: Claim, after: Rows) {
    && after.Keys == rows.Keys
    && (forall id | id in rows && id != c.id :: after[id] == rows[id])
    && (c.id in rows && !Live(rows, c) ==> after[c.id] == rows[c.id])
  }

  lemma NamedRows(rows: Rows, op: Op, now: int, c: Claim)
    requires Named(op) == Some(c) && !op.Settle? && !op.Reschedule?
    ensures OnlyUnder(rows, c, RowsAfter(rows, Event(op, now)))
    ensures c.id in rows ==> RowsAfter(rows, Event(op, now))[c.id] == RowAfter(c.id, rows[c.id], Event(op, now))
  {
  }

  // ----- Before sending ---------------------------------------------------------------------------------

  /** A renewal goes on exactly if the claim is live, and restarts its half minute; at shutdown the task ends without one. */
  lemma RenewalOutcome(p: Process, c: Claim, reply: Reply)
    requires TaskEnabled(p, c, reply) && (p.tasks[c].FirstRenew? || p.tasks[c].SecondRenew?) && !reply.Throw?
    ensures var q := NextTask(p, c, reply);
            && (reply.NotReady? ==> c !in q.tasks && q.ledger == p.ledger)
            && (reply.Renewed? ==>
                  && OnlyUnder(p.ledger.rows, c, q.ledger.rows)
                  && (c in q.tasks <==> Live(p.ledger.rows, c))
                  && (Live(p.ledger.rows, c) ==>
                        && q.tasks[c] == (if p.tasks[c].FirstRenew? then Checking else Awaiting)
                        && q.ledger.rows[c.id] == p.ledger.rows[c.id].(lockedAt := Some(reply.now))))
            && q.known == p.known
  {
    if reply.Renewed? {
      NamedRows(p.ledger.rows, Renew(c), reply.now, c);
    }
  }

  /** A token lock that is busy leads to a retry, an ineligible recipient to a suppression, and neither to a send. */
  lemma CheckOutcome(p: Process, c: Claim, reply: Reply)
    requires TaskEnabled(p, c, reply) && !reply.Throw?
    requires p.tasks[c].Locking? || p.tasks[c].Checking? || p.tasks[c].Counting?
    ensures var q := NextTask(p, c, reply);
            && q.ledger == p.ledger && q.known == p.known && c in q.tasks
            && q.tasks[c] == (if p.tasks[c].Locking? then (if reply.acquired then FirstRenew else Retrying(false))
                              else if p.tasks[c].Checking? then (if reply.eligible then Counting else Suppressing)
                              else SecondRenew)
  {
  }

  // ----- After the answer -------------------------------------------------------------------------------

  /** An acceptance is in the buffer before anything is written, and is written unless the latch has fallen. */
  lemma AnswerOutcome(p: Process, c: Claim, reply: Reply)
    requires TaskEnabled(p, c, reply) && p.tasks[c].Awaiting? && reply.Answered?
    ensures var q := NextTask(p, c, reply);
            && q.ledger == p.ledger
            && (reply.answer.Accepted? ==>
                  var e := Entry(c, reply.answer.ticket);
                  && q.known == p.known[c.id := e] && e in q.acks
                  && (if p.conflict then c !in q.tasks else c in q.tasks && q.tasks[c] == Persisting(e)))
            && (reply.answer.Permanent? ==> q.known == p.known && c in q.tasks && q.tasks[c] == Dying(reply.answer.deviceInvalid))
            && (reply.answer.Retryable? ==> q.known == p.known && c in q.tasks && q.tasks[c] == Retrying(false))
  {
  }

  /** The accepted ticket is stored and leaves the buffer exactly if the claim is live; else it is compared. */
  lemma StoreOutcome(p: Process, c: Claim, e: Entry, now: int)
    requires TaskEnabled(p, c, Recorded(now)) && p.tasks[c] == Persisting(e) && e.claim == c
    ensures var q := NextTask(p, c, Recorded(now));
            && OnlyUnder(p.ledger.rows, c, q.ledger.rows)
            && (if Live(p.ledger.rows, c) then
                  && c !in q.tasks && q.known == p.known - {c.id}
                  && q.ledger.rows[c.id] == p.ledger.rows[c.id].(status := TicketAccepted, ticket := Some(e.ticket), ticketAt := Some(now),
                                                                 receiptAt := Some(now + 900_000), lockedAt := None, claim := None)
                else q.known == p.known && c in q.tasks && q.tasks[c] == Confirming(e))
  {
    NamedRows(p.ledger.rows, Accept(c, e.ticket), now, c);
  }

  /** The row with its claim given up, settled or waiting. */
  function Settled(row: Row, status: Status, now: int): Row {
    row.(status := status, settledAt := Some(now), lockedAt := None, claim := None)
  }

  /** After a permanent error the row is dead, and its device is disabled if the provider says that it is gone. */
  lemma DeathOutcome(p: Process, c: Claim, now: int, deviceInvalid: bool)
    requires TaskEnabled(p, c, Written(now)) && p.tasks[c] == Dying(deviceInvalid)
    ensures var q := NextTask(p, c, Written(now));
            && OnlyUnder(p.ledger.rows, c, q.ledger.rows) && q.known == p.known
            && (Live(p.ledger.rows, c) ==> q.ledger.rows[c.id] == Settled(p.ledger.rows[c.id], Dead, now))
            && (c in q.tasks <==> deviceInvalid && Live(p.ledger.rows, c))
            && (c in q.tasks ==> q.tasks[c] == Invalidating)
  {
    NamedRows(p.ledger.rows, Die(c), now, c);
  }

  lemma SuppressionOutcome(p: Process, c: Claim, now: int)
    requires TaskEnabled(p, c, Written(now)) && p.tasks[c].Suppressing?
    ensures var q := NextTask(p, c, Written(now));
            && OnlyUnder(p.ledger.rows, c, q.ledger.rows) && q.known == p.known && c !in q.tasks
            && (Live(p.ledger.rows, c) ==> q.ledger.rows[c.id] == Settled(p.ledger.rows[c.id], Suppressed, now))
  {
    NamedRows(p.ledger.rows, Suppress(c), now, c);
  }

  /** A failed attempt makes the row wait, or ends it from the twentieth attempt on. */
  lemma RetryOutcome(p: Process, c: Claim, now: int)
    requires TaskEnabled(p, c, Written(now)) && p.tasks[c].Retrying?
    ensures var q, n := NextTask(p, c, Written(now)), AttemptsOf(p.ledger, c);
            && OnlyUnder(p.ledger.rows, c, q.ledger.rows) && q.known == p.known && c !in q.tasks
            && (Live(p.ledger.rows, c) ==>
                  q.ledger.rows[c.id]
                  == if n >= 20 then Settled(p.ledger.rows[c.id], Dead, now)
                     else p.ledger.rows[c.id].(status := Pending, availableAt := now + Backoff(n), lockedAt := None, claim := None))
  {
    NamedRows(p.ledger.rows, Retry(c, AttemptsOf(p.ledger, c)), now, c);
  }

  /** A statement or call that throws leads to a retry, unless the ticket of the delivery is in the buffer; a failed retry ends the task. */
  lemma ThrowOutcome(p: Process, c: Claim)
    requires TaskEnabled(p, c, Throw)
    ensures var q := NextTask(p, c, Throw);
            && q.ledger == p.ledger && q.known == p.known && q.phase == p.phase
            && (c in q.tasks <==> c.id !in p.known && p.tasks[c] != Retrying(true))
            && (c in q.tasks ==> q.tasks[c] == Retrying(true))
  {
  }

  // ----- Flushing ---------------------------------------------------------------------------------------

  /** Where a flush has tried to store an entry, the row has its ticket and the entry is gone exactly if its claim was live. */
  lemma FlushStores(p: Process, now: int)
    requires ActionEnabled(p, FlushRecorded(now))
    ensures var q, e := NextProcess(p, FlushRecorded(now)), p.phase.entry;
            && OnlyUnder(p.ledger.rows, e.claim, q.ledger.rows)
            && (if Live(p.ledger.rows, e.claim) then
                  && q.phase == Flushing && q.known == p.known - {e.claim.id}
                  && q.ledger.rows[e.claim.id]
                     == p.ledger.rows[e.claim.id].(status := TicketAccepted, ticket := Some(e.ticket), ticketAt := Some(now),
                                                   receiptAt := Some(now + 900_000), lockedAt := None, claim := None)
                else q.phase == FlushComparing(e) && q.known == p.known)
  {
    NamedRows(p.ledger.rows, Accept(p.phase.entry.claim, p.phase.entry.ticket), now, p.phase.entry.claim);
  }

  /** A comparison drops the entry if its ticket is on the row, keeps it if its claim is live, and else lets the latch fall. */
  lemma FlushCompares(p: Process)
    requires ActionEnabled(p, FlushCompared)
    ensures var q, e := NextProcess(p, FlushCompared), p.phase.entry;
            && q.phase == Flushing && q.ledger == p.ledger
            && (if e.claim.id in p.ledger.rows && p.ledger.rows[e.claim.id].ticket == Some(e.ticket) then
                  q.known == p.known - {e.claim.id} && q.conflict == p.conflict
                else q.known == p.known && q.conflict == (p.conflict || !Live(p.ledger.rows, e.claim)))
  {
  }

  /** A flush that ends goes on to claim exactly if the buffer is empty and the latch has not fallen. */
  lemma FlushEnds(p: Process)
    requires ActionEnabled(p, FlushEnd)
    ensures NextProcess(p, FlushEnd) == p.(phase := if p.known == map[] && !p.conflict then Claiming else Idle)
  {
  }

  /** Each row that is due and asked for gets a task of its own, at its first stage, under a live claim. */
  lemma ClaimBegins(p: Process, ids: set<DeliveryId>, token: Token, now: int, id: DeliveryId)
    requires ActionEnabled(p, ClaimDue(ids, token, now)) && id in p.ledger.rows && id in ids && Sendable(p.ledger.rows[id], now)
    ensures var q := NextProcess(p, ClaimDue(ids, token, now));
            && Claim(id, token) in q.tasks && q.tasks[Claim(id, token)] == Connecting && id in q.batch
            && Live(q.ledger.rows, Claim(id, token)) && q.ledger.rows[id].attempts == p.ledger.rows[id].attempts + 1
  {
    var e := Event(ClaimSend(ids, token), now);
    assert Takes(e, id, p.ledger.rows[id]);
    assert Claim(id, token) in NewClaims(p.ledger.rows, e);
    BegunWith(p, Next(p.ledger, e), NewClaims(p.ledger.rows, e), Claim(id, token));
  }

  lemma BegunWith(p: Process, s: State, claims: set<Claim>, c: Claim)
    requires c in claims
    ensures var q := Begun(p, s, claims); c in q.tasks && q.tasks[c] == Connecting && c.id in q.batch && q.ledger == s
  {
  }
}
