/**
  The delivery table and its services as objects: the statements change the rows in place, the
  dispatcher keeps its buffer of accepted tickets, and the receipt dispatcher works through a
  batch. Each method does what the ledger's step for it says.
 */
module PushServices {
  import opened Basics
  import opened PushLedger
  import opened PushDispatch

  // ----- Selecting rows in order, up to a limit ------------------------------------------------

  /** What a query sorts by: one column and then another. */
  datatype Order = Order(first: int, second: int) {
    predicate AtMost(other: Order) {
      first < other.first || (first == other.first && second <= other.second)
    }
  }

  ghost predicate FirstOf(keys: map<DeliveryId, Order>, ids: seq<DeliveryId>, limit: nat) {
    && Distinct(ids) && |ids| <= limit
    && (forall i | i in ids :: i in keys)
    && (|ids| < limit ==> forall k | k in keys :: k in ids)
    && (forall i, k | i in ids && k in keys && k !in ids :: keys[i].AtMost(keys[k]))
  }

  lemma {:induction false} LeastExists(keys: map<DeliveryId, Order>, ids: set<DeliveryId>) returns (least: DeliveryId)
    requires ids != {} && ids <= keys.Keys
    ensures least in ids && forall k | k in ids :: keys[least].AtMost(keys[k])
  {
    var one :| one in ids;
    var rest := ids - {one};
    least := one;
    if rest != {} {
      var other := LeastExists(keys, rest);
      if keys[other].AtMost(keys[one]) {
        least := other;
      }
    }
    forall k | k in ids ensures keys[least].AtMost(keys[k]) {
      assert k == one || k in rest;
    }
  }

  method SelectFirst(keys: map<DeliveryId, Order>, limit: nat) returns (ids: seq<DeliveryId>)
    ensures FirstOf(keys, ids, limit)
  {
    ids := [];
    var rest := keys.Keys;
    while rest != {} && |ids| < limit
      invariant Distinct(ids) && |ids| <= limit && rest <= keys.Keys
      invariant forall k | k in keys :: k in ids <==> k !in rest
      invariant forall i | i in ids :: i in keys
      invariant forall i, k | i in ids && k in rest :: keys[i].AtMost(keys[k])
      decreases rest
    {
      ghost var least := LeastExists(keys, rest);
      var id :| id in rest && forall k | k in rest :: keys[id].AtMost(keys[k]);
      ids := ids + [id];
      rest := rest - {id};
    }
  }

  // ----- The table -------------------------------------------------------------------------------

  datatype Claimed = Claimed(claim: Claim, attempts: nat)
  datatype ClaimedReceipt = ClaimedReceipt(claim: Claim, ticket: string, polls: nat)

  predicate IsHeld(rows: Rows, c: Claim) {
    c.id in rows && HeldForSend(rows[c.id], c.token)
  }

  /** The row is in processing under the claim, without a ticket. */
  ghost predicate HeldUnder(rows: Rows, c: Claim) {
    c.id in rows && rows[c.id].status == Processing && rows[c.id].claim == Some(c.token) && rows[c.id].ticket == None
  }

  /** The row is in processing under the claim, with this ticket. */
  ghost predicate PolledUnder(rows: Rows, c: Claim, ticket: string) {
    c.id in rows && rows[c.id].status == Processing && rows[c.id].claim == Some(c.token) && rows[c.id].ticket == Some(ticket)
  }

  lemma NamedUpdate(rows: Rows, e: Event, c: Claim)
    requires Named(e.op) == Some(c)
    ensures RowsAfter(rows, e) == if c.id in rows then rows[c.id := RowAfter(c.id, rows[c.id], e)] else rows
  {
    forall id | id in rows && id != c.id ensures RowAfter(id, rows[id], e) == rows[id] {
    }
  }

  function DueKeys(rows: Rows, now: int): map<DeliveryId, Order> {
    map id | id in rows && Sendable(rows[id], now) :: Order(rows[id].availableAt, rows[id].createdAt)
  }

  function PollKeys(rows: Rows, now: int): map<DeliveryId, Order> {
    map id | id in rows && Pollable(rows[id], now) :: Order(rows[id].receiptAt.GetOr(now), rows[id].createdAt)
  }

  function ExpiredKeys(rows: Rows, now: int, unfinished: set<MessageId>): map<DeliveryId, Order> {
    map id | id in rows && Expired(rows[id], now) && rows[id].message !in unfinished :: Order(rows[id].settledAt.value, 0)
  }

  function ClaimedRows(rows: Rows, ids: seq<DeliveryId>, token: Token, now: int): Rows {
    map id | id in rows :: if id in ids then ClaimedForReceipt(rows[id], token, now) else rows[id]
  }

  class DeliveryTable {
    var rows: Rows

    constructor (rows: Rows)
      ensures this.rows == rows
    {
      this.rows := rows;
    }

    /** Claims the rows due first, at most five. */
    method ClaimDue(token: Token, now: int) returns (ids: seq<DeliveryId>, claimed: seq<Claimed>)
      modifies this
      ensures FirstOf(DueKeys(old(rows), now), ids, SEND_BATCH)
      ensures forall id :: id in DueKeys(old(rows), now) <==>
                id in old(rows) && old(rows)[id].ticket.None?
                && ((old(rows)[id].status.Pending? && old(rows)[id].availableAt <= now)
                    || (old(rows)[id].status.Processing? && old(rows)[id].lockedAt.Some? && old(rows)[id].lockedAt.value < now - 30_000))
      ensures forall id | id in DueKeys(old(rows), now) ::
                DueKeys(old(rows), now)[id] == Order(old(rows)[id].availableAt, old(rows)[id].createdAt)
      ensures rows == RowsAfter(old(rows), Event(ClaimSend(Elements(ids), token), now))
      ensures rows.Keys == old(rows).Keys
      ensures forall id | id in rows ::
                var was := old(rows)[id];
                rows[id] == if id in ids
                            then was.(status := Processing, lockedAt := Some(now), claim := Some(token), attempts := was.attempts + 1)
                            else was
      ensures |claimed| == |ids|
      ensures forall k | 0 <= k < |ids| :: ids[k] in rows && claimed[k] == Claimed(Claim(ids[k], token), rows[ids[k]].attempts)
    {
      ids := SelectFirst(DueKeys(rows, now), SEND_BATCH);
      var after := map id | id in rows :: if id in ids then ClaimedForSend(rows[id], token, now) else rows[id];
      assert forall k | 0 <= k < |ids| :: ids[k] in ids;
      claimed := seq(|ids|, k requires 0 <= k < |ids| && ids[k] in after => Claimed(Claim(ids[k], token), after[ids[k]].attempts));
      rows := after;
    }

    method RenewClaim(c: Claim, now: int) returns (held: bool)
      modifies this
      ensures held <==> HeldUnder(old(rows), c)
      ensures rows == RowsAfter(old(rows), Event(Renew(c), now))
      ensures rows == if held then old(rows)[c.id := old(rows)[c.id].(lockedAt := Some(now))] else old(rows)
    {
      NamedUpdate(rows, Event(Renew(c), now), c);
      held := IsHeld(rows, c);
      if held {
        rows := rows[c.id := rows[c.id].(lockedAt := Some(now))];
      }
    }

    method RecordAccepted(c: Claim, ticket: string, now: int) returns (held: bool)
      modifies this
      ensures held <==> HeldUnder(old(rows), c)
      ensures rows == RowsAfter(old(rows), Event(Accept(c, ticket), now))
      ensures rows == if held then old(rows)[c.id := old(rows)[c.id].(status := TicketAccepted, ticket := Some(ticket), ticketAt := Some(now),
                                                                   receiptAt := Some(now + 900_000), lockedAt := None, claim := None)] else old(rows)
    {
      NamedUpdate(rows, Event(Accept(c, ticket), now), c);
      held := IsHeld(rows, c);
      if held {
        rows := rows[c.id := rows[c.id].(status := TicketAccepted, ticket := Some(ticket), ticketAt := Some(now),
                                         receiptAt := Some(now + 15 * 60_000), lockedAt := None, claim := None)];
      }
    }

    method MarkSuppressed(c: Claim, now: int) returns (held: bool)
      modifies this
      ensures held <==> HeldUnder(old(rows), c)
      ensures rows == RowsAfter(old(rows), Event(Suppress(c), now))
      ensures rows == if held then old(rows)[c.id := old(rows)[c.id].(status := Suppressed, settledAt := Some(now), lockedAt := None, claim := None)] else old(rows)
    {
      NamedUpdate(rows, Event(Suppress(c), now), c);
      held := IsHeld(rows, c);
      if held {
        rows := rows[c.id := rows[c.id].(status := Suppressed, settledAt := Some(now), lockedAt := None, claim := None)];
      }
    }

    method MarkDead(c: Claim, now: int) returns (held: bool)
      modifies this
      ensures held <==> HeldUnder(old(rows), c)
      ensures rows == RowsAfter(old(rows), Event(Die(c), now))
      ensures rows == if held then old(rows)[c.id := old(rows)[c.id].(status := Dead, settledAt := Some(now), lockedAt := None, claim := None)] else old(rows)
    {
      NamedUpdate(rows, Event(Die(c), now), c);
      held := IsHeld(rows, c);
      if held {
        rows := rows[c.id := rows[c.id].(status := Dead, settledAt := Some(now), lockedAt := None, claim := None)];
      }
    }

    method MarkRetry(delivery: Claimed, now: int) returns (held: bool)
      modifies this
      ensures held <==> HeldUnder(old(rows), delivery.claim)
      ensures rows == RowsAfter(old(rows), Event(Retry(delivery.claim, delivery.attempts), now))
      ensures var c, n := delivery.claim, delivery.attempts;
              rows == if !held then old(rows)
                      else if n >= 20 then old(rows)[c.id := old(rows)[c.id].(status := Dead, settledAt := Some(now), lockedAt := None, claim := None)]
                      else old(rows)[c.id := old(rows)[c.id].(status := Pending, availableAt := now + Backoff(n), lockedAt := None, claim := None)]
    {
      var c := delivery.claim;
      NamedUpdate(rows, Event(Retry(c, delivery.attempts), now), c);
      NamedUpdate(rows, Event(Die(c), now), c);
      if delivery.attempts >= ATTEMPTS_MAX {
        held := MarkDead(c, now);
        return;
      }
      var exponent := if delivery.attempts - 1 >= 0 then delivery.attempts - 1 else 0;
      var delay := Min(1_000 * Pow2(exponent), 60_000);
      held := IsHeld(rows, c);
      if held {
        rows := rows[c.id := rows[c.id].(status := Pending, availableAt := now + delay, lockedAt := None, claim := None)];
      }
    }

    method ClaimPolls(token: Token, now: int) returns (ids: seq<DeliveryId>, claimed: seq<ClaimedReceipt>)
      requires forall id | id in rows && rows[id].status.TicketAccepted? :: rows[id].ticket.Some?
      modifies this
      ensures FirstOf(PollKeys(old(rows), now), ids, RECEIPT_BATCH)
      ensures forall id :: id in PollKeys(old(rows), now) <==>
                id in old(rows)
                && ((old(rows)[id].status.TicketAccepted? && old(rows)[id].receiptAt.Some? && old(rows)[id].receiptAt.value <= now)
                    || (old(rows)[id].status.Processing? && old(rows)[id].ticket.Some?
                        && old(rows)[id].lockedAt.Some? && old(rows)[id].lockedAt.value < now - 30_000))
      ensures forall id | id in PollKeys(old(rows), now) && old(rows)[id].receiptAt.Some? ::
                PollKeys(old(rows), now)[id] == Order(old(rows)[id].receiptAt.value, old(rows)[id].createdAt)
      ensures rows == RowsAfter(old(rows), Event(ClaimReceipts(Elements(ids), token), now))
      ensures rows == ClaimedRows(old(rows), ids, token, now)
      ensures forall id | id in rows ::
                var was := old(rows)[id];
                rows[id] == if id in ids
                            then was.(status := Processing, lockedAt := Some(now), claim := Some(token), receiptAttempts := was.receiptAttempts + 1)
                            else was
      ensures |claimed| == |ids|
      ensures forall k | 0 <= k < |ids| ::
                ids[k] in rows && rows[ids[k]].ticket.Some?
                && claimed[k] == ClaimedReceipt(Claim(ids[k], token), rows[ids[k]].ticket.value, rows[ids[k]].receiptAttempts)
    {
      ids := SelectFirst(PollKeys(rows, now), RECEIPT_BATCH);
      var after := ClaimedRows(rows, ids, token, now);
      assert forall k | 0 <= k < |ids| :: ids[k] in ids;
      claimed := seq(|ids|, k requires 0 <= k < |ids| && ids[k] in after && after[ids[k]].ticket.Some? => ClaimedReceipt(Claim(ids[k], token), after[ids[k]].ticket.value, after[ids[k]].receiptAttempts));
      rows := after;
    }

    method UpdateTerminal(c: Claim, ticket: string, delivered: bool, now: int) returns (held: bool)
      modifies this
      ensures held <==> PolledUnder(old(rows), c, ticket)
      ensures rows == RowsAfter(old(rows), Event(Settle(c, ticket, delivered), now))
      ensures rows == if held then old(rows)[c.id := old(rows)[c.id].(status := if delivered then Delivered else Dead,
                                                                      settledAt := Some(now), lockedAt := None, claim := None)]
                      else old(rows)
    {
      NamedUpdate(rows, Event(Settle(c, ticket, delivered), now), c);
      held := c.id in rows && HeldForReceipt(rows[c.id], c.token, ticket);
      if held {
        rows := rows[c.id := rows[c.id].(status := if delivered then Delivered else Dead,
                                         settledAt := Some(now), lockedAt := None, claim := None)];
      }
    }

    /** Two statements: the first ends a row whose ticket is a day old, else the second sets the next poll. */
    method Reschedule(delivery: ClaimedReceipt, checked: int, now: int)
      modifies this
      ensures rows == RowsAfter(old(rows), Event(Op.Reschedule(delivery.claim, delivery.ticket, delivery.polls, checked), now))
      ensures var c := delivery.claim;
              if !PolledUnder(old(rows), c, delivery.ticket) then rows == old(rows)
              else
                var was := old(rows)[c.id];
                var dayOver := was.ticketAt.Some? && was.ticketAt.value <= checked - 86_400_000;
                rows == old(rows)[c.id :=
                          if dayOver then was.(status := Dead, settledAt := Some(checked), lockedAt := None, claim := None)
                          else was.(status := TicketAccepted, receiptAt := Some(now + PollDelay(delivery.polls)), lockedAt := None, claim := None)]
    {
      var c := delivery.claim;
      NamedUpdate(rows, Event(Op.Reschedule(c, delivery.ticket, delivery.polls, checked), now), c);
      if !(c.id in rows && HeldForReceipt(rows[c.id], c.token, delivery.ticket)) {
        return;
      }
      var row := rows[c.id];
      if row.ticketAt.Some? && row.ticketAt.value <= checked - DAY_MS {
        rows := rows[c.id := row.(status := Dead, settledAt := Some(checked), lockedAt := None, claim := None)];
        return;
      }
      var minutes := Min(Pow2(if delivery.polls < 6 then delivery.polls else 6), 60);
      rows := rows[c.id := row.(status := TicketAccepted, receiptAt := Some(now + minutes * 60_000), lockedAt := None, claim := None)];
    }

    /** Deletes at most five hundred rows that were settled more than fourteen days ago, the oldest first. */
    method CleanupOnce(now: int, unfinished: set<MessageId>) returns (ids: seq<DeliveryId>)
      modifies this
      ensures FirstOf(ExpiredKeys(old(rows), now, unfinished), ids, CLEANUP_BATCH)
      ensures forall id :: id in ExpiredKeys(old(rows), now, unfinished) <==>
                id in old(rows) && (old(rows)[id].status.Delivered? || old(rows)[id].status.Suppressed? || old(rows)[id].status.Dead?)
                && old(rows)[id].settledAt.Some? && old(rows)[id].settledAt.value < now - 14 * 86_400_000
                && old(rows)[id].message !in unfinished
      ensures forall id | id in ExpiredKeys(old(rows), now, unfinished) ::
                ExpiredKeys(old(rows), now, unfinished)[id].first == old(rows)[id].settledAt.GetOr(0)
      ensures rows == old(rows) - Elements(ids)
      ensures rows == RowsAfter(old(rows), Event(Cleanup(Elements(ids), unfinished), now))
    {
      ids := SelectFirst(ExpiredKeys(rows, now, unfinished), CLEANUP_BATCH);
      rows := map id | id in rows && id !in ids :: rows[id];
    }
  }

  // ----- The dispatcher's buffer -------------------------------------------------------------------

  datatype Fault = NoFault | RecordFails | CompareFails

  /** The statement that stores an entry does not fail, and finds its row: under the claim, or with the ticket on it already. */
  ghost predicate Storable(rows: Rows, e: Entry, fault: Fault) {
    && !fault.RecordFails?
    && (HeldUnder(rows, e.claim)
        || (fault.NoFault? && e.claim.id in rows && rows[e.claim.id].ticket == Some(e.ticket)))
  }

  /** Nothing fails, and the row is neither under the claim nor has it the ticket: it needs to be reconciled by hand. */
  ghost predicate Irreconcilable(rows: Rows, e: Entry, fault: Fault) {
    fault.NoFault? && !Storable(rows, e, fault)
  }

  /** The row under a claim in force when its ticket is stored. */
  ghost function StoredRow(row: Row, ticket: string, now: int): Row {
    row.(status := TicketAccepted, ticket := Some(ticket), ticketAt := Some(now), receiptAt := Some(now + 900_000),
         lockedAt := None, claim := None)
  }

  function FaultOf(faults: map<DeliveryId, Fault>, id: DeliveryId): Fault {
    if id in faults then faults[id] else NoFault
  }

  /** What became of one entry that was tried: it is gone exactly if it was storable, and a row under its claim has its ticket. */
  ghost predicate Tried(known: map<DeliveryId, Entry>, rows: Rows, e: Entry, fault: Fault, before: Rows, now: int) {
    var id := e.claim.id;
    && (id in known <==> !Storable(before, e, fault))
    && (id in before ==> id in rows)
    && (HeldUnder(before, e.claim) && !fault.RecordFails? ==> rows[id] == StoredRow(before[id], e.ticket, now))
    && (id in before && (!HeldUnder(before, e.claim) || fault.RecordFails?) ==> rows[id] == before[id])
  }

  /** One that was not is still in the buffer, and its row is as it was. */
  ghost predicate Untried(known: map<DeliveryId, Entry>, rows: Rows, e: Entry, before: Rows) {
    var id := e.claim.id;
    && id in known && known[id] == e
    && (id in before ==> id in rows && rows[id] == before[id])
  }

  /** How far a flush has come: the entries of `todo` are as they were, and the others have been tried. */
  ghost predicate FlushedSoFar(was: map<DeliveryId, Entry>, known: map<DeliveryId, Entry>, before: Rows, rows: Rows,
                               todo: set<DeliveryId>, faults: map<DeliveryId, Fault>, now: int) {
    && todo <= was.Keys && known.Keys <= was.Keys && rows.Keys == before.Keys
    && (forall id | id in known :: known[id] == was[id])
    && (forall id | id in before && id !in was :: rows[id] == before[id])
    && (forall id | id in todo :: Untried(known, rows, was[id], before))
    && (forall id | id in was && id !in todo :: Tried(known, rows, was[id], FaultOf(faults, id), before, now))
  }

  /** Entries are kept under the id of their delivery. */
  ghost predicate Keyed(known: map<DeliveryId, Entry>) {
    forall id | id in known :: known[id].claim.id == id
  }

  /** One entry was tried, and nothing else touched. */
  ghost predicate TriedOne(known: map<DeliveryId, Entry>, known': map<DeliveryId, Entry>, rows: Rows, rows': Rows, e: Entry, fault: Fault, now: int) {
    var id := e.claim.id;
    && known' == (if Storable(rows, e, fault) then known - {id} else known)
    && rows' == (if HeldUnder(rows, e.claim) && !fault.RecordFails? then rows[id := StoredRow(rows[id], e.ticket, now)] else rows)
  }

  lemma FlushedOneMore(was: map<DeliveryId, Entry>, known: map<DeliveryId, Entry>, known': map<DeliveryId, Entry>,
                       before: Rows, rows: Rows, rows': Rows, todo: set<DeliveryId>, id: DeliveryId,
                       faults: map<DeliveryId, Fault>, now: int)
    requires Keyed(was) && id in todo && FlushedSoFar(was, known, before, rows, todo, faults, now)
    requires TriedOne(known, known', rows, rows', was[id], FaultOf(faults, id), now)
    ensures FlushedSoFar(was, known', before, rows', todo - {id}, faults, now)
    ensures Irreconcilable(rows, was[id], FaultOf(faults, id)) <==> Irreconcilable(before, was[id], FaultOf(faults, id))
  {
    assert Untried(known, rows, was[id], before);
    SameStorable(before, rows, was[id], FaultOf(faults, id));
    forall k | k in todo - {id} ensures Untried(known', rows', was[k], before) {
      assert Untried(known, rows, was[k], before);
    }
    forall k | k in was && k !in todo - {id} ensures Tried(known', rows', was[k], FaultOf(faults, k), before, now) {
      if k != id {
        assert Tried(known, rows, was[k], FaultOf(faults, k), before, now);
      }
    }
  }

  /** Whether an entry can be stored depends on its own row alone. */
  lemma SameStorable(before: Rows, rows: Rows, e: Entry, fault: Fault)
    requires rows.Keys == before.Keys && (e.claim.id in before ==> rows[e.claim.id] == before[e.claim.id])
    ensures Storable(rows, e, fault) == Storable(before, e, fault)
    ensures HeldUnder(rows, e.claim) == HeldUnder(before, e.claim)
  {
  }

  class PushDispatcher {
    const table: DeliveryTable
    var knownAccepted: map<DeliveryId, Entry>
    var acknowledgementConflict: bool

    constructor (table: DeliveryTable)
      ensures this.table == table && knownAccepted == map[] && !acknowledgementConflict
    {
      this.table := table;
      knownAccepted, acknowledgementConflict := map[], false;
    }

    ghost predicate Valid()
      reads this
    {
      Keyed(knownAccepted)
    }

    /** Tries to store one accepted ticket. The entry stays unless its ticket is on the row. */
    method PersistKnownAccepted(id: DeliveryId, now: int, fault: Fault)
      requires Valid()
      modifies this, table
      ensures Valid()
      ensures id !in old(knownAccepted) || old(acknowledgementConflict) || fault.RecordFails? ==>
                knownAccepted == old(knownAccepted) && acknowledgementConflict == old(acknowledgementConflict)
                && table.rows == old(table.rows)
      ensures id in old(knownAccepted) && !old(acknowledgementConflict) ==>
                var e := old(knownAccepted)[id];
                && TriedOne(old(knownAccepted), knownAccepted, old(table.rows), table.rows, e, fault, now)
                && acknowledgementConflict == Irreconcilable(old(table.rows), e, fault)
                && (!fault.RecordFails? ==> table.rows == RowsAfter(old(table.rows), Event(Accept(e.claim, e.ticket), now)))
    {
      if id !in knownAccepted || acknowledgementConflict || fault.RecordFails? {
        return;
      }
      var e := knownAccepted[id];
      NamedUpdate(table.rows, Event(Accept(e.claim, e.ticket), now), e.claim);
      var recorded := table.RecordAccepted(e.claim, e.ticket, now);
      if recorded {
        knownAccepted := knownAccepted - {id};
        return;
      }
      if fault.CompareFails? {
        return;
      }
      if id in table.rows && table.rows[id].ticket == Some(e.ticket) {
        knownAccepted := knownAccepted - {id};
      } else if !IsHeld(table.rows, e.claim) {
        acknowledgementConflict := true;
      }
    }

    /**
      Tries to store every accepted ticket. Unless the latch falls, exactly the storable entries
      leave the buffer, and each row that was under its claim has its ticket; the latch falls
      exactly when some entry is irreconcilable, and then the rest is left alone. So with no
      failure the flush ends clean or with the latch fallen.
     */
    method FlushKnownAccepted(now: int, faults: map<DeliveryId, Fault>) returns (clean: bool)
      requires Valid()
      modifies this, table
      ensures Valid()
      ensures old(acknowledgementConflict) ==>
                !clean && acknowledgementConflict && knownAccepted == old(knownAccepted) && table.rows == old(table.rows)
      ensures clean <==> knownAccepted == map[] && !acknowledgementConflict
      ensures !old(acknowledgementConflict) ==>
                (acknowledgementConflict <==>
                 exists id :: id in old(knownAccepted) && Irreconcilable(old(table.rows), old(knownAccepted)[id], FaultOf(faults, id)))
      ensures exists todo ::
                && FlushedSoFar(old(knownAccepted), knownAccepted, old(table.rows), table.rows, todo, faults, now)
                && (!acknowledgementConflict ==> todo == {})
      ensures !old(acknowledgementConflict) && (forall id | id in old(knownAccepted) :: FaultOf(faults, id).NoFault?) ==>
                clean || acknowledgementConflict
      ensures !acknowledgementConflict ==>
                forall id | id in old(knownAccepted) && HeldUnder(old(table.rows), old(knownAccepted)[id].claim) && !FaultOf(faults, id).RecordFails? ::
                  && id !in knownAccepted && id in table.rows && table.rows[id].status == TicketAccepted
                  && table.rows[id].ticket == Some(old(knownAccepted)[id].ticket) && table.rows[id].claim == None
    {
      ghost var untried := knownAccepted.Keys;
      if acknowledgementConflict {
        assert FlushedSoFar(old(knownAccepted), knownAccepted, old(table.rows), table.rows, untried, faults, now);
        return false;
      }
      var todo := knownAccepted.Keys;
      while todo != {}
        invariant Valid()
        invariant FlushedSoFar(old(knownAccepted), knownAccepted, old(table.rows), table.rows, untried, faults, now)
        invariant todo <= old(knownAccepted).Keys && (!acknowledgementConflict ==> untried == todo)
        invariant if acknowledgementConflict
                  then exists id :: id in old(knownAccepted) && Irreconcilable(old(table.rows), old(knownAccepted)[id], FaultOf(faults, id))
                  else forall id | id in old(knownAccepted) && id !in todo :: !Irreconcilable(old(table.rows), old(knownAccepted)[id], FaultOf(faults, id))
        decreases todo
      {
        var id :| id in todo;
        todo := todo - {id};
        ghost var known, rows, latched := knownAccepted, table.rows, acknowledgementConflict;
        PersistKnownAccepted(id, now, FaultOf(faults, id));
        if !latched {
          assert Untried(known, rows, old(knownAccepted)[id], old(table.rows));
          FlushedOneMore(old(knownAccepted), known, knownAccepted, old(table.rows), rows, table.rows, untried, id, faults, now);
          untried := untried - {id};
        }
      }
      assert forall id | id in old(knownAccepted) && id !in untried ::
               Tried(knownAccepted, table.rows, old(knownAccepted)[id], FaultOf(faults, id), old(table.rows), now);
      return knownAccepted == map[] && !acknowledgementConflict;
    }
  }

  // ----- The receipt dispatcher ----------------------------------------------------------------------

  datatype Receipt = Arrived | Failed(deviceInvalid: bool) | NotYet

  function ReceiptFor(answers: map<string, Receipt>, ticket: Option<string>): Receipt {
    if ticket.Some? && ticket.value in answers then answers[ticket.value] else NotYet
  }

  /** What becomes of a row that was claimed for polling. */
  function AfterPoll(row: Row, answers: map<string, Receipt>, now: int): Row {
    match ReceiptFor(answers, row.ticket)
    case Arrived => Ended(row, Delivered, now)
    case Failed(_) => Ended(row, Dead, now)
    case NotYet => Rescheduled(row, row.receiptAttempts, now, now)
  }

  /** The row is delivered or dead as the answer to its ticket says; without an answer it is dead after a day, and else polled again. */
  ghost predicate AnsweredAs(was: Row, ticket: string, answers: map<string, Receipt>, now: int, after: Row) {
    if ticket in answers && !answers[ticket].NotYet? then
      after == was.(status := if answers[ticket].Arrived? then Delivered else Dead, settledAt := Some(now), lockedAt := None, claim := None)
    else if was.ticketAt.Some? && was.ticketAt.value <= now - 86_400_000 then
      after == was.(status := Dead, settledAt := Some(now), lockedAt := None, claim := None)
    else
      after == was.(status := TicketAccepted, receiptAt := Some(now + PollDelay(was.receiptAttempts)), lockedAt := None, claim := None)
  }

  lemma PollAnswers(row: Row, answers: map<string, Receipt>, now: int)
    requires row.ticket.Some?
    ensures AnsweredAs(row, row.ticket.value, answers, now, AfterPoll(row, answers, now))
  {
  }

  function HandledRows(claimed: Rows, ids: seq<DeliveryId>, answers: map<string, Receipt>, now: int): Rows {
    map id | id in claimed :: if id in ids then AfterPoll(claimed[id], answers, now) else claimed[id]
  }

  /**
    Which call of a cycle fails, if any: the claim, the query for receipts, the statement for a
    row, with its effect lost or only its reply, or the call that disables the row's device.
   */
  datatype CycleFault =
    | Smooth
    | ClaimFails
    | QueryFails
    | StatementFails(at: nat)
    | ReplyLost(at: nat)
    | DisableFails(at: nat)

  /** How many of the claimed rows are written before a failing call ends the loop. */
  function WrittenUpTo(fault: CycleFault, claimed: Rows, ids: seq<DeliveryId>, answers: map<string, Receipt>): (n: nat)
    ensures n <= |ids|
  {
    match fault
    case Smooth => |ids|
    case ClaimFails => 0
    case QueryFails => 0
    case StatementFails(at) => if at < |ids| then at else |ids|
    case ReplyLost(at) => if at < |ids| then at + 1 else |ids|
    case DisableFails(at) =>
      if at < |ids| && ids[at] in claimed && ReceiptFor(answers, claimed[ids[at]].ticket) == Failed(true) then at + 1 else |ids|
  }

  /** Without a failure all rows are written; a failed statement or a lost reply ends the loop at its row, and a failed call behind it. */
  lemma WrittenExactly(fault: CycleFault, claimed: Rows, ids: seq<DeliveryId>, answers: map<string, Receipt>, at: nat)
    ensures WrittenUpTo(Smooth, claimed, ids, answers) == JudgedUpTo(Smooth, claimed, ids, answers) == |ids|
    ensures WrittenUpTo(QueryFails, claimed, ids, answers) == 0
    ensures at < |ids| ==>
              && WrittenUpTo(StatementFails(at), claimed, ids, answers) == JudgedUpTo(StatementFails(at), claimed, ids, answers) == at
              && WrittenUpTo(ReplyLost(at), claimed, ids, answers) == at + 1
              && JudgedUpTo(ReplyLost(at), claimed, ids, answers) == at
    ensures at >= |ids| && (fault == StatementFails(at) || fault == ReplyLost(at) || fault == DisableFails(at)) ==>
              WrittenUpTo(fault, claimed, ids, answers) == JudgedUpTo(fault, claimed, ids, answers) == |ids|
    ensures at < |ids| && ids[at] in claimed && claimed[ids[at]].ticket.Some? ==>
              var ticket := claimed[ids[at]].ticket.value;
              WrittenUpTo(DisableFails(at), claimed, ids, answers) == JudgedUpTo(DisableFails(at), claimed, ids, answers)
              == if ticket in answers && answers[ticket] == Failed(true) then at + 1 else |ids|
  {
  }

  /** And for how many of them their device is considered: not for the one whose reply is lost. */
  function JudgedUpTo(fault: CycleFault, claimed: Rows, ids: seq<DeliveryId>, answers: map<string, Receipt>): (n: nat)
    ensures n <= |ids|
  {
    if fault.ReplyLost? && fault.at < |ids| then fault.at else WrittenUpTo(fault, claimed, ids, answers)
  }

  /** The devices to disable are those of the rows whose answer says so. */
  ghost predicate Reported(invalid: seq<DeliveryId>, claimed: Rows, ids: seq<DeliveryId>, answers: map<string, Receipt>) {
    forall id :: id in invalid <==> id in ids && id in claimed && ReceiptFor(answers, claimed[id].ticket) == Failed(true)
  }

  lemma ReportedOneMore(invalid: seq<DeliveryId>, claimed: Rows, ids: seq<DeliveryId>, i: nat, answers: map<string, Receipt>)
    requires i < |ids| && ids[i] in claimed && Reported(invalid, claimed, ids[..i], answers)
    ensures if ReceiptFor(answers, claimed[ids[i]].ticket) == Failed(true) then Reported(invalid + [ids[i]], claimed, ids[..i + 1], answers)
            else Reported(invalid, claimed, ids[..i + 1], answers)
  {
    assert ids[..i + 1] == ids[..i] + [ids[i]];
  }

  lemma NothingHandled(claimed: Rows, answers: map<string, Receipt>, now: int)
    ensures HandledRows(claimed, [], answers, now) == claimed
  {
  }

  /** The rows of a batch are held under its claims, with the tickets and counts that the claim returned. */
  ghost predicate BatchOk(rows: Rows, ids: seq<DeliveryId>, claimed: seq<ClaimedReceipt>) {
    && Distinct(ids) && |claimed| == |ids|
    && forall k | 0 <= k < |ids| ::
         && claimed[k].claim.id == ids[k] && ids[k] in rows
         && HeldForReceipt(rows[ids[k]], claimed[k].claim.token, claimed[k].ticket)
         && rows[ids[k]].receiptAttempts == claimed[k].polls
  }

  lemma ClaimedBatch(rows: Rows, ids: seq<DeliveryId>, claimed: seq<ClaimedReceipt>, token: Token, now: int)
    requires Distinct(ids) && |claimed| == |ids|
    requires forall k | 0 <= k < |ids| ::
               ids[k] in rows && rows[ids[k]].ticket.Some?
               && claimed[k] == ClaimedReceipt(Claim(ids[k], token), rows[ids[k]].ticket.value, rows[ids[k]].receiptAttempts + 1)
    ensures BatchOk(ClaimedRows(rows, ids, token, now), ids, claimed)
  {
    assert forall k | 0 <= k < |ids| :: ids[k] in ids;
  }

  lemma HandleOne(claimed: Rows, ids: seq<DeliveryId>, i: nat, answers: map<string, Receipt>, now: int)
    requires Distinct(ids) && i < |ids| && ids[i] in claimed
    ensures var before, id := HandledRows(claimed, ids[..i], answers, now), ids[i];
            && before[id] == claimed[id]
            && HandledRows(claimed, ids[..i + 1], answers, now) == before[id := AfterPoll(claimed[id], answers, now)]
  {
    assert ids[..i + 1] == ids[..i] + [ids[i]] && ids[i] !in ids[..i];
  }

  /** The row was claimed, and then handled if `handled`, so that it is as its answer says. */
  ghost predicate PolledAs(was: Row, handled: bool, token: Token, answers: map<string, Receipt>, now: int, after: Row) {
    && was.ticket.Some?
    && var claimed := was.(status := Processing, lockedAt := Some(now), claim := Some(token), receiptAttempts := was.receiptAttempts + 1);
       if handled then AnsweredAs(claimed, was.ticket.value, answers, now, after) else after == claimed
  }

  /** Each of the claimed rows up to the `n`-th is as its answer says, the others are claimed; no other row has changed. */
  ghost predicate CycleRows(rows: Rows, ids: seq<DeliveryId>, n: nat, token: Token, answers: map<string, Receipt>, now: int, after: Rows) {
    && after.Keys == rows.Keys
    && (forall id | id in rows && id !in ids :: after[id] == rows[id])
    && (forall k | 0 <= k < |ids| :: ids[k] in rows && PolledAs(rows[ids[k]], k < n, token, answers, now, after[ids[k]]))
  }

  lemma PolledRow(was: Row, handled: bool, token: Token, answers: map<string, Receipt>, now: int)
    requires was.ticket.Some?
    ensures var claimed := ClaimedForReceipt(was, token, now);
            PolledAs(was, handled, token, answers, now, if handled then AfterPoll(claimed, answers, now) else claimed)
  {
    PollAnswers(ClaimedForReceipt(was, token, now), answers, now);
  }

  lemma InPrefix(ids: seq<DeliveryId>, n: nat, k: nat)
    requires n <= |ids| && k < |ids| && Distinct(ids)
    ensures ids[k] in ids && (ids[k] in ids[..n] <==> k < n)
  {
    if k < n {
      assert ids[..n][k] == ids[k];
    }
  }

  lemma HandledInCycle(rows: Rows, ids: seq<DeliveryId>, n: nat, token: Token, answers: map<string, Receipt>, now: int)
    requires n <= |ids| && Distinct(ids) && forall k | 0 <= k < |ids| :: ids[k] in rows && rows[ids[k]].ticket.Some?
    ensures CycleRows(rows, ids, n, token, answers, now, HandledRows(ClaimedRows(rows, ids, token, now), ids[..n], answers, now))
  {
    forall k | 0 <= k < |ids|
      ensures var after := HandledRows(ClaimedRows(rows, ids, token, now), ids[..n], answers, now);
              ids[k] in rows && PolledAs(rows[ids[k]], k < n, token, answers, now, after[ids[k]])
    {
      InPrefix(ids, n, k);
      PolledRow(rows[ids[k]], k < n, token, answers, now);
    }
  }

  class ReceiptDispatcher {
    const table: DeliveryTable

    constructor (table: DeliveryTable)
      ensures this.table == table
    {
      this.table := table;
    }

    /** Handles one claimed row; says whether its device is to be disabled. */
    method Handle(delivery: ClaimedReceipt, answers: map<string, Receipt>, now: int) returns (invalid: bool)
      requires var c := delivery.claim;
               && c.id in table.rows && HeldForReceipt(table.rows[c.id], c.token, delivery.ticket)
               && table.rows[c.id].receiptAttempts == delivery.polls
      modifies table
      ensures table.rows == old(table.rows)[delivery.claim.id := AfterPoll(old(table.rows)[delivery.claim.id], answers, now)]
      ensures invalid <==> ReceiptFor(answers, Some(delivery.ticket)) == Failed(true)
      ensures delivery.claim.id in table.rows
      ensures AnsweredAs(old(table.rows)[delivery.claim.id], delivery.ticket, answers, now, table.rows[delivery.claim.id])
      ensures invalid <==> delivery.ticket in answers && answers[delivery.ticket] == Failed(true)
    {
      PollAnswers(table.rows[delivery.claim.id], answers, now);
      var c, ticket := delivery.claim, delivery.ticket;
      var result := if ticket in answers then answers[ticket] else NotYet;
      NamedUpdate(table.rows, Event(Settle(c, ticket, true), now), c);
      NamedUpdate(table.rows, Event(Settle(c, ticket, false), now), c);
      NamedUpdate(table.rows, Event(Reschedule(c, ticket, delivery.polls, now), now), c);
      invalid := false;
      match result {
        case Arrived =>
          var recorded := table.UpdateTerminal(c, ticket, true, now);
        case Failed(deviceInvalid) =>
          var recorded := table.UpdateTerminal(c, ticket, false, now);
          invalid := recorded && deviceInvalid;
        case NotYet =>
          table.Reschedule(delivery, now, now);
      }
    }

    /** Handles row `i` of a batch when those before it have been. */
    method HandleNext(claimed: seq<ClaimedReceipt>, ghost ids: seq<DeliveryId>, ghost taken: Rows, i: nat, answers: map<string, Receipt>, now: int)
      returns (invalid: bool)
      requires i < |claimed| && BatchOk(taken, ids, claimed) && table.rows == HandledRows(taken, ids[..i], answers, now)
      modifies table
      ensures table.rows == HandledRows(taken, ids[..i + 1], answers, now)
      ensures invalid <==> ReceiptFor(answers, taken[ids[i]].ticket) == Failed(true)
    {
      HandleOne(taken, ids, i, answers, now);
      invalid := Handle(claimed[i], answers, now);
    }

    /** Handles the claimed rows one after the other, until a call fails. */
    method HandleAll(claimed: seq<ClaimedReceipt>, ghost ids: seq<DeliveryId>, answers: map<string, Receipt>, now: int, fault: CycleFault)
      returns (invalid: seq<DeliveryId>)
      requires !fault.ClaimFails? && BatchOk(table.rows, ids, claimed)
      modifies table
      ensures table.rows == HandledRows(old(table.rows), ids[..WrittenUpTo(fault, old(table.rows), ids, answers)], answers, now)
      ensures Reported(invalid, old(table.rows), ids[..JudgedUpTo(fault, old(table.rows), ids, answers)], answers)
    {
      ghost var taken := table.rows;
      invalid := [];
      NothingHandled(taken, answers, now);
      assert ids[..0] == [];
      if fault.QueryFails? {
        return;
      }
      for i := 0 to |claimed|
        invariant table.rows == HandledRows(taken, ids[..i], answers, now)
        invariant Reported(invalid, taken, ids[..i], answers)
        invariant fault.StatementFails? || fault.ReplyLost? ==> i <= fault.at
        invariant fault.DisableFails? && fault.at < i ==> ReceiptFor(answers, taken[ids[fault.at]].ticket) != Failed(true)
      {
        if fault == StatementFails(i) {
          return;
        }
        var disable := HandleNext(claimed, ids, taken, i, answers, now);
        if fault == ReplyLost(i) {
          return;
        }
        ReportedOneMore(invalid, taken, ids, i, answers);
        if disable {
          invalid := invalid + [claimed[i].claim.id];
          if fault == DisableFails(i) {
            return;
          }
        }
      }
      assert ids[..|ids|] == ids;
    }

    /**
      One cycle: the rows due first are polled, and each becomes what the answer to its ticket
      says, up to the call that fails, if one does; the rest stay claimed.
     */
    method DispatchOnce(token: Token, now: int, answers: map<string, Receipt>, fault: CycleFault)
      returns (ids: seq<DeliveryId>, invalid: seq<DeliveryId>)
      requires forall id | id in table.rows && table.rows[id].status.TicketAccepted? :: table.rows[id].ticket.Some?
      modifies table
      ensures fault.ClaimFails? ==> ids == [] && invalid == [] && table.rows == old(table.rows)
      ensures !fault.ClaimFails? ==>
                var claimed := ClaimedRows(old(table.rows), ids, token, now);
                && FirstOf(PollKeys(old(table.rows), now), ids, RECEIPT_BATCH)
                && table.rows == HandledRows(claimed, ids[..WrittenUpTo(fault, claimed, ids, answers)], answers, now)
                && Reported(invalid, claimed, ids[..JudgedUpTo(fault, claimed, ids, answers)], answers)
                && CycleRows(old(table.rows), ids, WrittenUpTo(fault, claimed, ids, answers), token, answers, now, table.rows)
    {
      if fault.ClaimFails? {
        return [], [];
      }
      var claimed: seq<ClaimedReceipt>;
      ids, claimed := table.ClaimPolls(token, now);
      ClaimedBatch(old(table.rows), ids, claimed, token, now);
      ghost var taken := table.rows;
      invalid := HandleAll(claimed, ids, answers, now, fault);
      HandledInCycle(old(table.rows), ids, WrittenUpTo(fault, taken, ids, answers), token, answers, now);
    }
  }
}
