/**
  The table of push deliveries, one row per message and device: the statements that the
  dispatchers, the intent job and the clean-up run on it, each of them one atomic step.
 */
module PushLedger {
  import opened Basics

  type DeliveryId = nat
  type MessageId = nat
  type DeviceId = nat
  /** What a claim writes on the rows it takes; drawn afresh for every claim. */
  type Token = nat

  const LEASE_MS: int := 30_000
  const MINUTE_MS: int := 60_000
  const DAY_MS: int := 24 * 60 * MINUTE_MS
  const RETENTION_MS: int := 14 * DAY_MS
  const FIRST_POLL_MS: int := 15 * MINUTE_MS
  const ATTEMPTS_MAX: nat := 20
  const SEND_BATCH: nat := 5
  const RECEIPT_BATCH: nat := 100
  const CLEANUP_BATCH: nat := 500

  datatype Status = Pending | Processing | TicketAccepted | Delivered | Suppressed | Dead {
    predicate Terminal() {
      Delivered? || Suppressed? || Dead?
    }
  }

  datatype Row = Row(
    message: MessageId,
    device: DeviceId,
    fingerprint: string,
    createdAt: int,
    status: Status,
    attempts: nat,
    receiptAttempts: nat,
    availableAt: int,
    lockedAt: Option<int>,
    claim: Option<Token>,
    ticket: Option<string>,
    ticketAt: Option<int>,
    receiptAt: Option<int>,
    settledAt: Option<int>)

  type Rows = map<DeliveryId, Row>

  // ----- Conditions of the statements ---------------------------------------------------------

  predicate LeaseLost(row: Row, now: int) {
    row.status.Processing? && row.lockedAt.Some? && row.lockedAt.value < now - LEASE_MS
  }

  predicate Sendable(row: Row, now: int) {
    row.ticket.None? && ((row.status.Pending? && row.availableAt <= now) || LeaseLost(row, now))
  }

  predicate Pollable(row: Row, now: int) {
    || (row.status.TicketAccepted? && row.receiptAt.Some? && row.receiptAt.value <= now)
    || (LeaseLost(row, now) && row.ticket.Some?)
  }

  predicate HeldForSend(row: Row, token: Token) {
    row.status.Processing? && row.claim == Some(token) && row.ticket.None?
  }

  predicate HeldForReceipt(row: Row, token: Token, ticket: string) {
    row.status.Processing? && row.claim == Some(token) && row.ticket == Some(ticket)
  }

  predicate Expired(row: Row, now: int) {
    row.status.Terminal() && row.settledAt.Some? && row.settledAt.value < now - RETENTION_MS
  }

  predicate Clashes(row: Row, message: MessageId, device: DeviceId, fingerprint: string) {
    row.message == message && (row.device == device || row.fingerprint == fingerprint)
  }

  // ----- What the statements write -------------------------------------------------------------

  function Pow2(n: nat): (p: nat)
    ensures p >= 1
  {
    if n == 0 then 1 else 2 * Pow2(n - 1)
  }

  function Min(a: int, b: int): int {
    if a <= b then a else b
  }

  /** The wait after the `n`-th failed attempt to send. */
  function Backoff(n: nat): int {
    Min(1_000 * Pow2(if n == 0 then 0 else n - 1), 60_000)
  }

  /** The wait after the `n`-th poll without an answer. */
  function PollDelay(n: nat): int {
    Min(Pow2(if n <= 6 then n else 6), 60) * MINUTE_MS
  }

  /** The wait before sending again is a second and then doubles up to a minute; that before polling again, in minutes, up to an hour. */
  lemma {:induction false} Waits(n: nat)
    ensures Backoff(1) == 1_000
    ensures n >= 1 ==> Backoff(n + 1) == if Backoff(n) > 30_000 then 60_000 else 2 * Backoff(n)
    ensures n >= 7 ==> Backoff(n) == 60_000
    ensures PollDelay(1) == 2 * MINUTE_MS
    ensures n >= 1 ==> PollDelay(n + 1) == if PollDelay(n) > 30 * MINUTE_MS then 60 * MINUTE_MS else 2 * PollDelay(n)
    ensures n >= 6 ==> PollDelay(n) == 60 * MINUTE_MS
  {
    assert Pow2(1) == 2 && Pow2(2) == 4 && Pow2(3) == 8;
    assert Pow2(4) == 16 && Pow2(5) == 32 && Pow2(6) == 64;
    if n > 1 {
      Waits(n - 1);
    }
  }

  function Fresh(message: MessageId, device: DeviceId, fingerprint: string, now: int): Row {
    Row(message, device, fingerprint, now, Pending, 0, 0, now, None, None, None, None, None, None)
  }

  function ClaimedForSend(row: Row, token: Token, now: int): Row {
    row.(status := Processing, lockedAt := Some(now), claim := Some(token), attempts := row.attempts + 1)
  }

  function ClaimedForReceipt(row: Row, token: Token, now: int): Row {
    row.(status := Processing, lockedAt := Some(now), claim := Some(token), receiptAttempts := row.receiptAttempts + 1)
  }

  function Ended(row: Row, status: Status, now: int): Row {
    row.(status := status, settledAt := Some(now), lockedAt := None, claim := None)
  }

  function Accepted(row: Row, ticket: string, now: int): Row {
    row.(status := TicketAccepted, ticket := Some(ticket), ticketAt := Some(now),
         receiptAt := Some(now + FIRST_POLL_MS), lockedAt := None, claim := None)
  }

  /** A failed attempt: the row waits for the next one, or is dead after the twentieth. */
  function Retried(row: Row, attempts: nat, now: int): Row {
    if attempts >= ATTEMPTS_MAX then Ended(row, Dead, now)
    else row.(status := Pending, availableAt := now + Backoff(attempts), lockedAt := None, claim := None)
  }

  /** A poll without an answer: dead after a day, which one statement checks; else the next poll is set by another. */
  function Rescheduled(row: Row, polls: nat, checked: int, now: int): Row {
    if row.ticketAt.Some? && row.ticketAt.value <= checked - DAY_MS then Ended(row, Dead, checked)
    else row.(status := TicketAccepted, receiptAt := Some(now + PollDelay(polls)), lockedAt := None, claim := None)
  }

  // ----- The ledger as a machine ----------------------------------------------------------------

  datatype Claim = Claim(id: DeliveryId, token: Token)

  /** What a claim returned to its dispatcher. */
  datatype Issue = ForSend(attempts: nat) | ForReceipt(polls: nat, ticket: string)

  datatype Op =
    | Insert(id: DeliveryId, message: MessageId, device: DeviceId, fingerprint: string)
    | ClaimSend(ids: set<DeliveryId>, token: Token)
    | Renew(c: Claim)
    | Accept(c: Claim, ticket: string)
    | Suppress(c: Claim)
    | Die(c: Claim)
    | Retry(c: Claim, attempts: nat)
    | ClaimReceipts(ids: set<DeliveryId>, token: Token)
    | Settle(c: Claim, ticket: string, delivered: bool)
    | Reschedule(c: Claim, ticket: string, polls: nat, checked: int)
    | Cleanup(ids: set<DeliveryId>, unfinished: set<MessageId>)

  datatype Event = Event(op: Op, now: int)

  /** `issued` holds every claim ever made and `ever` every row ever inserted. */
  datatype State = State(rows: Rows, clock: int, issued: map<Claim, Issue>, ever: set<DeliveryId>)

  const EMPTY: State := State(map[], 0, map[], {})

  predicate FreshToken(s: State, token: Token) {
    forall c | c in s.issued :: c.token != token
  }

  predicate Enabled(s: State, e: Event) {
    e.now >= s.clock
    && match e.op
       case Insert(id, _, _, _) => id !in s.ever
       case ClaimSend(ids, token) => |ids| <= SEND_BATCH && FreshToken(s, token)
       case Renew(c) => c in s.issued && s.issued[c].ForSend?
       case Accept(c, _) => c in s.issued && s.issued[c].ForSend?
       case Suppress(c) => c in s.issued && s.issued[c].ForSend?
       case Die(c) => c in s.issued && s.issued[c].ForSend?
       case Retry(c, attempts) => c in s.issued && s.issued[c] == ForSend(attempts)
       case ClaimReceipts(ids, token) => |ids| <= RECEIPT_BATCH && FreshToken(s, token)
       case Settle(c, ticket, _) => c in s.issued && s.issued[c].ForReceipt? && s.issued[c].ticket == ticket
       case Reschedule(c, ticket, polls, checked) =>
         c in s.issued && s.issued[c] == ForReceipt(polls, ticket) && s.clock <= checked <= e.now
       case Cleanup(ids, _) => |ids| <= CLEANUP_BATCH
  }

  /** Whether a claim takes the row. */
  predicate Takes(e: Event, id: DeliveryId, row: Row) {
    || (e.op.ClaimSend? && id in e.op.ids && Sendable(row, e.now))
    || (e.op.ClaimReceipts? && id in e.op.ids && Pollable(row, e.now))
  }

  function RowAfter(id: DeliveryId, row: Row, e: Event): Row {
    match e.op
    case Insert(_, _, _, _) => row
    case ClaimSend(_, token) => if Takes(e, id, row) then ClaimedForSend(row, token, e.now) else row
    case Renew(c) => if c.id == id && HeldForSend(row, c.token) then row.(lockedAt := Some(e.now)) else row
    case Accept(c, ticket) => if c.id == id && HeldForSend(row, c.token) then Accepted(row, ticket, e.now) else row
    case Suppress(c) => if c.id == id && HeldForSend(row, c.token) then Ended(row, Suppressed, e.now) else row
    case Die(c) => if c.id == id && HeldForSend(row, c.token) then Ended(row, Dead, e.now) else row
    case Retry(c, attempts) => if c.id == id && HeldForSend(row, c.token) then Retried(row, attempts, e.now) else row
    case ClaimReceipts(_, token) => if Takes(e, id, row) then ClaimedForReceipt(row, token, e.now) else row
    case Settle(c, ticket, delivered) =>
      if c.id == id && HeldForReceipt(row, c.token, ticket) then Ended(row, if delivered then Delivered else Dead, e.now) else row
    case Reschedule(c, ticket, polls, checked) =>
      if c.id == id && HeldForReceipt(row, c.token, ticket) then Rescheduled(row, polls, checked, e.now) else row
    case Cleanup(_, _) => row
  }

  predicate CleanedUp(id: DeliveryId, row: Row, e: Event) {
    e.op.Cleanup? && id in e.op.ids && Expired(row, e.now) && row.message !in e.op.unfinished
  }

  function RowsAfter(rows: Rows, e: Event): Rows {
    var kept := map id | id in rows && !CleanedUp(id, rows[id], e) :: RowAfter(id, rows[id], e);
    if e.op.Insert? && (forall id | id in rows :: !Clashes(rows[id], e.op.message, e.op.device, e.op.fingerprint)) then
      kept[e.op.id := Fresh(e.op.message, e.op.device, e.op.fingerprint, e.now)]
    else kept
  }

  /** The claims that an event makes. */
  function NewClaims(rows: Rows, e: Event): (r: set<Claim>)
    ensures forall c | c in r :: c.id in rows && Takes(e, c.id, rows[c.id]) && c.token == e.op.token
  {
    if e.op.ClaimSend? || e.op.ClaimReceipts? then set id | id in rows && Takes(e, id, rows[id]) :: Claim(id, e.op.token)
    else {}
  }

  function NewlyIssued(rows: Rows, e: Event): map<Claim, Issue> {
    map c | c in NewClaims(rows, e) ::
      if e.op.ClaimSend? then ForSend(rows[c.id].attempts + 1)
      else ForReceipt(rows[c.id].receiptAttempts + 1, rows[c.id].ticket.GetOr(""))
  }

  function Next(s: State, e: Event): State {
    State(RowsAfter(s.rows, e), e.now, s.issued + NewlyIssued(s.rows, e), s.ever + if e.op.Insert? then {e.op.id} else {})
  }

  ghost predicate Leads(s: State, e: Event, t: State) {
    Enabled(s, e) && t == Next(s, e)
  }

  ghost predicate Moves(states: seq<State>, events: seq<Event>, k: nat)
    requires k < |events| && |states| == |events| + 1
  {
    Leads(states[k], events[k], states[k + 1])
  }

  /** A run from the empty ledger: `states[k]` is the state before event `k`. */
  ghost predicate Run(states: seq<State>, events: seq<Event>) {
    && |states| == |events| + 1
    && states[0] == EMPTY
    && forall k | 0 <= k < |events| :: Moves(states, events, k)
  }

  // ----- What every reachable ledger keeps -----------------------------------------------------

  ghost predicate RowOk(row: Row, clock: int) {
    && (row.ticket.Some? <==> row.ticketAt.Some?)
    && (row.ticket.Some? ==> row.ticketAt.value <= clock)
    && (row.ticket.None? ==> row.receiptAttempts == 0)
    && (row.status.Processing? <==> row.claim.Some?)
    && (row.status.Pending? ==> row.ticket.None? && row.attempts < ATTEMPTS_MAX)
    && (row.status.Processing? ==> row.lockedAt.Some? && row.lockedAt.value <= clock)
    && (row.status.TicketAccepted? ==> row.ticket.Some? && row.receiptAt.Some?)
    && (row.status.Delivered? ==> row.ticket.Some?)
    && (row.status.Suppressed? ==> row.ticket.None?)
    && (row.status.Terminal() ==> row.settledAt.Some?)
  }

  /** The issue that the claim of a row in processing must have had. */
  function IssueOf(row: Row): Issue {
    if row.ticket.None? then ForSend(row.attempts) else ForReceipt(row.receiptAttempts, row.ticket.value)
  }

  ghost predicate ClaimKnown(issued: map<Claim, Issue>, id: DeliveryId, row: Row) {
    row.claim.Some? ==> Claim(id, row.claim.value) in issued && issued[Claim(id, row.claim.value)] == IssueOf(row)
  }

  predicate SameDelivery(a: Row, b: Row) {
    a.message == b.message && a.device == b.device && a.fingerprint == b.fingerprint && a.createdAt == b.createdAt
  }

  ghost predicate NoClashes(rows: Rows) {
    forall i, j | i in rows && j in rows && i != j :: !Clashes(rows[i], rows[j].message, rows[j].device, rows[j].fingerprint)
  }

  ghost predicate RowsKnown(s: State) {
    forall id | id in s.rows :: id in s.ever
  }

  ghost predicate Inv(s: State) {
    && RowsKnown(s)
    && (forall id | id in s.rows :: RowOk(s.rows[id], s.clock) && ClaimKnown(s.issued, id, s.rows[id]))
    && (forall c | c in s.issued :: c.id in s.ever)
    && NoClashes(s.rows)
  }

  lemma IssuedStays(s: State, e: Event, c: Claim)
    requires Enabled(s, e) && c in s.issued
    ensures c in Next(s, e).issued && Next(s, e).issued[c] == s.issued[c]
  {
    assert c !in NewClaims(s.rows, e);
  }

  lemma RowAfterKeepsDelivery(id: DeliveryId, row: Row, e: Event)
    ensures SameDelivery(row, RowAfter(id, row, e))
  {
  }

  lemma TakenRowIsIssued(s: State, e: Event, id: DeliveryId)
    requires id in s.rows && Takes(e, id, s.rows[id])
    requires RowOk(s.rows[id], s.clock) && e.now >= s.clock
    ensures RowOk(RowAfter(id, s.rows[id], e), e.now)
    ensures ClaimKnown(Next(s, e).issued, id, RowAfter(id, s.rows[id], e))
  {
    assert Claim(id, e.op.token) in NewlyIssued(s.rows, e);
  }

  /** The claim that a statement names, for those that act on one claimed row. */
  function Named(op: Op): Option<Claim> {
    match op
    case Renew(c) => Some(c)
    case Accept(c, _) => Some(c)
    case Suppress(c) => Some(c)
    case Die(c) => Some(c)
    case Retry(c, _) => Some(c)
    case Settle(c, _, _) => Some(c)
    case Reschedule(c, _, _, _) => Some(c)
    case _ => None
  }

  /** A statement that names no claim of the row, and does not take it, leaves it alone. */
  lemma Untouched(id: DeliveryId, row: Row, e: Event)
    requires !Takes(e, id, row)
    requires row.claim.Some? ==> Named(e.op) != Some(Claim(id, row.claim.value))
    requires row.status.Processing? ==> row.claim.Some?
    ensures RowAfter(id, row, e) == row
  {
  }

  lemma HeldRowStaysOk(s: State, e: Event, id: DeliveryId)
    requires id in s.rows && RowOk(s.rows[id], s.clock) && ClaimKnown(s.issued, id, s.rows[id]) && Enabled(s, e)
    requires s.rows[id].claim.Some? && Named(e.op) == Some(Claim(id, s.rows[id].claim.value))
    ensures RowOk(RowAfter(id, s.rows[id], e), e.now)
    ensures RowAfter(id, s.rows[id], e).claim.Some? ==>
              RowAfter(id, s.rows[id], e) == s.rows[id].(lockedAt := RowAfter(id, s.rows[id], e).lockedAt)
  {
  }

  lemma RowStaysOk(s: State, e: Event, id: DeliveryId)
    requires id in s.rows && RowOk(s.rows[id], s.clock) && ClaimKnown(s.issued, id, s.rows[id]) && Enabled(s, e)
    ensures RowOk(RowAfter(id, s.rows[id], e), e.now)
    ensures ClaimKnown(Next(s, e).issued, id, RowAfter(id, s.rows[id], e))
  {
    var row := s.rows[id];
    if row.claim.Some? {
      IssuedStays(s, e, Claim(id, row.claim.value));
    }
    if Takes(e, id, row) {
      TakenRowIsIssued(s, e, id);
    } else if row.claim.Some? && Named(e.op) == Some(Claim(id, row.claim.value)) {
      HeldRowStaysOk(s, e, id);
    } else {
      Untouched(id, row, e);
    }
  }

  lemma StaysClashFree(rows: Rows, e: Event)
    requires NoClashes(rows) && (e.op.Insert? ==> e.op.id !in rows)
    ensures NoClashes(RowsAfter(rows, e))
  {
    var after := RowsAfter(rows, e);
    forall id | id in rows && id in after ensures SameDelivery(rows[id], after[id]) {
      RowAfterKeepsDelivery(id, rows[id], e);
    }
    assert forall id | id in after :: id in rows || (e.op.Insert? && id == e.op.id);
  }

  lemma EventKeepsInv(s: State, e: Event)
    requires Inv(s) && Enabled(s, e)
    ensures Inv(Next(s, e))
  {
    var s' := Next(s, e);
    forall id | id in s'.rows
      ensures id in s'.ever && RowOk(s'.rows[id], s'.clock) && ClaimKnown(s'.issued, id, s'.rows[id])
    {
      if id in s.rows {
        RowStaysOk(s, e, id);
      }
    }
    StaysClashFree(s.rows, e);
  }

  lemma {:induction false} RunKeepsInv(states: seq<State>, events: seq<Event>, n: nat)
    requires Run(states, events) && n <= |events|
    ensures Inv(states[n])
  {
    if n > 0 {
      RunKeepsInv(states, events, n - 1);
      assert Moves(states, events, n - 1);
      EventKeepsInv(states[n - 1], events[n - 1]);
    }
  }

  /** Every pending row has had fewer than twenty attempts, and neither pending nor suppressed rows have a ticket. */
  lemma PendingBelowTwenty(states: seq<State>, events: seq<Event>, n: nat, id: DeliveryId)
    requires Run(states, events) && n <= |events| && id in states[n].rows
    ensures var row := states[n].rows[id];
            && (row.status.Pending? ==> row.attempts < ATTEMPTS_MAX)
            && (row.status.Pending? || row.status.Suppressed? ==> row.ticket.None?)
            && (row.status.TicketAccepted? || row.status.Delivered? ==> row.ticket.Some?)
  {
    RunKeepsInv(states, events, n);
  }

  // ----- What a row may become -------------------------------------------------------------------

  /** A ticket stays and ends all sending; a row that is settled does not change. */
  ghost predicate Follows(a: Row, b: Row) {
    && SameDelivery(a, b)
    && a.attempts <= b.attempts && a.receiptAttempts <= b.receiptAttempts
    && (a.ticket.Some? ==> b.ticket == a.ticket && b.ticketAt == a.ticketAt && b.attempts == a.attempts)
    && (a.status.Terminal() ==> b == a)
  }

  lemma RowAfterFollows(id: DeliveryId, row: Row, e: Event)
    ensures Follows(row, RowAfter(id, row, e))
  {
  }

  lemma EventFollows(s: State, e: Event, id: DeliveryId)
    requires RowsKnown(s) && Enabled(s, e) && id in s.ever
    ensures id in Next(s, e).ever
    ensures id in Next(s, e).rows ==> id in s.rows && Follows(s.rows[id], Next(s, e).rows[id])
  {
    if id in s.rows {
      RowAfterFollows(id, s.rows[id], e);
    }
  }

  lemma MomentFollows(states: seq<State>, events: seq<Event>, k: nat, id: DeliveryId)
    requires Run(states, events) && k < |events| && id in states[k].ever
    ensures id in states[k + 1].ever
    ensures id in states[k + 1].rows ==> id in states[k].rows && Follows(states[k].rows[id], states[k + 1].rows[id])
  {
    RunKeepsInv(states, events, k);
    assert Moves(states, events, k);
    EventFollows(states[k], events[k], id);
  }

  /** Between any two moments of a run: the ticket has not changed, settled rows are as they were, and nothing was inserted again. */
  lemma {:induction false} RowHistory(states: seq<State>, events: seq<Event>, i: nat, j: nat, id: DeliveryId)
    requires Run(states, events) && i <= j <= |events| && id in states[i].ever
    ensures id in states[j].ever
    ensures id in states[j].rows ==> id in states[i].rows && Follows(states[i].rows[id], states[j].rows[id])
  {
    if i < j {
      RowHistory(states, events, i, j - 1, id);
      MomentFollows(states, events, j - 1, id);
    }
  }

  /** Claims to send take exactly the rows without a ticket, claims to poll exactly those with one. */
  lemma ClaimsMatchTickets(states: seq<State>, events: seq<Event>, j: nat, id: DeliveryId)
    requires Run(states, events) && j < |events| && id in states[j].rows
    requires Takes(events[j], id, states[j].rows[id])
    ensures events[j].op.ClaimSend? <==> states[j].rows[id].ticket.None?
    ensures !states[j].rows[id].status.Terminal()
  {
    RunKeepsInv(states, events, j);
  }

  // ----- A claim ends once -----------------------------------------------------------------------

  predicate Current(s: State, c: Claim) {
    c.id in s.rows && s.rows[c.id].claim == Some(c.token)
  }

  lemma ClaimOfRowAfter(id: DeliveryId, row: Row, e: Event)
    ensures var after := RowAfter(id, row, e);
            after.claim.None? || after.claim == row.claim || (Takes(e, id, row) && after.claim == Some(e.op.token))
  {
  }

  lemma RetiredOnce(s: State, e: Event, c: Claim)
    requires Inv(s) && Enabled(s, e) && c in s.issued && !Current(s, c)
    ensures c in Next(s, e).issued && !Current(Next(s, e), c)
  {
    IssuedStays(s, e, c);
    if c.id in s.rows {
      ClaimOfRowAfter(c.id, s.rows[c.id], e);
    }
  }

  lemma MomentRetires(states: seq<State>, events: seq<Event>, k: nat, c: Claim)
    requires Run(states, events) && k < |events| && c in states[k].issued && !Current(states[k], c)
    ensures c in states[k + 1].issued && !Current(states[k + 1], c)
  {
    RunKeepsInv(states, events, k);
    assert Moves(states, events, k);
    RetiredOnce(states[k], events[k], c);
  }

  lemma {:induction false} RetiredStaysRetired(states: seq<State>, events: seq<Event>, i: nat, j: nat, c: Claim)
    requires Run(states, events) && i <= j <= |events| && c in states[i].issued && !Current(states[i], c)
    ensures c in states[j].issued && !Current(states[j], c)
  {
    if i < j {
      RetiredStaysRetired(states, events, i, j - 1, c);
      MomentRetires(states, events, j - 1, c);
    }
  }

  lemma VoidWhenRetired(s: State, e: Event, c: Claim)
    requires Inv(s) && Named(e.op) == Some(c) && !Current(s, c)
    ensures RowsAfter(s.rows, e) == s.rows
  {
    forall id | id in s.rows ensures RowAfter(id, s.rows[id], e) == s.rows[id] {
      Untouched(id, s.rows[id], e);
    }
  }

  /** Once a claim has left processing, or another has taken its row, no statement under it changes anything. */
  lemma LeavesAtMostOnce(states: seq<State>, events: seq<Event>, i: nat, j: nat, c: Claim)
    requires Run(states, events) && i <= j < |events| && Named(events[j].op) == Some(c)
    requires c in states[i].issued && !Current(states[i], c)
    ensures states[j + 1].rows == states[j].rows
  {
    RetiredStaysRetired(states, events, i, j, c);
    RunKeepsInv(states, events, j);
    assert Moves(states, events, j);
    VoidWhenRetired(states[j], events[j], c);
  }

  /** A row under a live lease changes only by a statement that names its claim. */
  lemma LeaseHolds(s: State, e: Event, c: Claim, since: int)
    requires Inv(s) && Enabled(s, e) && Current(s, c) && s.rows[c.id].lockedAt.Some? && s.rows[c.id].lockedAt.value >= since
    requires e.now <= since + LEASE_MS && Named(e.op) != Some(c)
    ensures Current(Next(s, e), c) && Next(s, e).rows[c.id] == s.rows[c.id]
  {
    Untouched(c.id, s.rows[c.id], e);
  }

  lemma MomentHolds(states: seq<State>, events: seq<Event>, k: nat, c: Claim, since: int)
    requires Run(states, events) && k < |events|
    requires Current(states[k], c) && states[k].rows[c.id].lockedAt.Some? && states[k].rows[c.id].lockedAt.value >= since
    requires events[k].now <= since + LEASE_MS && Named(events[k].op) != Some(c)
    ensures Current(states[k + 1], c) && states[k + 1].rows[c.id] == states[k].rows[c.id]
  {
    RunKeepsInv(states, events, k);
    assert Moves(states, events, k);
    LeaseHolds(states[k], events[k], c, since);
  }

  /** For thirty seconds after a renewal nobody but its own claimant can change the row, let alone claim it. */
  lemma {:induction false} RenewalExcludesOthers(states: seq<State>, events: seq<Event>, i: nat, j: nat, c: Claim)
    requires Run(states, events) && i <= j <= |events|
    requires Current(states[i], c) && states[i].rows[c.id].lockedAt == Some(states[i].clock)
    requires forall k | i <= k < j :: events[k].now <= states[i].clock + LEASE_MS && Named(events[k].op) != Some(c)
    ensures Current(states[j], c) && states[j].rows[c.id] == states[i].rows[c.id]
  {
    if i < j {
      RenewalExcludesOthers(states, events, i, j - 1, c);
      MomentHolds(states, events, j - 1, c, states[i].clock);
    }
  }

  // ----- Counting the claims -----------------------------------------------------------------------

  predicate TakenAt(s: State, e: Event, id: DeliveryId) {
    id in s.rows && Takes(e, id, s.rows[id])
  }

  function ClaimsOf(s: State, e: Event, id: DeliveryId, sending: bool): nat {
    if TakenAt(s, e, id) && e.op.ClaimSend? == sending then 1 else 0
  }

  /** How many of the first `n` events claimed the delivery, for sending or for polling. */
  ghost function Claims(states: seq<State>, events: seq<Event>, n: nat, id: DeliveryId, sending: bool): nat
    requires n <= |events| < |states|
  {
    if n == 0 then 0
    else Claims(states, events, n - 1, id, sending) + ClaimsOf(states[n - 1], events[n - 1], id, sending)
  }

  lemma CountsAfter(id: DeliveryId, row: Row, e: Event)
    ensures var after, taken := RowAfter(id, row, e), Takes(e, id, row);
            && after.attempts == row.attempts + (if taken && e.op.ClaimSend? then 1 else 0)
            && after.receiptAttempts == row.receiptAttempts + (if taken && !e.op.ClaimSend? then 1 else 0)
  {
  }

  function CountOf(row: Row, sending: bool): nat {
    if sending then row.attempts else row.receiptAttempts
  }

  lemma EventCounts(s: State, e: Event, id: DeliveryId, sending: bool)
    requires RowsKnown(s) && Enabled(s, e)
    ensures id !in Next(s, e).ever ==> id !in s.ever && id !in s.rows
    ensures id in Next(s, e).rows ==>
              CountOf(Next(s, e).rows[id], sending)
              == if id in s.rows then CountOf(s.rows[id], sending) + ClaimsOf(s, e, id, sending) else 0
    ensures id in Next(s, e).rows ==> id in s.rows || id !in s.ever
  {
    if id in s.rows {
      CountsAfter(id, s.rows[id], e);
    }
  }

  lemma MomentCounts(states: seq<State>, events: seq<Event>, k: nat, id: DeliveryId, sending: bool)
    requires Run(states, events) && k < |events|
    ensures id !in states[k + 1].ever ==> id !in states[k].ever && ClaimsOf(states[k], events[k], id, sending) == 0
    ensures id in states[k + 1].rows ==>
              CountOf(states[k + 1].rows[id], sending)
              == if id in states[k].rows then CountOf(states[k].rows[id], sending) + ClaimsOf(states[k], events[k], id, sending) else 0
    ensures id in states[k + 1].rows && id !in states[k].rows ==> id !in states[k].ever && ClaimsOf(states[k], events[k], id, sending) == 0
  {
    RunKeepsInv(states, events, k);
    assert Moves(states, events, k);
    EventCounts(states[k], events[k], id, sending);
  }

  /** A row's attempts are exactly the claims that took it, leases lost or not. */
  lemma {:induction false} AttemptsAreClaims(states: seq<State>, events: seq<Event>, n: nat, id: DeliveryId, sending: bool)
    requires Run(states, events) && n <= |events|
    ensures id in states[n].rows ==> CountOf(states[n].rows[id], sending) == Claims(states, events, n, id, sending)
    ensures id !in states[n].ever ==> Claims(states, events, n, id, sending) == 0
  {
    if n > 0 {
      AttemptsAreClaims(states, events, n - 1, id, sending);
      MomentCounts(states, events, n - 1, id, sending);
    }
  }

  /** No claim of the delivery among the first `n` events took it over from an older claim. */
  ghost predicate NoLeaseLost(states: seq<State>, events: seq<Event>, n: nat, id: DeliveryId)
    requires n <= |events| < |states|
  {
    forall k | 0 <= k < n && TakenAt(states[k], events[k], id) :: !states[k].rows[id].status.Processing?
  }

  lemma TakenBelowTwenty(states: seq<State>, events: seq<Event>, k: nat, id: DeliveryId)
    requires Run(states, events) && k < |events| && TakenAt(states[k], events[k], id) && events[k].op.ClaimSend?
    requires !states[k].rows[id].status.Processing?
    ensures states[k].rows[id].attempts < ATTEMPTS_MAX
  {
    RunKeepsInv(states, events, k);
  }

  lemma {:induction false} AtMostTwentySends(states: seq<State>, events: seq<Event>, n: nat, id: DeliveryId)
    requires Run(states, events) && n <= |events| && NoLeaseLost(states, events, n, id)
    ensures id in states[n].rows ==> states[n].rows[id].attempts <= ATTEMPTS_MAX
  {
    if n > 0 {
      AtMostTwentySends(states, events, n - 1, id);
      MomentCounts(states, events, n - 1, id, true);
      if TakenAt(states[n - 1], events[n - 1], id) && events[n - 1].op.ClaimSend? {
        TakenBelowTwenty(states, events, n - 1, id);
      }
    }
  }

  /** A failed attempt ends the row exactly from its twentieth claim on; with no lease lost that is the twentieth, and the last. */
  lemma DeadAtTheTwentieth(states: seq<State>, events: seq<Event>, n: nat, c: Claim, attempts: nat)
    requires Run(states, events) && n < |events| && events[n].op == Retry(c, attempts)
    requires Current(states[n], c)
    ensures c.id in states[n + 1].rows
    ensures states[n + 1].rows[c.id].status == if Claims(states, events, n, c.id, true) >= ATTEMPTS_MAX then Dead else Pending
    ensures NoLeaseLost(states, events, n, c.id) ==> Claims(states, events, n, c.id, true) <= ATTEMPTS_MAX
  {
    RunKeepsInv(states, events, n);
    assert Moves(states, events, n);
    AttemptsAreClaims(states, events, n, c.id, true);
    if NoLeaseLost(states, events, n, c.id) {
      AtMostTwentySends(states, events, n, c.id);
    }
  }

  // ----- At most twenty-nine polls -----------------------------------------------------------------

  /** The earliest time of the `k`-th poll, counted from the ticket, when no lease is lost. */
  function Earliest(k: nat): int {
    if k <= 1 then FIRST_POLL_MS else Earliest(k - 1) + PollDelay(k - 1)
  }

  lemma {:induction false} EarliestGrows(k: nat)
    ensures Pow2(6) == 64
    ensures k >= 6 ==> Earliest(k) == (77 + 60 * (k - 6)) * MINUTE_MS
    ensures 1 <= k <= 6 ==> Earliest(k) == (13 + Pow2(k)) * MINUTE_MS
  {
    assert Pow2(1) == 2 && Pow2(2) == 4 && Pow2(3) == 8;
    assert Pow2(4) == 16 && Pow2(5) == 32 && Pow2(6) == 64;
    if k > 1 {
      EarliestGrows(k - 1);
    }
  }

  /** The day is over before the twenty-ninth poll and not before the twenty-eighth. */
  lemma DayInPolls(k: nat)
    ensures Earliest(k) < DAY_MS <==> k <= 28
  {
    EarliestGrows(k);
    assert Pow2(1) == 2 && Pow2(2) == 4 && Pow2(3) == 8;
    assert Pow2(4) == 16 && Pow2(5) == 32;
  }

  ghost predicate PollsOk(row: Row) {
    && (row.status.TicketAccepted? && row.ticketAt.Some? && row.receiptAt.Some? ==>
          row.receiptAttempts <= 28 && row.receiptAt.value >= row.ticketAt.value + Earliest(row.receiptAttempts + 1))
    && (row.status.Processing? && row.ticketAt.Some? && row.lockedAt.Some? ==>
          1 <= row.receiptAttempts <= 29 && row.lockedAt.value >= row.ticketAt.value + Earliest(row.receiptAttempts))
    && row.receiptAttempts <= 29
  }

  lemma TakenKeepsPolls(s: State, e: Event, id: DeliveryId)
    requires Inv(s) && Enabled(s, e) && id in s.rows && PollsOk(s.rows[id])
    requires Takes(e, id, s.rows[id]) && !s.rows[id].status.Processing?
    ensures PollsOk(RowAfter(id, s.rows[id], e))
  {
    assert RowOk(s.rows[id], s.clock);
  }

  lemma NamedKeepsPolls(s: State, e: Event, id: DeliveryId)
    requires Inv(s) && Enabled(s, e) && id in s.rows && PollsOk(s.rows[id])
    requires s.rows[id].claim.Some? && Named(e.op) == Some(Claim(id, s.rows[id].claim.value))
    ensures PollsOk(RowAfter(id, s.rows[id], e))
  {
    if e.op.Reschedule? {
      DayInPolls(s.rows[id].receiptAttempts);
    }
  }

  lemma PollsStayOk(s: State, e: Event, id: DeliveryId)
    requires Inv(s) && Enabled(s, e) && id in s.rows && PollsOk(s.rows[id])
    requires Takes(e, id, s.rows[id]) ==> !s.rows[id].status.Processing?
    ensures PollsOk(RowAfter(id, s.rows[id], e))
  {
    var row := s.rows[id];
    if Takes(e, id, row) {
      TakenKeepsPolls(s, e, id);
    } else if row.claim.Some? && Named(e.op) == Some(Claim(id, row.claim.value)) {
      NamedKeepsPolls(s, e, id);
    } else {
      Untouched(id, row, e);
    }
  }

  lemma EventKeepsPolls(s: State, e: Event, id: DeliveryId)
    requires Inv(s) && Enabled(s, e)
    requires id in s.rows ==> PollsOk(s.rows[id])
    requires TakenAt(s, e, id) ==> !s.rows[id].status.Processing?
    ensures id in Next(s, e).rows ==> PollsOk(Next(s, e).rows[id])
  {
    if id in s.rows {
      PollsStayOk(s, e, id);
    }
  }

  lemma MomentKeepsPolls(states: seq<State>, events: seq<Event>, k: nat, id: DeliveryId)
    requires Run(states, events) && k < |events| && (id in states[k].rows ==> PollsOk(states[k].rows[id]))
    requires TakenAt(states[k], events[k], id) ==> !states[k].rows[id].status.Processing?
    ensures id in states[k + 1].rows ==> PollsOk(states[k + 1].rows[id])
  {
    RunKeepsInv(states, events, k);
    assert Moves(states, events, k);
    EventKeepsPolls(states[k], events[k], id);
  }

  lemma {:induction false} PollsAlwaysOk(states: seq<State>, events: seq<Event>, n: nat, id: DeliveryId)
    requires Run(states, events) && n <= |events| && NoLeaseLost(states, events, n, id)
    ensures id in states[n].rows ==> PollsOk(states[n].rows[id])
  {
    if n > 0 {
      PollsAlwaysOk(states, events, n - 1, id);
      MomentKeepsPolls(states, events, n - 1, id);
    }
  }

  /** With no lease lost a ticket is polled at most twenty-nine times, and no answer to the twenty-ninth poll ends the row. */
  lemma AtMostTwentyNinePolls(states: seq<State>, events: seq<Event>, n: nat, id: DeliveryId)
    requires Run(states, events) && n <= |events| && NoLeaseLost(states, events, n, id) && id in states[n].rows
    ensures Claims(states, events, n, id, false) <= 29
    ensures Claims(states, events, n, id, false) == 29 ==>
              states[n].rows[id].status.Processing? || states[n].rows[id].status.Terminal()
  {
    AttemptsAreClaims(states, events, n, id, false);
    PollsAlwaysOk(states, events, n, id);
    RunKeepsInv(states, events, n);
  }

  // ----- Twenty-nine polls do happen -----------------------------------------------------------------

  lemma Extend(states: seq<State>, events: seq<Event>, e: Event, id: DeliveryId)
    requires Run(states, events) && NoLeaseLost(states, events, |events|, id)
    requires var last := states[|events|];
             Enabled(last, e) && (TakenAt(last, e, id) ==> !last.rows[id].status.Processing?)
    ensures var states', events' := states + [Next(states[|events|], e)], events + [e];
            Run(states', events') && NoLeaseLost(states', events', |events'|, id)
  {
    var states', events' := states + [Next(states[|events|], e)], events + [e];
    forall k | 0 <= k < |events'| ensures Moves(states', events', k) {
      if k < |events| {
        assert Moves(states, events, k);
      }
    }
  }

  /** One row, polled for the `k`-th time as early as it could be. */
  ghost predicate PolledEarly(s: State, k: nat) {
    && s.clock == Earliest(k)
    && (forall c | c in s.issued :: c.token <= k)
    && s.rows.Keys == {0}
    && HeldForReceipt(s.rows[0], k, "ticket")
    && s.rows[0].ticketAt == Some(0) && s.rows[0].receiptAttempts == k
    && Claim(0, k) in s.issued && s.issued[Claim(0, k)] == ForReceipt(k, "ticket")
  }

  /** The receipt is asked for, not answered, and asked for again as soon as it is due. */
  function PollAgain(k: nat): (Event, Event) {
    (Event(Reschedule(Claim(0, k), "ticket", k, Earliest(k)), Earliest(k)), Event(ClaimReceipts({0}, k + 1), Earliest(k + 1)))
  }

  lemma RescheduleOnce(s: State, k: nat)
    requires PolledEarly(s, k) && 1 <= k <= 28
    ensures Enabled(s, PollAgain(k).0)
    ensures var t := Next(s, PollAgain(k).0);
            && t.rows == map[0 := Rescheduled(s.rows[0], k, Earliest(k), Earliest(k))]
            && t.rows[0].status.TicketAccepted? && t.rows[0].receiptAt == Some(Earliest(k + 1))
            && t.issued == s.issued && t.clock == s.clock
  {
    DayInPolls(k);
  }

  lemma TakenAlone(t: State, e: Event)
    requires t.rows.Keys == {0} && e.op.ClaimReceipts? && 0 in e.op.ids && Pollable(t.rows[0], e.now)
    ensures NewClaims(t.rows, e) == {Claim(0, e.op.token)}
    ensures RowsAfter(t.rows, e) == map[0 := ClaimedForReceipt(t.rows[0], e.op.token, e.now)]
  {
    assert Takes(e, 0, t.rows[0]);
  }

  lemma ClaimedAlone(t: State, e: Event)
    requires t.rows.Keys == {0} && e.op.ClaimReceipts? && 0 in e.op.ids && Pollable(t.rows[0], e.now)
    ensures Next(t, e).rows == map[0 := ClaimedForReceipt(t.rows[0], e.op.token, e.now)]
    ensures Next(t, e).issued
         == t.issued[Claim(0, e.op.token) := ForReceipt(t.rows[0].receiptAttempts + 1, t.rows[0].ticket.GetOr(""))]
  {
    TakenAlone(t, e);
  }

  lemma ClaimAgain(t: State, k: nat, e: Event)
    requires e == Event(ClaimReceipts({0}, k + 1), Earliest(k + 1))
    requires t.clock <= e.now && t.rows.Keys == {0} && forall c | c in t.issued :: c.token <= k
    requires t.rows[0].status.TicketAccepted? && t.rows[0].receiptAt == Some(e.now)
    requires t.rows[0].ticket == Some("ticket") && t.rows[0].ticketAt == Some(0) && t.rows[0].receiptAttempts == k
    ensures PolledEarly(Next(t, e), k + 1)
  {
    ClaimedAlone(t, e);
  }

  lemma PollOnce(s: State, k: nat)
    requires PolledEarly(s, k) && 1 <= k <= 28
    ensures Enabled(s, PollAgain(k).0)
    ensures var t := Next(s, PollAgain(k).0);
            && Enabled(t, PollAgain(k).1) && t.rows.Keys == {0} && t.rows[0].status.TicketAccepted?
            && PolledEarly(Next(t, PollAgain(k).1), k + 1)
  {
    RescheduleOnce(s, k);
    assert FreshToken(Next(s, PollAgain(k).0), k + 1);
    ClaimAgain(Next(s, PollAgain(k).0), k, PollAgain(k).1);
  }

  lemma FirstRow() returns (states: seq<State>, events: seq<Event>)
    ensures Run(states, events) && NoLeaseLost(states, events, |events|, 0)
    ensures states[|events|] == State(map[0 := Fresh(0, 0, "", 0)], 0, map[], {0})
  {
    states, events := [EMPTY], [];
    var e := Event(Insert(0, 0, 0, ""), 0);
    assert RowsAfter(EMPTY.rows, e) == map[0 := Fresh(0, 0, "", 0)];
    Extend(states, events, e, 0);
    states, events := states + [Next(EMPTY, e)], events + [e];
  }

  lemma FirstClaim() returns (states: seq<State>, events: seq<Event>)
    ensures Run(states, events) && NoLeaseLost(states, events, |events|, 0)
    ensures states[|events|] == State(map[0 := ClaimedForSend(Fresh(0, 0, "", 0), 0, 0)], 0, map[Claim(0, 0) := ForSend(1)], {0})
  {
    states, events := FirstRow();
    var s, e := states[|events|], Event(ClaimSend({0}, 0), 0);
    assert NewClaims(s.rows, e) == {Claim(0, 0)};
    assert RowsAfter(s.rows, e) == map[0 := ClaimedForSend(Fresh(0, 0, "", 0), 0, 0)];
    Extend(states, events, e, 0);
    states, events := states + [Next(s, e)], events + [e];
  }

  lemma FirstTicket() returns (states: seq<State>, events: seq<Event>)
    ensures Run(states, events) && NoLeaseLost(states, events, |events|, 0)
    ensures var sent := ClaimedForSend(Fresh(0, 0, "", 0), 0, 0);
            states[|events|] == State(map[0 := Accepted(sent, "ticket", 0)], 0, map[Claim(0, 0) := ForSend(1)], {0})
  {
    states, events := FirstClaim();
    var s, e := states[|events|], Event(Accept(Claim(0, 0), "ticket"), 0);
    assert RowAfter(0, s.rows[0], e) == Accepted(s.rows[0], "ticket", 0);
    assert NewlyIssued(s.rows, e) == map[];
    Extend(states, events, e, 0);
    states, events := states + [Next(s, e)], events + [e];
  }

  lemma FirstPoll() returns (states: seq<State>, events: seq<Event>)
    ensures Run(states, events) && NoLeaseLost(states, events, |events|, 0) && PolledEarly(states[|events|], 1)
  {
    states, events := FirstTicket();
    var s, e := states[|events|], Event(ClaimReceipts({0}, 1), FIRST_POLL_MS);
    assert NewClaims(s.rows, e) == {Claim(0, 1)};
    Extend(states, events, e, 0);
    states, events := states + [Next(s, e)], events + [e];
  }

  lemma OnePollMore(states: seq<State>, events: seq<Event>, k: nat) returns (states': seq<State>, events': seq<Event>)
    requires Run(states, events) && NoLeaseLost(states, events, |events|, 0)
    requires 1 <= k <= 28 && PolledEarly(states[|events|], k)
    ensures Run(states', events') && NoLeaseLost(states', events', |events'|, 0) && PolledEarly(states'[|events'|], k + 1)
  {
    var s := states[|events|];
    PollOnce(s, k);
    var (e, f) := PollAgain(k);
    var t := Next(s, e);
    Extend(states, events, e, 0);
    states', events' := states + [t], events + [e];
    Extend(states', events', f, 0);
    states', events' := states' + [Next(t, f)], events' + [f];
  }

  lemma {:induction false} PolledSoOften(k: nat) returns (states: seq<State>, events: seq<Event>)
    requires 1 <= k <= 29
    ensures Run(states, events) && NoLeaseLost(states, events, |events|, 0) && PolledEarly(states[|events|], k)
  {
    if k == 1 {
      states, events := FirstPoll();
    } else {
      states, events := PolledSoOften(k - 1);
      states, events := OnePollMore(states, events, k - 1);
    }
  }

  /** The bound is attained: there are runs with every number of polls up to twenty-nine and no lease lost. */
  lemma PollsAttained(k: nat) returns (states: seq<State>, events: seq<Event>)
    requires 1 <= k <= 29
    ensures Run(states, events) && NoLeaseLost(states, events, |events|, 0)
    ensures PolledEarly(states[|events|], k) && Claims(states, events, |events|, 0, false) == k
  {
    states, events := PolledSoOften(k);
    AttemptsAreClaims(states, events, |events|, 0, false);
  }
}
