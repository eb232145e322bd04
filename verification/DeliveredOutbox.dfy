/**
  The coalesced "delivered" events of one member in one group: an advance of the delivered
  cursor widens the pending events or adds one, and a single dispatcher that never runs twice
  at once claims, sends and marks them.
 */
module DeliveredOutbox {
  import opened Basics
  import opened ChatCursors
  import Ledger = PushLedger

  type EventId = nat

  const CLAIM_LIMIT: nat := 100
  const MAX_ATTEMPTS: nat := 20
  const SCAN_LIMIT: nat := 500
  const HOUR_MS: int := 60 * Ledger.MINUTE_MS

  datatype Status = Pending | Processing | Published | Dead

  datatype Row = Row(
    sequence: Sequence,
    rangeStart: Option<Sequence>,
    status: Status,
    attempts: nat,
    availableAt: int,
    lockedAt: Option<int>,
    settledAt: Option<int>)

  type Rows = map<EventId, Row>

  /** What the dispatcher did with an event before marking it: sent it to some senders, or nobody may see it any more. */
  datatype Outcome = Sent(sequence: Sequence, rangeStart: Option<Sequence>, to: set<string>) | Withheld

  datatype Claimed = Claimed(id: EventId, row: Row)

  datatype Phase =
    | Idle
    | Loading(ids: set<EventId>)
    | Dispatching(queue: seq<Claimed>)
    | Marking(event: Claimed, rest: seq<Claimed>)
    | Failing(failed: Claimed, remaining: seq<Claimed>)

  /**
    `gone` keeps the rows that were cleaned up as they last were, `advances` every range that
    held another's message when it became delivered, and `outcomes` the last outcome of each event.
   */
  datatype State = State(
    actor: string,
    messages: Messages,
    rows: Rows,
    gone: Rows,
    phase: Phase,
    clock: int,
    advances: set<Range>,
    outcomes: map<EventId, Outcome>)

  // ----- Queueing --------------------------------------------------------------------------------------

  predicate OthersIn(messages: Messages, actor: string, r: Range) {
    exists k | k in messages :: r.after < k <= r.upTo && messages[k].sender != actor && messages[k].live
  }

  function Widened(row: Row, r: Range): Row {
    row.(sequence := Max(row.sequence, r.upTo), rangeStart := Some(Min(row.rangeStart.GetOr(r.after), r.after)))
  }

  predicate HasPending(rows: Rows) {
    exists id | id in rows :: rows[id].status.Pending?
  }

  function NewRow(r: Range, now: int): Row {
    Row(r.upTo, Some(r.after), Pending, 0, now, None, None)
  }

  /** Every pending event is widened; if there is none, one is added. */
  function Queued(rows: Rows, r: Range, id: EventId, now: int): Rows {
    if HasPending(rows) then map k | k in rows :: if rows[k].status.Pending? then Widened(rows[k], r) else rows[k]
    else rows[id := NewRow(r, now)]
  }

  // ----- Dispatching -----------------------------------------------------------------------------------

  predicate Due(row: Row, now: int) {
    || (row.status.Pending? && row.availableAt <= now)
    || (row.status.Processing? && row.lockedAt.Some? && row.lockedAt.value < now - Ledger.LEASE_MS)
  }

  function Taken(row: Row, now: int): Row {
    row.(status := Processing, lockedAt := Some(now), attempts := row.attempts + 1)
  }

  /** The part of a row's range that is scanned for senders: its newest five hundred sequences. */
  function Scanned(row: Row): Range {
    var floor := if row.sequence >= SCAN_LIMIT then row.sequence - SCAN_LIMIT else 0;
    Range(if row.rangeStart.Some? && row.rangeStart.value > floor then row.rangeStart.value else floor, row.sequence)
  }

  /** The sequences of live messages of others in a range. */
  function OthersOf(messages: Messages, actor: string, r: Range): set<Sequence> {
    set k | k in messages && r.after < k <= r.upTo && messages[k].sender != actor && messages[k].live
  }

  function Senders(messages: Messages, actor: string, r: Range): set<string> {
    set k | k in OthersOf(messages, actor, r) :: messages[k].sender
  }

  function Backoff(attempts: nat): int {
    Ledger.Min(500 * Ledger.Pow2(if attempts == 0 then 0 else attempts - 1), 60_000)
  }

  function Failed(row: Row, attempts: nat, now: int): Row {
    if attempts >= MAX_ATTEMPTS then row.(status := Dead, lockedAt := None, settledAt := Some(now))
    else row.(status := Pending, availableAt := now + Backoff(attempts), lockedAt := None)
  }

  predicate Removable(row: Row, now: int) {
    row.settledAt.Some?
    && ((row.status.Published? && row.settledAt.value < now - 24 * HOUR_MS)
        || (row.status.Dead? && row.settledAt.value < now - 7 * 24 * HOUR_MS))
  }

  // ----- Steps -------------------------------------------------------------------------------------------

  datatype Reply = Delivered(recipients: set<string>) | Denied | Fails

  datatype Op =
    | Post(sequence: Sequence, sender: string)
    | Delete(sequence: Sequence)
    | Advance(range: Range, id: EventId)
    | Claim(ids: set<EventId>)
    | Load(events: seq<Claimed>)
    | Dispatch(reply: Reply)
    | MarkPublished
    | MarkRefused
    | MarkFailed
    | EndCycle
    | Clean(ids: set<EventId>)

  datatype Step = Step(op: Op, now: int)

  ghost predicate Enabled(s: State, e: Step) {
    e.now >= s.clock
    && match e.op
       case Post(sequence, _) => sequence !in s.messages
       case Delete(sequence) => sequence in s.messages
       case Advance(r, id) => r.after < r.upTo && id !in s.rows && id !in s.gone
       case Claim(ids) => s.phase.Idle? && |ids| <= CLAIM_LIMIT
       case Load(events) =>
         && s.phase.Loading?
         && (forall i | 0 <= i < |events| ::
               events[i].id in s.phase.ids && events[i].id in s.rows && events[i].row == s.rows[events[i].id])
         && (forall i, j | 0 <= i < j < |events| :: events[i].id != events[j].id)
       case Dispatch(_) => s.phase.Dispatching? && s.phase.queue != []
       case MarkPublished => s.phase.Marking?
       case MarkRefused => s.phase.Marking?
       case MarkFailed => s.phase.Failing?
       case EndCycle => true
       case Clean(_) => true
  }

  function Update(s: State, id: EventId, row: Row, phase: Phase): State
    requires id in s.rows
  {
    s.(rows := if s.rows[id].status.Processing? then s.rows[id := row] else s.rows, phase := phase)
  }

  function OutcomeOf(s: State, row: Row, recipients: set<string>): Outcome {
    Sent(row.sequence, row.rangeStart, set a | a in recipients && a != s.actor && a in Senders(s.messages, s.actor, Scanned(row)))
  }

  function AfterDispatch(s: State, reply: Reply): State
    requires s.phase.Dispatching? && s.phase.queue != []
  {
    var event, rest := s.phase.queue[0], s.phase.queue[1..];
    match reply
    case Delivered(recipients) =>
      s.(outcomes := s.outcomes[event.id := OutcomeOf(s, event.row, recipients)], phase := Marking(event, rest))
    case Denied => s.(outcomes := s.outcomes[event.id := Withheld], phase := Marking(event, rest))
    case Fails => s.(phase := Failing(event, rest))
  }

  function AfterAdvance(s: State, r: Range, id: EventId, now: int): State {
    if OthersIn(s.messages, s.actor, r) then s.(rows := Queued(s.rows, r, id, now), advances := s.advances + {r}) else s
  }

  function AfterClaim(s: State, ids: set<EventId>, now: int): State {
    var taken := set id | id in ids && id in s.rows && Due(s.rows[id], now);
    s.(rows := map id | id in s.rows :: if id in taken then Taken(s.rows[id], now) else s.rows[id], phase := Loading(taken))
  }

  function AfterPublished(s: State, event: Claimed, rest: seq<Claimed>, now: int): State
    requires event.id in s.rows
  {
    Update(s, event.id, s.rows[event.id].(status := Published, settledAt := Some(now), lockedAt := None), Dispatching(rest))
  }

  function AfterFailed(s: State, event: Claimed, rest: seq<Claimed>, now: int): State
    requires event.id in s.rows
  {
    Update(s, event.id, Failed(s.rows[event.id], event.row.attempts, now), Dispatching(rest))
  }

  function AfterClean(s: State, ids: set<EventId>, now: int): State {
    var removed := set id | id in ids && id in s.rows && Removable(s.rows[id], now);
    s.(rows := s.rows - removed, gone := s.gone + (map id | id in removed :: s.rows[id]))
  }

  function After(s: State, e: Step): State {
    match e.op
    case Post(sequence, sender) => s.(messages := s.messages[sequence := Message(sender, true)])
    case Delete(sequence) =>
      if sequence in s.messages then s.(messages := s.messages[sequence := s.messages[sequence].(live := false)]) else s
    case Advance(r, id) => AfterAdvance(s, r, id, e.now)
    case Claim(ids) => AfterClaim(s, ids, e.now)
    case Load(events) => s.(phase := Dispatching(events))
    case Dispatch(reply) => if s.phase.Dispatching? && s.phase.queue != [] then AfterDispatch(s, reply) else s
    case MarkPublished =>
      if s.phase.Marking? && s.phase.event.id in s.rows then AfterPublished(s, s.phase.event, s.phase.rest, e.now) else s
    case MarkRefused => if s.phase.Marking? then s.(phase := Failing(s.phase.event, s.phase.rest)) else s
    case MarkFailed =>
      if s.phase.Failing? && s.phase.failed.id in s.rows then AfterFailed(s, s.phase.failed, s.phase.remaining, e.now) else s
    case EndCycle => s.(phase := Idle)
    case Clean(ids) => AfterClean(s, ids, e.now)
  }

  function Next(s: State, e: Step): State {
    After(s, e).(clock := e.now)
  }

  ghost predicate Moved(states: seq<State>, steps: seq<Step>, k: nat)
    requires k < |steps| && |states| == |steps| + 1
  {
    Enabled(states[k], steps[k]) && states[k + 1] == Next(states[k], steps[k])
  }

  /** The dispatcher starts beside any rows, older ones without a range start among them. */
  ghost predicate Started(s: State) {
    && s.phase.Idle? && s.gone == map[] && s.advances == {} && s.outcomes == map[]
    && forall id | id in s.rows :: !s.rows[id].status.Published? && (s.rows[id].status.Pending? ==> s.rows[id].attempts < MAX_ATTEMPTS)
  }

  ghost predicate Execution(states: seq<State>, steps: seq<Step>) {
    && |states| == |steps| + 1
    && Started(states[0])
    && forall k | 0 <= k < |steps| :: Moved(states, steps, k)
  }

  // ----- What each step does to the events ---------------------------------------------------------------------

  /** The wait after a failed attempt is half a second and then doubles up to a minute. */
  lemma {:induction false} Waits(n: nat)
    ensures Backoff(1) == 500
    ensures n >= 1 ==> Backoff(n + 1) == if Backoff(n) > 30_000 then 60_000 else 2 * Backoff(n)
    ensures n >= 8 ==> Backoff(n) == 60_000
  {
    assert Ledger.Pow2(1) == 2 && Ledger.Pow2(2) == 4 && Ledger.Pow2(3) == 8;
    assert Ledger.Pow2(4) == 16 && Ledger.Pow2(5) == 32 && Ledger.Pow2(6) == 64;
    if n > 1 {
      Waits(n - 1);
    }
  }

  /** The row covers what it did and the range as well, and no more than the stretch from the first to the last of both. */
  predicate WidenedAs(row: Row, r: Range, after: Row) {
    && after.sequence == (if r.upTo > row.sequence then r.upTo else row.sequence)
    && after.rangeStart == Some(if row.rangeStart.Some? && row.rangeStart.value < r.after then row.rangeStart.value else r.after)
    && after == row.(sequence := after.sequence, rangeStart := after.rangeStart)
  }

  /** Nothing is queued without another's live message in the range; else every pending event is widened, or one is added if there is none. */
  ghost predicate QueuedAs(rows: Rows, messages: Messages, actor: string, r: Range, id: EventId, now: int, after: Rows) {
    if !exists k | k in messages :: r.after < k <= r.upTo && messages[k].sender != actor && messages[k].live then after == rows
    else if !exists k | k in rows :: rows[k].status == Pending then
      after == rows[id := Row(r.upTo, Some(r.after), Pending, 0, now, None, None)]
    else
      && after.Keys == rows.Keys
      && forall k | k in rows :: if rows[k].status == Pending then WidenedAs(rows[k], r, after[k]) else after[k] == rows[k]
  }

  lemma QueuesExactly(rows: Rows, messages: Messages, actor: string, r: Range, id: EventId, now: int)
    ensures QueuedAs(rows, messages, actor, r, id, now, if OthersIn(messages, actor, r) then Queued(rows, r, id, now) else rows)
  {
  }

  lemma AdvanceQueues(s: State, e: Step)
    requires e.op.Advance?
    ensures QueuedAs(s.rows, s.messages, s.actor, e.op.range, e.op.id, e.now, Next(s, e).rows)
  {
    QueuesExactly(s.rows, s.messages, s.actor, e.op.range, e.op.id, e.now);
  }

  /** Another's message that is there, in the event's range and among its newest five hundred sequences. */
  predicate Scans(s: State, row: Row, k: Sequence) {
    && k in s.messages && s.messages[k].live && s.messages[k].sender != s.actor
    && 0 < k <= row.sequence && k > row.sequence - 500 && (row.rangeStart.Some? ==> k > row.rangeStart.value)
  }

  /** Whoever may receive the event and has such a message is told, with the range of the event as it was loaded, and nobody else. */
  lemma ToldExactly(s: State, e: Step)
    requires Enabled(s, e) && e.op.Dispatch?
    ensures var event, q := s.phase.queue[0], Next(s, e);
            && (e.op.reply.Delivered? ==>
                  && event.id in q.outcomes && q.outcomes[event.id].Sent?
                  && q.outcomes[event.id].sequence == event.row.sequence && q.outcomes[event.id].rangeStart == event.row.rangeStart
                  && forall a :: a in q.outcomes[event.id].to <==>
                       a in e.op.reply.recipients && exists k :: Scans(s, event.row, k) && s.messages[k].sender == a)
            && (e.op.reply.Denied? ==> event.id in q.outcomes && q.outcomes[event.id] == Withheld)
            && q.rows == s.rows
            && q.phase == if e.op.reply.Fails? then Failing(event, s.phase.queue[1..]) else Marking(event, s.phase.queue[1..])
  {
    var event := s.phase.queue[0];
    forall k ensures k in OthersOf(s.messages, s.actor, Scanned(event.row)) <==> Scans(s, event.row, k) {
    }
    if e.op.reply.Delivered? {
      forall a
        ensures a in OutcomeOf(s, event.row, e.op.reply.recipients).to <==>
                a in e.op.reply.recipients && exists k :: Scans(s, event.row, k) && s.messages[k].sender == a
      {
        if k :| Scans(s, event.row, k) && s.messages[k].sender == a {
          assert k in OthersOf(s.messages, s.actor, Scanned(event.row));
        }
      }
    }
  }

  /** A pending event is due from its time on, one in processing when its claim is more than thirty seconds old. */
  predicate DueAt(row: Row, now: int) {
    || (row.status == Pending && row.availableAt <= now)
    || (row.status == Processing && row.lockedAt.Some? && row.lockedAt.value + 30_000 < now)
  }

  predicate OldEnough(row: Row, now: int) {
    || (row.status == Published && row.settledAt.Some? && row.settledAt.value + 86_400_000 < now)
    || (row.status == Dead && row.settledAt.Some? && row.settledAt.value + 604_800_000 < now)
  }

  /** A claim takes exactly the due events among those asked for, and the batch is what it took. */
  lemma ClaimTakesDue(s: State, e: Step)
    requires e.op.Claim?
    ensures Next(s, e).rows.Keys == s.rows.Keys && Next(s, e).phase.Loading?
    ensures forall id | id in s.rows ::
              Next(s, e).rows[id] == if id in e.op.ids && DueAt(s.rows[id], e.now)
                                     then s.rows[id].(status := Processing, lockedAt := Some(e.now), attempts := s.rows[id].attempts + 1)
                                     else s.rows[id]
    ensures forall id :: id in Next(s, e).phase.ids <==> id in e.op.ids && id in s.rows && DueAt(s.rows[id], e.now)
  {
  }

  /** A marked event is published or refused; one that fails is dead from its twentieth attempt on and else waits; no other changes. */
  lemma MarksSettle(s: State, e: Step, marked: Claimed, id: EventId, row: Row)
    requires Enabled(s, e) && id in s.rows && row == s.rows[id] && marked.id in s.rows
    requires (e.op.MarkPublished? && s.phase.event == marked) || (e.op.MarkFailed? && s.phase.failed == marked)
    ensures Next(s, e).rows.Keys == s.rows.Keys
    ensures Next(s, e).rows[id]
         == if id != marked.id || row.status != Processing then row
            else if e.op.MarkPublished? then row.(status := Published, settledAt := Some(e.now), lockedAt := None)
            else if marked.row.attempts >= 20 then row.(status := Dead, settledAt := Some(e.now), lockedAt := None)
            else row.(status := Pending, availableAt := e.now + Backoff(marked.row.attempts), lockedAt := None)
    ensures Next(s, e).phase == Dispatching(if e.op.MarkPublished? then s.phase.rest else s.phase.remaining)
  {
  }

  /** A clean-up removes exactly the published events of more than a day and the dead ones of more than a week among those asked for. */
  lemma CleanRemovesOld(s: State, e: Step)
    requires e.op.Clean?
    ensures forall id :: id in Next(s, e).rows <==> id in s.rows && !(id in e.op.ids && OldEnough(s.rows[id], e.now))
    ensures forall id | id in Next(s, e).rows :: Next(s, e).rows[id] == s.rows[id]
  {
  }

  // ----- The queue -------------------------------------------------------------------------------------------------

  class DeliveredQueue {
    const actor: string
    var rows: Rows

    constructor (actor: string)
      ensures this.actor == actor && rows == map[]
    {
      this.actor := actor;
      rows := map[];
    }

    /** Queues what became delivered: nothing without another's message in it, else wider pending events or a new one. */
    method Enqueue(messages: Messages, r: Range, id: EventId, now: int)
      requires id !in rows
      modifies this
      ensures rows == if r.after < r.upTo && OthersIn(messages, actor, r) then Queued(old(rows), r, id, now) else old(rows)
      ensures QueuedAs(old(rows), messages, actor, r, id, now, rows)
    {
      QueuesExactly(rows, messages, actor, r, id, now);
      if r.upTo <= r.after || !OthersIn(messages, actor, r) {
        return;
      }
      Merge(r, id, now);
    }

    /** Widens the pending events, or adds one. */
    method Merge(r: Range, id: EventId, now: int)
      requires id !in rows
      modifies this
      ensures rows == Queued(old(rows), r, id, now)
    {
      var merged := 0;
      var todo := rows.Keys;
      while todo != {}
        invariant todo <= rows.Keys == old(rows).Keys
        invariant forall k | k in rows ::
                    rows[k] == if k !in todo && old(rows)[k].status.Pending? then Widened(old(rows)[k], r) else old(rows)[k]
        invariant merged > 0 <==> exists k | k in rows :: k !in todo && old(rows)[k].status.Pending?
      {
        var k :| k in todo;
        todo := todo - {k};
        var row := rows[k];
        if row.status.Pending? {
          var start := if row.rangeStart.Some? && row.rangeStart.value < r.after then row.rangeStart.value else r.after;
          rows := rows[k := row.(sequence := if row.sequence > r.upTo then row.sequence else r.upTo, rangeStart := Some(start))];
          merged := merged + 1;
        }
      }
      if merged == 0 {
        rows := rows[id := Row(r.upTo, Some(r.after), Pending, 0, now, None, None)];
      }
    }
  }
}
