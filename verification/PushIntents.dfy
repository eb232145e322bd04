/**
  From a message to its deliveries: the idempotent send writes the message and one outbox
  event, the intent job materialises one delivery per device in a transaction, and both
  clean-ups delete old rows.
 */
module PushIntents {
  import opened Basics
  import Cursors = ChatCursors
  import Ledger = PushLedger

  type MessageId = Ledger.MessageId
  type DeliveryId = Ledger.DeliveryId
  type EventId = nat
  type Token = nat

  const INTENT_BATCH: nat := 50
  const CLEANUP_BATCH: nat := 500
  const HOUR_MS: int := 60 * Ledger.MINUTE_MS

  // ----- Tables ----------------------------------------------------------------------------------

  datatype ClientKey = ClientKey(group: string, sender: string, clientMessageId: string)

  datatype Message = Message(key: ClientKey, content: string)

  datatype IntentStatus = Pending | Processing | Completed | Dead

  datatype Intent = Intent(status: IntentStatus, attempts: nat, availableAt: int, lockedAt: Option<int>, claim: Option<Token>)

  /** How the event fared with the sockets, which only matters to its clean-up. */
  datatype Publication = Unpublished | Published(at: int) | Undeliverable(at: int)

  datatype OutboxEvent = OutboxEvent(message: MessageId, intent: Option<Intent>, publication: Publication)

  datatype Claim = Claim(event: EventId, token: Token)

  /** A device that was found eligible, and the id that its delivery would get. */
  datatype Target = Target(device: Ledger.DeviceId, fingerprint: string, delivery: DeliveryId)

  datatype Birth = Birth(message: MessageId, device: Ledger.DeviceId, fingerprint: string)

  /**
    `issued` has every claim of an intent with its attempt count, `eventOf` the event that was
    written with each message, `commits` how often an event was materialised, and `born` every
    delivery that was ever inserted.
   */
  datatype State = State(
    messages: map<MessageId, Message>,
    outbox: map<EventId, OutboxEvent>,
    ledger: Ledger.State,
    issued: map<Claim, nat>,
    eventOf: map<MessageId, EventId>,
    commits: map<EventId, nat>,
    born: map<DeliveryId, Birth>)

  const EMPTY: State := State(map[], map[], Ledger.EMPTY, map[], map[], map[], map[])

  // ----- Sending -----------------------------------------------------------------------------------

  datatype SendResult = Sent(message: MessageId) | Deduplicated(message: MessageId) | IdempotencyConflict

  ghost predicate HasKey(messages: map<MessageId, Message>, key: ClientKey, id: MessageId) {
    id in messages && messages[id].key == key
  }

  ghost function Existing(messages: map<MessageId, Message>, key: ClientKey): Option<MessageId> {
    if id :| HasKey(messages, key, id) then Some(id) else None
  }

  ghost function Answer(messages: map<MessageId, Message>, key: ClientKey, content: string, id: MessageId): SendResult {
    var existing := Existing(messages, key);
    if existing.None? then Sent(id)
    else if messages[existing.value].content == content then Deduplicated(existing.value)
    else IdempotencyConflict
  }

  function FirstIntent(pushEnabled: bool, now: int): Option<Intent> {
    if pushEnabled then Some(Intent(Pending, 0, now, None, None)) else None
  }

  // ----- Intents -----------------------------------------------------------------------------------

  predicate Due(i: Intent, now: int) {
    || (i.status.Pending? && i.availableAt <= now)
    || (i.status.Processing? && i.lockedAt.Some? && i.lockedAt.value < now - Ledger.LEASE_MS)
  }

  predicate Claimable(e: OutboxEvent, now: int) {
    e.intent.Some? && Due(e.intent.value, now)
  }

  predicate Fenced(e: OutboxEvent, token: Token) {
    e.intent.Some? && e.intent.value.status.Processing? && e.intent.value.claim == Some(token)
  }

  function Backoff(attempts: nat): int {
    Ledger.Min(500 * Ledger.Pow2(if attempts == 0 then 0 else attempts - 1), 60_000)
  }

  /** The wait after a failed materialisation is half a second and then doubles up to a minute. */
  lemma {:induction false} Waits(n: nat)
    ensures Backoff(1) == 500
    ensures n >= 1 ==> Backoff(n + 1) == if Backoff(n) > 30_000 then 60_000 else 2 * Backoff(n)
    ensures n >= 8 ==> Backoff(n) == 60_000
  {
    assert Ledger.Pow2(1) == 2 && Ledger.Pow2(2) == 4 && Ledger.Pow2(3) == 8;
    assert Ledger.Pow2(4) == 16 && Ledger.Pow2(5) == 32 && Ledger.Pow2(6) == 64;
    if n > 1 {
      Waits(n - 1);
    }
  }

  function ClaimedIntent(i: Intent, token: Token, now: int): Intent {
    Intent(Processing, i.attempts + 1, i.availableAt, Some(now), Some(token))
  }

  function FailedIntent(i: Intent, attempts: nat, now: int): Intent {
    if attempts >= Ledger.ATTEMPTS_MAX then i.(status := Dead, lockedAt := None, claim := None)
    else i.(status := Pending, availableAt := now + Backoff(attempts), lockedAt := None, claim := None)
  }

  function CompletedIntent(i: Intent): Intent {
    i.(status := Completed, lockedAt := None, claim := None)
  }

  function Finished(i: Option<Intent>): bool {
    i.Some? && (i.value.status.Completed? || i.value.status.Dead?)
  }

  predicate Removable(e: OutboxEvent, now: int) {
    && (e.intent.None? || Finished(e.intent))
    && match e.publication
       case Unpublished => false
       case Published(t) => t < now - 24 * HOUR_MS
       case Undeliverable(t) => t < now - 7 * 24 * HOUR_MS
  }

  /** The messages whose event is still there and not finished: their deliveries must stay. */
  function Unfinished(outbox: map<EventId, OutboxEvent>): set<MessageId> {
    set e | e in outbox && !Finished(outbox[e].intent) :: outbox[e].message
  }

  function Ids(targets: seq<Target>): set<DeliveryId> {
    if targets == [] then {} else Ids(targets[..|targets| - 1]) + {targets[|targets| - 1].delivery}
  }

  /** Every delivery to insert gets an id of its own. */
  predicate FreshTargets(ever: set<DeliveryId>, targets: seq<Target>) {
    targets != [] ==>
      var front, d := targets[..|targets| - 1], targets[|targets| - 1].delivery;
      d !in ever && d !in Ids(front) && FreshTargets(ever, front)
  }

  /** Inserts one delivery per device; one that clashes with a row already there is skipped. */
  function InsertAll(ledger: Ledger.State, message: MessageId, targets: seq<Target>, now: int): Ledger.State
    decreases |targets|
  {
    if targets == [] then ledger
    else
      var before := InsertAll(ledger, message, targets[..|targets| - 1], now);
      var t := targets[|targets| - 1];
      Ledger.Next(before, Ledger.Event(Ledger.Insert(t.delivery, message, t.device, t.fingerprint), now))
  }

  /** The deliveries that are there afterwards and were not before. */
  function Births(before: Ledger.Rows, after: Ledger.Rows): map<DeliveryId, Birth> {
    map id | id in after && id !in before :: Birth(after[id].message, after[id].device, after[id].fingerprint)
  }

  // ----- The machine -------------------------------------------------------------------------------

  datatype Op =
    | Send(key: ClientKey, content: string, message: MessageId, event: EventId, pushEnabled: bool)
    | ClaimIntents(events: set<EventId>, token: Token)
    | Materialize(c: Claim, targets: seq<Target>)
    | MarkFailed(c: Claim)
    | Publish(event: EventId, delivered: bool)
    | CleanOutbox(events: set<EventId>)
    | OnLedger(op: Ledger.Op)

  datatype Event = Event(op: Op, now: int)

  ghost predicate Enabled(s: State, e: Event) {
    e.now >= s.ledger.clock
    && match e.op
       case Send(key, _, message, event, _) => message !in s.messages && event !in s.eventOf.Values
       case ClaimIntents(events, token) => |events| <= INTENT_BATCH && forall c | c in s.issued :: c.token != token
       case Materialize(c, targets) =>
         c in s.issued && FreshTargets(s.ledger.ever, targets)
       case MarkFailed(c) => c in s.issued
       case Publish(event, _) => event in s.outbox
       case CleanOutbox(events) => |events| <= CLEANUP_BATCH
       case OnLedger(op) =>
         && !op.Insert? && Ledger.Enabled(s.ledger, Ledger.Event(op, e.now))
         && (op.Cleanup? ==> op.unfinished == Unfinished(s.outbox))
  }

  function NewIssues(outbox: map<EventId, OutboxEvent>, events: set<EventId>, token: Token, now: int): map<Claim, nat> {
    var claims := set e | e in outbox && e in events && Claimable(outbox[e], now) :: Claim(e, token);
    map c | c in claims && c.event in outbox && outbox[c.event].intent.Some? :: outbox[c.event].intent.value.attempts + 1
  }

  function EventAfter(id: EventId, x: OutboxEvent, e: Event, attempts: nat): OutboxEvent {
    match e.op
    case ClaimIntents(events, token) =>
      if id in events && Claimable(x, e.now) then x.(intent := Some(ClaimedIntent(x.intent.value, token, e.now))) else x
    case Materialize(c, _) =>
      if c.event == id && Fenced(x, c.token) then x.(intent := Some(CompletedIntent(x.intent.value))) else x
    case MarkFailed(c) =>
      if c.event == id && Fenced(x, c.token) then x.(intent := Some(FailedIntent(x.intent.value, attempts, e.now))) else x
    case Publish(event, delivered) =>
      if event == id && x.publication.Unpublished? then
        x.(publication := if delivered then Published(e.now) else Undeliverable(e.now))
      else x
    case _ => x
  }

  predicate RemovedBy(id: EventId, x: OutboxEvent, e: Event) {
    e.op.CleanOutbox? && id in e.op.events && Removable(x, e.now)
  }

  function AttemptsFor(s: State, e: Event): nat {
    if e.op.MarkFailed? && e.op.c in s.issued then s.issued[e.op.c] else 0
  }

  ghost function OutboxAfter(s: State, e: Event): map<EventId, OutboxEvent> {
    var kept := map id | id in s.outbox && !RemovedBy(id, s.outbox[id], e) :: EventAfter(id, s.outbox[id], e, AttemptsFor(s, e));
    if e.op.Send? && Existing(s.messages, e.op.key).None? then
      kept[e.op.event := OutboxEvent(e.op.message, FirstIntent(e.op.pushEnabled, e.now), Unpublished)]
    else kept
  }

  predicate Commits(s: State, e: Event) {
    e.op.Materialize? && e.op.c.event in s.outbox && Fenced(s.outbox[e.op.c.event], e.op.c.token)
  }

  function LedgerAfter(s: State, e: Event): Ledger.State {
    if e.op.OnLedger? then Ledger.Next(s.ledger, Ledger.Event(e.op.op, e.now))
    else if Commits(s, e) then
      InsertAll(s.ledger, s.outbox[e.op.c.event].message, e.op.targets, e.now).(clock := e.now)
    else s.ledger.(clock := e.now)
  }

  function CommitsOf(s: State, event: EventId): nat {
    if event in s.commits then s.commits[event] else 0
  }

  ghost function Next(s: State, e: Event): State {
    var sent := e.op.Send? && Existing(s.messages, e.op.key).None?;
    State(
      if sent then s.messages[e.op.message := Message(e.op.key, e.op.content)] else s.messages,
      OutboxAfter(s, e),
      LedgerAfter(s, e),
      if e.op.ClaimIntents? then s.issued + NewIssues(s.outbox, e.op.events, e.op.token, e.now) else s.issued,
      if sent then s.eventOf[e.op.message := e.op.event] else s.eventOf,
      if Commits(s, e) then s.commits[e.op.c.event := CommitsOf(s, e.op.c.event) + 1] else s.commits,
      if Commits(s, e) then s.born + Births(s.ledger.rows, LedgerAfter(s, e).rows) else s.born)
  }

  ghost predicate Moves(states: seq<State>, events: seq<Event>, k: nat)
    requires k < |events| && |states| == |events| + 1
  {
    Enabled(states[k], events[k]) && states[k + 1] == Next(states[k], events[k])
  }

  ghost predicate Run(states: seq<State>, events: seq<Event>) {
    && |states| == |events| + 1
    && states[0] == EMPTY
    && forall k | 0 <= k < |events| :: Moves(states, events, k)
  }

  // ----- The services ------------------------------------------------------------------------------------

  class Sender {
    var messages: map<MessageId, Message>
    var outbox: map<EventId, OutboxEvent>

    constructor ()
      ensures messages == map[] && outbox == map[]
    {
      messages, outbox := map[], map[];
    }

    method SendTextMessage(key: ClientKey, content: string, message: MessageId, sequence: nat, event: EventId, pushEnabled: bool, now: int,
                           member: Cursors.MemberRow)
      returns (result: SendResult)
      requires message !in messages && event !in outbox
      requires forall i, j | i in messages && j in messages && messages[i].key == messages[j].key :: i == j
      modifies this, member
      ensures forall i, j | i in messages && j in messages && messages[i].key == messages[j].key :: i == j
      ensures result == Answer(old(messages), key, content, message)
      ensures (forall id | id in old(messages) :: old(messages)[id].key != key) ==> result == Sent(message)
      ensures forall id | id in old(messages) && old(messages)[id].key == key ::
                result == if old(messages)[id].content == content then Deduplicated(id) else IdempotencyConflict
      ensures messages == if result.Sent? then old(messages)[message := Message(key, content)] else old(messages)
      ensures outbox == if result.Sent?
                        then old(outbox)[event := OutboxEvent(message, FirstIntent(pushEnabled, now), Unpublished)] else old(outbox)
      ensures member.Value()
           == if result.Sent? && old(member.active) then Cursors.Sent(old(member.Value()), sequence) else old(member.Value())
    {
      if id :| id in messages && messages[id].key == key {
        assert HasKey(messages, key, id);
        return if messages[id].content == content then Deduplicated(id) else IdempotencyConflict;
      }
      assert forall id :: !HasKey(messages, key, id);
      messages := messages[message := Message(key, content)];
      member.OwnMessage(sequence);
      var intent := if pushEnabled then Some(Intent(Pending, 0, now, None, None)) else None;
      outbox := outbox[event := OutboxEvent(message, intent, Unpublished)];
      return Sent(message);
    }
  }

  /** The rows alone, as a ledger without history. */
  function Bare(rows: Ledger.Rows): Ledger.State {
    Ledger.State(rows, 0, map[], {})
  }

  lemma InsertIs(rows: Ledger.Rows, message: MessageId, t: Target, now: int)
    requires t.delivery !in rows
    ensures var e := Ledger.Event(Ledger.Insert(t.delivery, message, t.device, t.fingerprint), now);
            Ledger.RowsAfter(rows, e)
            == if forall id | id in rows :: !Ledger.Clashes(rows[id], message, t.device, t.fingerprint)
               then rows[t.delivery := Ledger.Fresh(message, t.device, t.fingerprint, now)] else rows
  {
  }

  // ----- What a list of inserts leaves ---------------------------------------------------------------------

  /** The rows have one of the message for the target's device or for its token. */
  ghost predicate Covered(rows: Ledger.Rows, message: MessageId, t: Target) {
    exists id | id in rows :: rows[id].message == message && (rows[id].device == t.device || rows[id].fingerprint == t.fingerprint)
  }

  /** An earlier target got its row and has the same device or token. */
  ghost predicate Preceded(targets: seq<Target>, i: nat, after: Ledger.Rows)
    requires i < |targets|
  {
    exists j | 0 <= j < i ::
      targets[j].delivery in after && (targets[j].device == targets[i].device || targets[j].fingerprint == targets[i].fingerprint)
  }

  /** A row that waits to be sent at once, without attempts, claim or ticket. */
  predicate Waiting(row: Ledger.Row, message: MessageId, t: Target, now: int) {
    && row.message == message && row.device == t.device && row.fingerprint == t.fingerprint
    && row.status == Ledger.Pending && row.availableAt == now && row.createdAt == now
    && row.attempts == 0 && row.receiptAttempts == 0
    && row.lockedAt == None && row.claim == None && row.ticket == None
    && row.ticketAt == None && row.receiptAt == None && row.settledAt == None
  }

  /** The target got a row of its own, waiting to be sent, unless a row or an earlier target was in its way; it is covered either way. */
  ghost predicate Decided(before: Ledger.Rows, message: MessageId, targets: seq<Target>, i: nat, now: int, after: Ledger.Rows)
    requires i < |targets|
  {
    && (targets[i].delivery in after <==> !Covered(before, message, targets[i]) && !Preceded(targets, i, after))
    && (targets[i].delivery in after ==> Waiting(after[targets[i].delivery], message, targets[i], now))
    && Covered(after, message, targets[i])
  }

  /** The rows that were there stay as they were. */
  predicate Stay(before: Ledger.Rows, after: Ledger.Rows) {
    forall id | id in before :: id in after && after[id] == before[id]
  }

  /** The first `n` targets were decided one after the other, and nothing else changed. */
  ghost predicate Inserted(before: Ledger.Rows, message: MessageId, targets: seq<Target>, n: nat, now: int, after: Ledger.Rows)
    requires n <= |targets|
  {
    && Stay(before, after)
    && (forall id | id in after && id !in before :: exists i | 0 <= i < n :: targets[i].delivery == id)
    && (forall i | 0 <= i < n :: Decided(before, message, targets, i, now, after))
  }

  ghost predicate OwnIds(before: Ledger.Rows, targets: seq<Target>) {
    && (forall i | 0 <= i < |targets| :: targets[i].delivery !in before)
    && (forall i, j | 0 <= i < j < |targets| :: targets[i].delivery != targets[j].delivery)
  }

  lemma CoveredByEarlier(before: Ledger.Rows, message: MessageId, targets: seq<Target>, n: nat, now: int, mid: Ledger.Rows, id: DeliveryId)
    requires n < |targets| && Inserted(before, message, targets, n, now, mid) && id in mid && id !in before
    requires mid[id].message == message && (mid[id].device == targets[n].device || mid[id].fingerprint == targets[n].fingerprint)
    ensures Preceded(targets, n, mid)
  {
    var i :| 0 <= i < n && targets[i].delivery == id;
    assert Decided(before, message, targets, i, now, mid);
  }

  /** What is in the way of the next target was in its way before, or is an earlier target's row. */
  lemma CoveredSoFar(before: Ledger.Rows, message: MessageId, targets: seq<Target>, n: nat, now: int, mid: Ledger.Rows)
    requires n < |targets| && Inserted(before, message, targets, n, now, mid)
    ensures Covered(mid, message, targets[n]) <==> Covered(before, message, targets[n]) || Preceded(targets, n, mid)
  {
    var t := targets[n];
    if id :| id in mid && mid[id].message == message && (mid[id].device == t.device || mid[id].fingerprint == t.fingerprint) {
      if id !in before {
        CoveredByEarlier(before, message, targets, n, now, mid, id);
      }
    }
    if i :| 0 <= i < n && targets[i].delivery in mid && (targets[i].device == t.device || targets[i].fingerprint == t.fingerprint) {
      assert Decided(before, message, targets, i, now, mid);
    }
  }

  lemma CoveredStays(mid: Ledger.Rows, after: Ledger.Rows, message: MessageId, t: Target)
    requires Stay(mid, after) && Covered(mid, message, t)
    ensures Covered(after, message, t)
  {
    var id :| id in mid && mid[id].message == message && (mid[id].device == t.device || mid[id].fingerprint == t.fingerprint);
    assert id in after;
  }

  /** The rows after the next target: a new one for it, or the same. */
  ghost predicate OneMore(mid: Ledger.Rows, message: MessageId, t: Target, now: int, after: Ledger.Rows) {
    if Covered(mid, message, t) then after == mid
    else t.delivery in after && Waiting(after[t.delivery], message, t, now) && after == mid[t.delivery := after[t.delivery]]
  }

  lemma DecidedStays(before: Ledger.Rows, message: MessageId, targets: seq<Target>, i: nat, n: nat, now: int, mid: Ledger.Rows, after: Ledger.Rows)
    requires i < n < |targets| && OwnIds(before, targets) && targets[n].delivery !in mid
    requires Decided(before, message, targets, i, now, mid) && OneMore(mid, message, targets[n], now, after)
    ensures Decided(before, message, targets, i, now, after)
  {
    assert forall j | 0 <= j <= i :: targets[j].delivery in mid <==> targets[j].delivery in after;
    assert Preceded(targets, i, mid) <==> Preceded(targets, i, after);
    CoveredStays(mid, after, message, targets[i]);
  }

  lemma DecidedNext(before: Ledger.Rows, message: MessageId, targets: seq<Target>, n: nat, now: int, mid: Ledger.Rows, after: Ledger.Rows)
    requires n < |targets| && OwnIds(before, targets) && targets[n].delivery !in mid
    requires Inserted(before, message, targets, n, now, mid) && OneMore(mid, message, targets[n], now, after)
    ensures Decided(before, message, targets, n, now, after)
  {
    CoveredSoFar(before, message, targets, n, now, mid);
    assert forall j | 0 <= j < n :: targets[j].delivery in mid <==> targets[j].delivery in after;
    assert Preceded(targets, n, mid) <==> Preceded(targets, n, after);
  }

  lemma NotYet(before: Ledger.Rows, message: MessageId, targets: seq<Target>, n: nat, k: nat, now: int, mid: Ledger.Rows)
    requires n <= k < |targets| && OwnIds(before, targets) && Inserted(before, message, targets, n, now, mid)
    ensures targets[k].delivery !in mid
  {
  }

  lemma InsertedOneMore(before: Ledger.Rows, message: MessageId, targets: seq<Target>, n: nat, now: int, mid: Ledger.Rows, after: Ledger.Rows)
    requires n < |targets| && OwnIds(before, targets)
    requires Inserted(before, message, targets, n, now, mid) && OneMore(mid, message, targets[n], now, after)
    ensures Inserted(before, message, targets, n + 1, now, after)
  {
    NotYet(before, message, targets, n, n, now, mid);
    DecidedNext(before, message, targets, n, now, mid, after);
    forall i | 0 <= i < n ensures Decided(before, message, targets, i, now, after) {
      DecidedStays(before, message, targets, i, n, now, mid, after);
    }
    forall id | id in after && id !in before ensures exists i | 0 <= i < n + 1 :: targets[i].delivery == id {
      if id in mid {
        var i :| 0 <= i < n && targets[i].delivery == id;
      } else {
        assert targets[n].delivery == id;
      }
    }
  }

  lemma InsertsOneMore(rows: Ledger.Rows, message: MessageId, t: Target, now: int)
    requires t.delivery !in rows
    ensures OneMore(rows, message, t, now,
                    Ledger.RowsAfter(rows, Ledger.Event(Ledger.Insert(t.delivery, message, t.device, t.fingerprint), now)))
  {
    InsertIs(rows, message, t, now);
  }

  /** The inserts of a materialisation, target by target. */
  lemma {:induction false} InsertAllInserts(ledger: Ledger.State, message: MessageId, targets: seq<Target>, n: nat, now: int)
    requires n <= |targets| && OwnIds(ledger.rows, targets)
    ensures Inserted(ledger.rows, message, targets, n, now, InsertAll(ledger, message, targets[..n], now).rows)
  {
    if n > 0 {
      InsertAllInserts(ledger, message, targets, n - 1, now);
      assert targets[..n][..n - 1] == targets[..n - 1];
      var mid := InsertAll(ledger, message, targets[..n - 1], now).rows;
      NotYet(ledger.rows, message, targets, n - 1, n - 1, now, mid);
      InsertsOneMore(mid, message, targets[n - 1], now);
      InsertedOneMore(ledger.rows, message, targets, n - 1, now, mid, InsertAll(ledger, message, targets[..n], now).rows);
    }
  }

  lemma AllInserted(ledger: Ledger.State, message: MessageId, targets: seq<Target>, now: int)
    requires OwnIds(ledger.rows, targets)
    ensures Inserted(ledger.rows, message, targets, |targets|, now, InsertAll(ledger, message, targets, now).rows)
  {
    InsertAllInserts(ledger, message, targets, |targets|, now);
    assert targets[..|targets|] == targets;
  }

  class IntentDispatcher {
    var outbox: map<EventId, OutboxEvent>
    var deliveries: Ledger.Rows

    constructor (outbox: map<EventId, OutboxEvent>, deliveries: Ledger.Rows)
      ensures this.outbox == outbox && this.deliveries == deliveries
    {
      this.outbox, this.deliveries := outbox, deliveries;
    }

    /** Inserts one delivery per eligible device; a row that is there already wins. */
    method InsertDeliveries(message: MessageId, targets: seq<Target>, now: int)
      requires forall i | 0 <= i < |targets| :: targets[i].delivery !in deliveries
      requires forall i, j | 0 <= i < j < |targets| :: targets[i].delivery != targets[j].delivery
      modifies this`deliveries
      ensures deliveries == InsertAll(Bare(old(deliveries)), message, targets, now).rows
      ensures Inserted(old(deliveries), message, targets, |targets|, now, deliveries)
    {
      for k := 0 to |targets|
        invariant deliveries == InsertAll(Bare(old(deliveries)), message, targets[..k], now).rows
        invariant forall i | k <= i < |targets| :: targets[i].delivery !in deliveries
      {
        var t := targets[k];
        assert targets[..k + 1][..k] == targets[..k];
        InsertIs(deliveries, message, t, now);
        if forall id | id in deliveries :: !Ledger.Clashes(deliveries[id], message, t.device, t.fingerprint) {
          deliveries := deliveries[t.delivery := Ledger.Fresh(message, t.device, t.fingerprint, now)];
        }
      }
      assert targets[..|targets|] == targets;
      AllInserted(Bare(old(deliveries)), message, targets, now);
    }

    /** One transaction: all deliveries and the completion, or, when it fails or the claim is lost, neither. */
    method Materialize(c: Claim, attempts: nat, targets: seq<Target>, fails: bool, now: int) returns (committed: bool)
      requires forall i | 0 <= i < |targets| :: targets[i].delivery !in deliveries
      requires forall i, j | 0 <= i < j < |targets| :: targets[i].delivery != targets[j].delivery
      modifies this
      ensures committed <==> c.event in old(outbox) && Fenced(old(outbox)[c.event], c.token) && !fails
      ensures committed ==>
                var x := old(outbox)[c.event];
                && deliveries == InsertAll(Bare(old(deliveries)), x.message, targets, now).rows
                && Inserted(old(deliveries), x.message, targets, |targets|, now, deliveries)
                && outbox == old(outbox)[c.event := x.(intent := Some(x.intent.value.(status := Completed, lockedAt := None, claim := None)))]
      ensures !committed ==> deliveries == old(deliveries)
      ensures !committed ==>
                outbox == if c.event in old(outbox) && Fenced(old(outbox)[c.event], c.token)
                          then old(outbox)[c.event := old(outbox)[c.event].(intent := Some(FailedIntent(old(outbox)[c.event].intent.value, attempts, now)))]
                          else old(outbox)
    {
      if c.event !in outbox || !Fenced(outbox[c.event], c.token) {
        return false;
      }
      var x := outbox[c.event];
      if fails {
        MarkFailed(c, attempts, now);
        return false;
      }
      InsertDeliveries(x.message, targets, now);
      outbox := outbox[c.event := x.(intent := Some(x.intent.value.(status := Completed, lockedAt := None, claim := None)))];
      return true;
    }

    method MarkFailed(c: Claim, attempts: nat, now: int)
      requires c.event in outbox && Fenced(outbox[c.event], c.token)
      modifies this`outbox
      ensures var x := old(outbox)[c.event];
              outbox == old(outbox)[c.event := x.(intent := Some(FailedIntent(x.intent.value, attempts, now)))]
    {
      var x := outbox[c.event];
      var i := x.intent.value;
      if attempts >= 20 {
        i := i.(status := Dead, lockedAt := None, claim := None);
      } else {
        var exponent := if attempts - 1 >= 0 then attempts - 1 else 0;
        i := i.(status := Pending, availableAt := now + Ledger.Min(500 * Ledger.Pow2(exponent), 60_000), lockedAt := None, claim := None);
      }
      outbox := outbox[c.event := x.(intent := Some(i))];
    }
  }
}
