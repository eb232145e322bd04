/**
  One live push dispatcher beside everything else that touches the ledger: its cycles, the
  tasks of a cycle, the provider's answers, and the buffer of accepted tickets that are not
  stored yet. A statement that fails, or whose reply is lost, is a `Throw`; what it may have
  done to the table is then one of the outside events.
 */
module PushDispatch {
  import opened Basics
  import opened Ledger = PushLedger

  /** An accepted ticket, with the claim under which it was sent for. */
  datatype Entry = Entry(claim: Claim, ticket: string)

  /** Where a task is: the statement or call that it waits for. */
  datatype Stage =
    | Connecting
    | Locking
    | FirstRenew
    | Checking
    | Counting
    | SecondRenew
    | Awaiting
    | Persisting(entry: Entry)
    | Confirming(entry: Entry)
    | Dying(deviceInvalid: bool)
    | Suppressing
    | Retrying(caught: bool)
    | Invalidating

  datatype Phase = Idle | Flushing | FlushRecording(entry: Entry) | FlushComparing(entry: Entry) | Claiming | Working(mine: set<Claim>)

  /** `acks` is every acceptance the process has heard, `batch` what its last claim took. */
  datatype Process = Process(
    ledger: State,
    known: map<DeliveryId, Entry>,
    conflict: bool,
    phase: Phase,
    tasks: map<Claim, Stage>,
    acks: set<Entry>,
    batch: set<DeliveryId>)

  datatype Answer = Accepted(ticket: string) | Permanent(deviceInvalid: bool) | Retryable

  datatype Reply =
    | Connected(ok: bool)
    | Locked(acquired: bool)
    | NotReady
    | Renewed(now: int)
    | Checked(eligible: bool)
    | Counted
    | Answered(answer: Answer)
    | Recorded(now: int)
    | Confirmed
    | Written(now: int)
    | Invalidated(ok: bool)
    | Throw

  datatype Action =
    | Start
    | FlushNext(id: DeliveryId)
    | FlushRecorded(now: int)
    | FlushCompared
    | FlushFailed
    | FlushEnd
    | ClaimDue(ids: set<DeliveryId>, token: Token, now: int)
    | ClaimFailed
    | Task(c: Claim, reply: Reply)
    | CycleEnd
    | Outside(event: Event)

  // ----- Tasks ---------------------------------------------------------------------------------

  function Execute(p: Process, op: Op, now: int): Process {
    p.(ledger := Next(p.ledger, Event(op, now)))
  }

  function Finish(p: Process, c: Claim): Process {
    p.(tasks := p.tasks - {c})
  }

  function Go(p: Process, c: Claim, stage: Stage): Process {
    p.(tasks := p.tasks[c := stage])
  }

  /** A task that rejects ends the cycle it belongs to; its siblings go on. */
  function Reject(p: Process, c: Claim): Process {
    Finish(p.(phase := if p.phase.Working? && c in p.phase.mine then Idle else p.phase), c)
  }

  function Catch(p: Process, c: Claim): Process {
    if c.id in p.known then Finish(p, c) else Go(p, c, Retrying(true))
  }

  /** The claim is in force: its row is in processing under its token and has no ticket. */
  predicate InForce(s: State, c: Claim) {
    c.id in s.rows && HeldForSend(s.rows[c.id], c.token)
  }

  predicate Held(p: Process, c: Claim) {
    InForce(p.ledger, c)
  }

  function Forget(p: Process, id: DeliveryId): Process {
    p.(known := p.known - {id})
  }

  function TicketOf(s: State, id: DeliveryId): Option<string> {
    if id in s.rows then s.rows[id].ticket else None
  }

  /** The statement after a fenced write matched no row: the ticket is stored, the claim is still ours, or the latch falls. */
  function Compared(p: Process, entry: Entry): Process {
    var id := entry.claim.id;
    if TicketOf(p.ledger, id) == Some(entry.ticket) then Forget(p, id)
    else if Held(p, entry.claim) then p
    else p.(conflict := true)
  }

  function Hear(p: Process, c: Claim, answer: Answer): Process {
    match answer
    case Accepted(ticket) =>
      var entry := Entry(c, ticket);
      var q := p.(known := p.known[c.id := entry], acks := p.acks + {entry});
      if q.conflict then Finish(q, c) else Go(q, c, Persisting(entry))
    case Permanent(deviceInvalid) => Go(p, c, Dying(deviceInvalid))
    case Retryable => Go(p, c, Retrying(false))
  }

  function Record(p: Process, entry: Entry, now: int): Process {
    Execute(p, Accept(entry.claim, entry.ticket), now)
  }

  predicate TaskEnabled(p: Process, c: Claim, reply: Reply) {
    c in p.tasks
    && match p.tasks[c]
       case Connecting => reply.Connected?
       case Locking => reply.Locked? || reply.Throw?
       case FirstRenew => reply.NotReady? || reply.Throw? || (reply.Renewed? && reply.now >= p.ledger.clock)
       case Checking => reply.Checked? || reply.Throw?
       case Counting => reply.Counted? || reply.Throw?
       case SecondRenew => reply.NotReady? || reply.Throw? || (reply.Renewed? && reply.now >= p.ledger.clock)
       case Awaiting => reply.Answered? || reply.Throw?
       case Persisting(_) => reply.Throw? || (reply.Recorded? && reply.now >= p.ledger.clock)
       case Confirming(_) => reply.Throw? || reply.Confirmed?
       case Dying(_) => reply.Throw? || (reply.Written? && reply.now >= p.ledger.clock)
       case Suppressing => reply.Throw? || (reply.Written? && reply.now >= p.ledger.clock)
       case Retrying(_) => reply.Throw? || (reply.Written? && reply.now >= p.ledger.clock)
       case Invalidating => reply.Invalidated?
  }

  function AttemptsOf(s: State, c: Claim): nat {
    if c in s.issued && s.issued[c].ForSend? then s.issued[c].attempts else 0
  }

  function NextTask(p: Process, c: Claim, reply: Reply): Process
    requires TaskEnabled(p, c, reply)
  {
    match p.tasks[c]
    case Connecting => if reply.ok then Go(p, c, Locking) else Reject(p, c)
    case Locking =>
      if reply.Throw? then Catch(p, c) else if reply.acquired then Go(p, c, FirstRenew) else Go(p, c, Retrying(false))
    case FirstRenew =>
      if reply.Throw? then Catch(p, c)
      else if reply.NotReady? then Finish(p, c)
      else if Held(p, c) then Go(Execute(p, Renew(c), reply.now), c, Checking)
      else Finish(Execute(p, Renew(c), reply.now), c)
    case Checking =>
      if reply.Throw? then Catch(p, c) else if reply.eligible then Go(p, c, Counting) else Go(p, c, Suppressing)
    case Counting => if reply.Throw? then Catch(p, c) else Go(p, c, SecondRenew)
    case SecondRenew =>
      if reply.Throw? then Catch(p, c)
      else if reply.NotReady? then Finish(p, c)
      else if Held(p, c) then Go(Execute(p, Renew(c), reply.now), c, Awaiting)
      else Finish(Execute(p, Renew(c), reply.now), c)
    case Awaiting => if reply.Throw? then Catch(p, c) else Hear(p, c, reply.answer)
    case Persisting(entry) =>
      if reply.Throw? then Catch(p, c)
      else if Held(p, entry.claim) then Finish(Forget(Record(p, entry, reply.now), c.id), c)
      else Go(Record(p, entry, reply.now), c, Confirming(entry))
    case Confirming(entry) => if reply.Throw? then Catch(p, c) else Finish(Compared(p, entry), c)
    case Dying(deviceInvalid) =>
      if reply.Throw? then Catch(p, c)
      else if Held(p, c) && deviceInvalid then Go(Execute(p, Die(c), reply.now), c, Invalidating)
      else Finish(Execute(p, Die(c), reply.now), c)
    case Suppressing =>
      if reply.Throw? then Catch(p, c) else Finish(Execute(p, Suppress(c), reply.now), c)
    case Retrying(caught) =>
      if reply.Throw? then (if caught then Finish(p, c) else Catch(p, c))
      else Finish(Execute(p, Retry(c, AttemptsOf(p.ledger, c)), reply.now), c)
    case Invalidating => if reply.ok then Finish(p, c) else Reject(p, c)
  }

  // ----- Cycles --------------------------------------------------------------------------------

  predicate ActionEnabled(p: Process, a: Action) {
    match a
    case Start => p.phase.Idle? && !p.conflict
    case FlushNext(id) => p.phase.Flushing? && id in p.known && !p.conflict
    case FlushRecorded(now) => p.phase.FlushRecording? && now >= p.ledger.clock
    case FlushCompared => p.phase.FlushComparing?
    case FlushFailed => p.phase.FlushRecording? || p.phase.FlushComparing?
    case FlushEnd => p.phase.Flushing?
    case ClaimDue(ids, token, now) => p.phase.Claiming? && Enabled(p.ledger, Event(ClaimSend(ids, token), now))
    case ClaimFailed => p.phase.Claiming?
    case Task(c, reply) => TaskEnabled(p, c, reply)
    case CycleEnd => p.phase.Working? && forall c | c in p.phase.mine :: c !in p.tasks
    case Outside(event) => Enabled(p.ledger, event)
  }

  function Begun(p: Process, s: State, claims: set<Claim>): Process {
    p.(ledger := s, phase := Working(claims), tasks := p.tasks + (map c | c in claims :: Connecting), batch := set c | c in claims :: c.id)
  }

  function NextProcess(p: Process, a: Action): Process
    requires ActionEnabled(p, a)
  {
    match a
    case Start => p.(phase := Flushing)
    case FlushNext(id) => p.(phase := FlushRecording(p.known[id]))
    case FlushRecorded(now) =>
      var entry := p.phase.entry;
      var q := Record(p, entry, now);
      if Held(p, entry.claim) then Forget(q, entry.claim.id).(phase := Flushing) else q.(phase := FlushComparing(entry))
    case FlushCompared => Compared(p, p.phase.entry).(phase := Flushing)
    case FlushFailed => p.(phase := Flushing)
    case FlushEnd => p.(phase := if p.known == map[] && !p.conflict then Claiming else Idle)
    case ClaimDue(ids, token, now) =>
      var event := Event(ClaimSend(ids, token), now);
      Begun(p, Next(p.ledger, event), NewClaims(p.ledger.rows, event))
    case ClaimFailed => p.(phase := Idle)
    case Task(c, reply) => NextTask(p, c, reply)
    case CycleEnd => p.(phase := Idle)
    case Outside(event) => p.(ledger := Next(p.ledger, event))
  }

  /** The flush found the buffer empty, so the cycle goes on to claim. */
  predicate Passes(p: Process, a: Action) {
    a.FlushEnd? && p.phase.Flushing? && p.known == map[] && !p.conflict
  }

  /** The provider is asked to send: the second renewal found the claim in force. */
  predicate Sends(p: Process, a: Action) {
    a.Task? && a.c in p.tasks && p.tasks[a.c].SecondRenew? && a.reply.Renewed? && Held(p, a.c)
  }

  predicate Rejects(a: Action) {
    a.Task? && (a.reply == Connected(false) || a.reply == Invalidated(false))
  }

  ghost predicate Goes(p: Process, a: Action, q: Process) {
    ActionEnabled(p, a) && q == NextProcess(p, a)
  }

  ghost predicate Moved(states: seq<Process>, actions: seq<Action>, k: nat)
    requires k < |actions| && |states| == |actions| + 1
  {
    Goes(states[k], actions[k], states[k + 1])
  }

  /** The process starts beside any ledger that can be reached. */
  ghost predicate Started(p: Process) {
    && Inv(p.ledger)
    && p.known == map[] && !p.conflict && p.phase.Idle? && p.tasks == map[] && p.acks == {} && p.batch == {}
  }

  ghost predicate Execution(states: seq<Process>, actions: seq<Action>) {
    && |states| == |actions| + 1
    && Started(states[0])
    && forall k | 0 <= k < |actions| :: Moved(states, actions, k)
  }
}
