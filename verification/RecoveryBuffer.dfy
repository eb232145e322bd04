/**
  What a dispatcher keeps as long as no cycle goes past its flush beside a task that could
  resend: at most one task of a delivery can hear an acceptance, none can once one was heard,
  and every acceptance heard is in the buffer or stored. Each step of a cycle and of a task,
  and whatever happens to the ledger outside, is shown to keep this. Live tasks of earlier
  cycles that have their answer, or that have lost their claim before they sent, do no harm.
 */
module RecoveryBuffer {
  import opened Basics
  import opened PushLedger
  import opened PushDispatch

  predicate SentFor(s: State, c: Claim) {
    c in s.issued && s.issued[c].ForSend?
  }

  /** The ticket is stored, or its row was cleaned up since. */
  predicate Stored(s: State, e: Entry) {
    e.claim.id in s.ever && (e.claim.id in s.rows ==> s.rows[e.claim.id].ticket == Some(e.ticket))
  }

  predicate Buffered(p: Process, e: Entry) {
    e.claim.id in p.known && p.known[e.claim.id] == e
  }

  /** A task that the provider has not answered yet. */
  predicate Unanswered(stage: Stage) {
    stage.Connecting? || stage.Locking? || stage.FirstRenew? || stage.Checking? || stage.Counting? || stage.SecondRenew? || stage.Awaiting?
  }

  /** A task can still hear an acceptance: it waits for the provider, or its claim lets it come so far. */
  predicate Hearing(s: State, c: Claim, stage: Stage) {
    Unanswered(stage) && (stage.Awaiting? || InForce(s, c))
  }

  predicate CanHear(p: Process, c: Claim) {
    c in p.tasks && Hearing(p.ledger, c, p.tasks[c])
  }

  /** The row is still to be sent, now or when its lease or its wait is over. */
  predicate Open(s: State, id: DeliveryId) {
    id in s.rows && s.rows[id].ticket.None? && !s.rows[id].status.Terminal()
  }

  /** What makes a live task a danger to the cycles after it: it can hear an acceptance of a row that another claim can take. */
  predicate CanResend(p: Process, c: Claim) {
    CanHear(p, c) && Open(p.ledger, c.id)
  }

  ghost predicate EntryOk(p: Process, c: Claim, stage: Stage) {
    && (stage.Persisting? ==> stage.entry in p.acks && stage.entry.claim == c)
    && (stage.Confirming? ==> stage.entry in p.acks && stage.entry.claim == c)
  }

  predicate Known(s: State, c: Claim) {
    SentFor(s, c) && c.id in s.ever
  }

  ghost predicate TasksOk(p: Process) {
    && (forall c | c in p.tasks :: Known(p.ledger, c) && EntryOk(p, c, p.tasks[c]))
    && (forall c, e | CanHear(p, c) && e in p.acks :: e.claim.id != c.id)
    && (forall c, d | CanHear(p, c) && CanHear(p, d) && c.id == d.id :: c == d)
  }

  ghost predicate AcksOk(p: Process) {
    && (forall e | e in p.acks :: Known(p.ledger, e.claim) && (Buffered(p, e) || Stored(p.ledger, e)))
    && (forall e, f | e in p.acks && f in p.acks && e.claim.id == f.claim.id :: e == f)
    && (forall id | id in p.known :: p.known[id] in p.acks && p.known[id].claim.id == id)
  }

  /** A cycle that is past its flush finds no task that could resend, and claims nothing that was heard. */
  ghost predicate ClaimingOk(p: Process) {
    && (forall c | c in p.tasks :: !CanResend(p, c))
    && (forall e | e in p.acks :: !Open(p.ledger, e.claim.id))
  }

  ghost predicate PhaseOk(p: Process) {
    && (p.phase.FlushRecording? ==> p.phase.entry in p.acks)
    && (p.phase.FlushComparing? ==> p.phase.entry in p.acks)
    && (p.phase.Claiming? ==> ClaimingOk(p))
  }

  ghost predicate Safe(p: Process) {
    TasksOk(p) && AcksOk(p) && PhaseOk(p)
  }

  /** What was claimed and what was stored stays so; a claim that is not in force and a row that is not open never are again. */
  ghost predicate Carries(s: State, s': State) {
    && (forall c | Known(s, c) :: Known(s', c) && (InForce(s', c) ==> InForce(s, c)))
    && (forall e: Entry | Stored(s, e) :: Stored(s', e))
    && (forall id | id in s.ever && Open(s', id) :: Open(s, id))
  }

  lemma ForceStaysLost(s: State, event: Event, c: Claim)
    requires RowsKnown(s) && Enabled(s, event) && SentFor(s, c) && InForce(Next(s, event), c)
    ensures InForce(s, c)
  {
    if c.id in s.rows {
      ClaimOfRowAfter(c.id, s.rows[c.id], event);
    }
  }

  lemma LedgerMove(s: State, event: Event)
    requires RowsKnown(s) && Enabled(s, event)
    ensures RowsKnown(Next(s, event)) && Carries(s, Next(s, event))
  {
    var s' := Next(s, event);
    forall c | Known(s, c) ensures Known(s', c) && (InForce(s', c) ==> InForce(s, c)) {
      IssuedStays(s, event, c);
      if InForce(s', c) {
        ForceStaysLost(s, event, c);
      }
    }
    forall e: Entry | Stored(s, e) ensures Stored(s', e) {
      EventFollows(s, event, e.claim.id);
    }
    forall id | id in s.ever && Open(s', id) ensures Open(s, id) {
      EventFollows(s, event, id);
    }
  }

  lemma CarryKeepsSafe(p: Process, s: State)
    requires Safe(p) && Carries(p.ledger, s)
    ensures Safe(p.(ledger := s))
  {
    var q := p.(ledger := s);
    assert forall c | CanHear(q, c) :: CanHear(p, c);
    assert TasksOk(q);
    assert AcksOk(q);
  }

  lemma ExecuteKeepsSafe(p: Process, op: Op, now: int)
    requires Safe(p) && RowsKnown(p.ledger) && Enabled(p.ledger, Event(op, now))
    ensures Safe(Execute(p, op, now)) && RowsKnown(Execute(p, op, now).ledger)
  {
    LedgerMove(p.ledger, Event(op, now));
    CarryKeepsSafe(p, Next(p.ledger, Event(op, now)));
  }

  lemma FinishKeepsSafe(p: Process, c: Claim)
    requires Safe(p)
    ensures Safe(Finish(p, c))
  {
    assert forall d | CanHear(Finish(p, c), d) :: CanHear(p, d);
  }

  /** A rejecting task leaves its siblings live, but no cycle has begun beside them yet. */
  lemma RejectKeepsSafe(p: Process, c: Claim)
    requires Safe(p) && c in p.tasks
    ensures Safe(Reject(p, c))
  {
    var phase := Reject(p, c).phase;
    assert Safe(p.(phase := phase));
    FinishKeepsSafe(p.(phase := phase), c);
  }

  lemma GoKeepsSafe(p: Process, c: Claim, stage: Stage)
    requires Safe(p) && c in p.tasks && EntryOk(p, c, stage)
    requires Hearing(p.ledger, c, stage) ==> CanHear(p, c)
    ensures Safe(Go(p, c, stage))
  {
    var q := Go(p, c, stage);
    assert forall d | CanHear(q, d) :: CanHear(p, d);
    assert TasksOk(q);
    assert AcksOk(q);
  }

  lemma CatchKeepsSafe(p: Process, c: Claim)
    requires Safe(p) && c in p.tasks
    ensures Safe(Catch(p, c))
  {
    if c.id in p.known {
      FinishKeepsSafe(p, c);
    } else {
      GoKeepsSafe(p, c, Retrying(true));
    }
  }

  /** Only an acceptance that is stored is taken out of the buffer. */
  lemma ForgetKeepsSafe(p: Process, e: Entry)
    requires Safe(p) && e in p.acks && Stored(p.ledger, e)
    ensures Safe(Forget(p, e.claim.id))
  {
  }

  lemma RecordedIsStored(p: Process, e: Entry, now: int)
    requires Safe(p) && RowsKnown(p.ledger) && e in p.acks && now >= p.ledger.clock
    ensures Safe(Record(p, e, now)) && RowsKnown(Record(p, e, now).ledger)
    ensures Held(p, e.claim) ==> Stored(Record(p, e, now).ledger, e)
  {
    ExecuteKeepsSafe(p, Accept(e.claim, e.ticket), now);
  }

  lemma ComparedKeepsSafe(p: Process, e: Entry)
    requires Safe(p) && RowsKnown(p.ledger) && e in p.acks
    ensures Safe(Compared(p, e)) && Compared(p, e).ledger == p.ledger
  {
    if TicketOf(p.ledger, e.claim.id) == Some(e.ticket) {
      ForgetKeepsSafe(p, e);
    }
  }

  function Heard(p: Process, e: Entry): Process {
    Go(p, e.claim, Persisting(e)).(known := p.known[e.claim.id := e], acks := p.acks + {e})
  }

  lemma HeardKeepsTasks(p: Process, e: Entry)
    requires Safe(p) && e.claim in p.tasks && p.tasks[e.claim].Awaiting?
    ensures TasksOk(Heard(p, e)) && forall f | f in p.acks :: f.claim.id != e.claim.id
    ensures forall d | CanHear(Heard(p, e), d) :: CanHear(p, d)
  {
    assert CanHear(p, e.claim);
    assert forall d | CanHear(Heard(p, e), d) :: CanHear(p, d) && d.id != e.claim.id;
  }

  lemma HeardKeepsAcks(p: Process, e: Entry)
    requires AcksOk(p) && Known(p.ledger, e.claim) && forall f | f in p.acks :: f.claim.id != e.claim.id
    ensures AcksOk(Heard(p, e))
  {
  }

  /** A row that a hearing task works on is not open in the claiming phase. */
  lemma HeardKeepsPhase(p: Process, e: Entry)
    requires PhaseOk(p) && CanHear(p, e.claim) && forall d | CanHear(Heard(p, e), d) :: CanHear(p, d)
    ensures PhaseOk(Heard(p, e))
  {
  }

  lemma HeardKeepsSafe(p: Process, e: Entry)
    requires Safe(p) && e.claim in p.tasks && p.tasks[e.claim].Awaiting?
    ensures Safe(Heard(p, e))
  {
    HeardKeepsTasks(p, e);
    HeardKeepsAcks(p, e);
    HeardKeepsPhase(p, e);
  }

  lemma HearAccepted(p: Process, c: Claim, ticket: string)
    ensures var q := Heard(p, Entry(c, ticket)); Hear(p, c, Accepted(ticket)) == if p.conflict then Finish(q, c) else q
  {
    assert Finish(Heard(p, Entry(c, ticket)), c).tasks == p.tasks - {c};
  }

  lemma AcceptanceKeepsSafe(p: Process, c: Claim, ticket: string)
    requires Safe(p) && c in p.tasks && p.tasks[c].Awaiting?
    ensures Safe(Hear(p, c, Accepted(ticket))) && Hear(p, c, Accepted(ticket)).ledger == p.ledger
  {
    HearAccepted(p, c, ticket);
    HeardKeepsSafe(p, Entry(c, ticket));
    FinishKeepsSafe(Heard(p, Entry(c, ticket)), c);
  }

  lemma HearKeepsSafe(p: Process, c: Claim, answer: Answer)
    requires Safe(p) && c in p.tasks && p.tasks[c].Awaiting?
    ensures Safe(Hear(p, c, answer)) && Hear(p, c, answer).ledger == p.ledger
  {
    match answer
    case Accepted(ticket) => AcceptanceKeepsSafe(p, c, ticket);
    case Permanent(deviceInvalid) => GoKeepsSafe(p, c, Dying(deviceInvalid));
    case Retryable => GoKeepsSafe(p, c, Retrying(false));
  }

  /** A fenced statement of a task, after which the task goes on. */
  lemma WriteAndGo(p: Process, c: Claim, op: Op, now: int, stage: Stage)
    requires Safe(p) && RowsKnown(p.ledger) && c in p.tasks && Enabled(p.ledger, Event(op, now)) && EntryOk(p, c, stage)
    requires !Unanswered(stage)
    ensures Safe(Go(Execute(p, op, now), c, stage)) && RowsKnown(Execute(p, op, now).ledger)
  {
    ExecuteKeepsSafe(p, op, now);
    GoKeepsSafe(Execute(p, op, now), c, stage);
  }

  lemma WriteAndFinish(p: Process, c: Claim, op: Op, now: int)
    requires Safe(p) && RowsKnown(p.ledger) && Enabled(p.ledger, Event(op, now))
    ensures Safe(Finish(Execute(p, op, now), c)) && RowsKnown(Execute(p, op, now).ledger)
  {
    ExecuteKeepsSafe(p, op, now);
    FinishKeepsSafe(Execute(p, op, now), c);
  }

  /** What a renewal under a claim in force does to the process. */
  lemma RenewedOnce(p: Process, c: Claim, now: int)
    requires Held(p, c) && now >= p.ledger.clock
    ensures var q := Execute(p, Renew(c), now);
            && Held(q, c) && q == p.(ledger := q.ledger) && q.ledger.clock == now
            && q.ledger.rows == p.ledger.rows[c.id := p.ledger.rows[c.id].(lockedAt := Some(now))]
            && q.ledger.issued == p.ledger.issued && q.ledger.ever == p.ledger.ever
  {
    assert NewlyIssued(p.ledger.rows, Event(Renew(c), now)) == map[];
  }

  /** A renewal leads on only under a claim in force, and such a task could hear before. */
  lemma RenewKeepsSafe(p: Process, c: Claim, now: int, stage: Stage)
    requires Safe(p) && RowsKnown(p.ledger) && c in p.tasks && Unanswered(p.tasks[c]) && now >= p.ledger.clock && Unanswered(stage)
    ensures Held(p, c) ==> Safe(Go(Execute(p, Renew(c), now), c, stage))
    ensures Safe(Finish(Execute(p, Renew(c), now), c))
    ensures RowsKnown(Execute(p, Renew(c), now).ledger)
  {
    WriteAndFinish(p, c, Renew(c), now);
    ExecuteKeepsSafe(p, Renew(c), now);
    if Held(p, c) {
      RenewedOnce(p, c, now);
      GoKeepsSafe(Execute(p, Renew(c), now), c, stage);
    }
  }

  lemma BeforeSendingKeepsSafe(p: Process, c: Claim, reply: Reply)
    requires Safe(p) && RowsKnown(p.ledger) && TaskEnabled(p, c, reply) && Unanswered(p.tasks[c]) && !p.tasks[c].Awaiting?
    ensures Safe(NextTask(p, c, reply)) && RowsKnown(NextTask(p, c, reply).ledger)
  {
    match reply
    case Connected(ok) =>
      GoKeepsSafe(p, c, Locking);
      RejectKeepsSafe(p, c);
    case Locked(acquired) => GoKeepsSafe(p, c, if acquired then FirstRenew else Retrying(false));
    case NotReady => FinishKeepsSafe(p, c);
    case Renewed(now) => RenewKeepsSafe(p, c, now, if p.tasks[c].FirstRenew? then Checking else Awaiting);
    case Checked(eligible) => GoKeepsSafe(p, c, if eligible then Counting else Suppressing);
    case Counted => GoKeepsSafe(p, c, SecondRenew);
    case Throw => CatchKeepsSafe(p, c);
  }

  lemma ForgetAndFinish(p: Process, e: Entry, c: Claim)
    requires Safe(p) && e in p.acks && Stored(p.ledger, e)
    ensures Safe(Finish(Forget(p, e.claim.id), c))
  {
    ForgetKeepsSafe(p, e);
    FinishKeepsSafe(Forget(p, e.claim.id), c);
  }

  lemma PersistedKeepsSafe(p: Process, c: Claim, now: int)
    requires Safe(p) && RowsKnown(p.ledger) && c in p.tasks && p.tasks[c].Persisting? && now >= p.ledger.clock && Held(p, c)
    ensures Safe(NextTask(p, c, Recorded(now))) && RowsKnown(NextTask(p, c, Recorded(now)).ledger)
  {
    var e := p.tasks[c].entry;
    assert EntryOk(p, c, p.tasks[c]);
    assert NextTask(p, c, Recorded(now)) == Finish(Forget(Record(p, e, now), e.claim.id), c);
    RecordedIsStored(p, e, now);
    ForgetAndFinish(Record(p, e, now), e, c);
  }

  lemma NotPersistedKeepsSafe(p: Process, c: Claim, now: int)
    requires Safe(p) && RowsKnown(p.ledger) && c in p.tasks && p.tasks[c].Persisting? && now >= p.ledger.clock && !Held(p, c)
    ensures Safe(NextTask(p, c, Recorded(now))) && RowsKnown(NextTask(p, c, Recorded(now)).ledger)
  {
    var e := p.tasks[c].entry;
    assert EntryOk(p, c, p.tasks[c]);
    assert NextTask(p, c, Recorded(now)) == Go(Record(p, e, now), c, Confirming(e));
    WriteAndGo(p, c, Accept(e.claim, e.ticket), now, Confirming(e));
  }

  lemma ConfirmKeepsSafe(p: Process, c: Claim)
    requires Safe(p) && RowsKnown(p.ledger) && c in p.tasks && p.tasks[c].Confirming?
    ensures Safe(NextTask(p, c, Confirmed)) && RowsKnown(NextTask(p, c, Confirmed).ledger)
  {
    var e := p.tasks[c].entry;
    assert EntryOk(p, c, p.tasks[c]);
    ComparedKeepsSafe(p, e);
    FinishKeepsSafe(Compared(p, e), c);
  }

  lemma DyingKeepsSafe(p: Process, c: Claim, now: int)
    requires Safe(p) && RowsKnown(p.ledger) && c in p.tasks && now >= p.ledger.clock && p.tasks[c].Dying?
    ensures Safe(NextTask(p, c, Written(now))) && RowsKnown(NextTask(p, c, Written(now)).ledger)
  {
    if Held(p, c) && p.tasks[c].deviceInvalid {
      assert NextTask(p, c, Written(now)) == Go(Execute(p, Die(c), now), c, Invalidating);
      WriteAndGo(p, c, Die(c), now, Invalidating);
    } else {
      assert NextTask(p, c, Written(now)) == Finish(Execute(p, Die(c), now), c);
      WriteAndFinish(p, c, Die(c), now);
    }
  }

  lemma WriteKeepsSafe(p: Process, c: Claim, now: int)
    requires Safe(p) && RowsKnown(p.ledger) && c in p.tasks && now >= p.ledger.clock
    requires p.tasks[c].Suppressing? || p.tasks[c].Retrying?
    ensures Safe(NextTask(p, c, Written(now))) && RowsKnown(NextTask(p, c, Written(now)).ledger)
  {
    var op := if p.tasks[c].Suppressing? then Suppress(c) else Retry(c, AttemptsOf(p.ledger, c));
    assert NextTask(p, c, Written(now)) == Finish(Execute(p, op, now), c);
    WriteAndFinish(p, c, op, now);
  }

  lemma AfterAnswerKeepsSafe(p: Process, c: Claim, reply: Reply)
    requires Safe(p) && RowsKnown(p.ledger) && TaskEnabled(p, c, reply) && !Unanswered(p.tasks[c])
    ensures Safe(NextTask(p, c, reply)) && RowsKnown(NextTask(p, c, reply).ledger)
  {
    match reply
    case Recorded(now) =>
      if Held(p, c) {
        PersistedKeepsSafe(p, c, now);
      } else {
        NotPersistedKeepsSafe(p, c, now);
      }
    case Confirmed => ConfirmKeepsSafe(p, c);
    case Written(now) =>
      if p.tasks[c].Dying? {
        DyingKeepsSafe(p, c, now);
      } else {
        WriteKeepsSafe(p, c, now);
      }
    case Invalidated(ok) =>
      FinishKeepsSafe(p, c);
      RejectKeepsSafe(p, c);
    case Throw =>
      FinishKeepsSafe(p, c);
      CatchKeepsSafe(p, c);
  }

  /** A claim takes open rows: none whose acceptance was heard, and none of a task that can still hear one. */
  lemma ClaimedAreUnheard(p: Process, event: Event, c: Claim)
    requires Safe(p) && p.phase.Claiming? && event.op.ClaimSend? && Enabled(p.ledger, event)
    requires c in NewClaims(p.ledger.rows, event)
    ensures c !in p.tasks
    ensures forall e | e in p.acks :: c.id != e.claim.id
    ensures forall d | CanHear(p, d) :: c.id != d.id
  {
    assert Open(p.ledger, c.id);
    assert forall d | d in p.tasks :: d in p.ledger.issued;
    assert forall d | CanHear(p, d) :: !CanResend(p, d);
  }

  lemma ClaimedAreIssued(s: State, event: Event, c: Claim)
    requires RowsKnown(s) && event.op.ClaimSend? && c in NewClaims(s.rows, event)
    ensures Known(Next(s, event), c) && c.id in event.op.ids && c.token == event.op.token
  {
    assert c in NewlyIssued(s.rows, event);
  }

  ghost predicate Unheard(p: Process, c: Claim) {
    && c !in p.tasks
    && (forall e | e in p.acks :: e.claim.id != c.id)
    && (forall d | CanHear(p, d) :: d.id != c.id)
  }

  lemma BegunHearers(p: Process, s: State, claims: set<Claim>)
    requires Safe(p) && Carries(p.ledger, s)
    requires forall c | c in claims :: c !in p.tasks
    ensures forall d | CanHear(Begun(p, s, claims), d) :: d in claims || CanHear(p, d)
    ensures forall d | d in Begun(p, s, claims).tasks ::
              if d in claims then Begun(p, s, claims).tasks[d] == Connecting
              else d in p.tasks && Begun(p, s, claims).tasks[d] == p.tasks[d]
  {
  }

  lemma BegunTasks(p: Process, s: State, claims: set<Claim>)
    requires TasksOk(p) && Carries(p.ledger, s)
    requires forall c | c in claims :: Known(s, c) && Unheard(p, c)
    requires forall c, d | c in claims && d in claims && c.id == d.id :: c == d
    requires forall d | CanHear(Begun(p, s, claims), d) :: d in claims || CanHear(p, d)
    requires forall d | d in Begun(p, s, claims).tasks ::
               if d in claims then Begun(p, s, claims).tasks[d] == Connecting
               else d in p.tasks && Begun(p, s, claims).tasks[d] == p.tasks[d]
    ensures TasksOk(Begun(p, s, claims))
  {
  }

  lemma BegunAcks(p: Process, s: State, claims: set<Claim>)
    requires AcksOk(p) && Carries(p.ledger, s)
    ensures AcksOk(Begun(p, s, claims))
  {
  }

  /** The tasks that a claim begins, on a ledger in which they are issued. */
  lemma BegunIsSafe(p: Process, s: State, claims: set<Claim>)
    requires Safe(p) && Carries(p.ledger, s)
    requires forall c | c in claims :: Known(s, c) && Unheard(p, c)
    requires forall c, d | c in claims && d in claims && c.id == d.id :: c == d
    ensures Safe(Begun(p, s, claims))
  {
    BegunHearers(p, s, claims);
    BegunTasks(p, s, claims);
    BegunAcks(p, s, claims);
  }

  lemma ClaimKeepsSafe(p: Process, ids: set<DeliveryId>, token: Token, now: int)
    requires Safe(p) && RowsKnown(p.ledger) && ActionEnabled(p, ClaimDue(ids, token, now))
    ensures Safe(NextProcess(p, ClaimDue(ids, token, now))) && RowsKnown(NextProcess(p, ClaimDue(ids, token, now)).ledger)
  {
    var event := Event(ClaimSend(ids, token), now);
    var claims := NewClaims(p.ledger.rows, event);
    LedgerMove(p.ledger, event);
    forall c | c in claims ensures Known(Next(p.ledger, event), c) && c.token == token && Unheard(p, c) {
      ClaimedAreIssued(p.ledger, event, c);
      ClaimedAreUnheard(p, event, c);
    }
    BegunIsSafe(p, Next(p.ledger, event), claims);
  }

  /** With an empty buffer every acceptance heard is stored, so the cycle may claim unless a live task is a danger. */
  lemma PassKeepsSafe(p: Process)
    requires Safe(p) && p.known == map[] && forall c | c in p.tasks :: !CanResend(p, c)
    ensures Safe(p.(phase := Claiming))
  {
    var q := p.(phase := Claiming);
    forall e | e in q.acks ensures !Open(q.ledger, e.claim.id) {
      assert Stored(p.ledger, e);
    }
    assert ClaimingOk(q);
    PhaseKeepsSafe(p, Claiming);
  }

  lemma FlushKeepsSafe(p: Process, a: Action)
    requires Safe(p) && RowsKnown(p.ledger) && ActionEnabled(p, a) && (a.FlushRecorded? || a.FlushCompared?)
    ensures Safe(NextProcess(p, a)) && RowsKnown(NextProcess(p, a).ledger)
  {
    var e := p.phase.entry;
    if a.FlushRecorded? {
      var q := Record(p, e, a.now);
      RecordedIsStored(p, e, a.now);
      if Held(p, e.claim) {
        ForgetKeepsSafe(q, e);
        PhaseKeepsSafe(Forget(q, e.claim.id), Flushing);
      } else {
        PhaseKeepsSafe(q, FlushComparing(e));
      }
    } else {
      ComparedKeepsSafe(p, e);
      PhaseKeepsSafe(Compared(p, e), Flushing);
    }
  }

  lemma PhaseKeepsSafe(p: Process, phase: Phase)
    requires Safe(p) && PhaseOk(p.(phase := phase))
    ensures Safe(p.(phase := phase))
  {
  }

  lemma ActionKeepsSafe(p: Process, a: Action)
    requires Safe(p) && RowsKnown(p.ledger) && ActionEnabled(p, a)
    requires Passes(p, a) ==> forall c | c in p.tasks :: !CanResend(p, c)
    ensures Safe(NextProcess(p, a)) && RowsKnown(NextProcess(p, a).ledger)
  {
    match a
    case Task(c, reply) =>
      if !Unanswered(p.tasks[c]) {
        AfterAnswerKeepsSafe(p, c, reply);
      } else if p.tasks[c].Awaiting? && reply.Answered? {
        HearKeepsSafe(p, c, reply.answer);
      } else if p.tasks[c].Awaiting? {
        CatchKeepsSafe(p, c);
      } else {
        BeforeSendingKeepsSafe(p, c, reply);
      }
    case ClaimDue(ids, token, now) => ClaimKeepsSafe(p, ids, token, now);
    case Outside(event) => ExecuteKeepsSafe(p, event.op, event.now);
    case FlushRecorded(_) => FlushKeepsSafe(p, a);
    case FlushCompared => FlushKeepsSafe(p, a);
    case FlushNext(id) => PhaseKeepsSafe(p, FlushRecording(p.known[id]));
    case FlushEnd =>
      if Passes(p, a) {
        PassKeepsSafe(p);
      } else {
        PhaseKeepsSafe(p, Idle);
      }
    case _ => PhaseKeepsSafe(p, NextProcess(p, a).phase);
  }

  /** No cycle so far has gone past its flush beside a task that could resend. */
  ghost predicate Orderly(states: seq<Process>, actions: seq<Action>, n: nat)
    requires n <= |actions| < |states|
  {
    forall k, c | 0 <= k < n && Passes(states[k], actions[k]) && c in states[k].tasks :: !CanResend(states[k], c)
  }

  lemma MomentKeepsSafe(states: seq<Process>, actions: seq<Action>, k: nat)
    requires Execution(states, actions) && k < |actions| && Orderly(states, actions, k + 1)
    requires Safe(states[k]) && RowsKnown(states[k].ledger)
    ensures Safe(states[k + 1]) && RowsKnown(states[k + 1].ledger)
  {
    assert Moved(states, actions, k);
    ActionKeepsSafe(states[k], actions[k]);
  }

  lemma {:induction false} ExecutionKeepsSafe(states: seq<Process>, actions: seq<Action>, n: nat)
    requires Execution(states, actions) && n <= |actions|
    requires Orderly(states, actions, n)
    ensures Safe(states[n]) && RowsKnown(states[n].ledger)
  {
    if n > 0 {
      ExecutionKeepsSafe(states, actions, n - 1);
      MomentKeepsSafe(states, actions, n - 1);
    }
  }
}
