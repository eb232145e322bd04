/** What one live dispatcher promises about accepted tickets, and exactly when it does not. */
module NoResend {
  import opened Basics
  import opened PushLedger
  import opened PushDispatch
  import opened RecoveryBuffer
  import opened DispatchRuns

  /**
    As long as no cycle goes past its flush beside a task that could resend, nothing is sent
    again once its acceptance was heard.
   */
  lemma NeverResends(states: seq<Process>, actions: seq<Action>, n: nat, e: Entry)
    requires Execution(states, actions) && n < |actions| && Orderly(states, actions, n)
    requires e in states[n].acks && Sends(states[n], actions[n])
    ensures actions[n].c.id != e.claim.id
  {
    ExecutionKeepsSafe(states, actions, n);
    assert CanHear(states[n], actions[n].c);
  }

  /** In the same executions every acceptance heard is in the buffer or stored. */
  lemma AcksAreKept(states: seq<Process>, actions: seq<Action>, n: nat)
    requires Execution(states, actions) && n <= |actions| && Orderly(states, actions, n)
    ensures forall e | e in states[n].acks :: Buffered(states[n], e) || Stored(states[n].ledger, e)
    ensures forall e, f | e in states[n].acks && f in states[n].acks && e.claim.id == f.claim.id :: e == f
  {
    ExecutionKeepsSafe(states, actions, n);
  }

  // ----- The exact condition ------------------------------------------------------------------------

  /** The provider is asked for a delivery whose acceptance was heard. */
  ghost predicate Resends(p: Process, a: Action) {
    ActionEnabled(p, a) && Sends(p, a) && exists e :: e in p.acks && e.claim.id == a.c.id
  }

  /** The execution goes on from a passed flush, with no task that could resend at any later one. */
  ghost predicate GoesOn(states: seq<Process>, actions: seq<Action>, states': seq<Process>, actions': seq<Action>)
    requires states != []
  {
    && Execution(states', actions')
    && states <= states' && actions + [FlushEnd] <= actions'
    && forall k, c | |actions| < k < |actions'| && Passes(states'[k], actions'[k]) && c in states'[k].tasks ::
         !CanResend(states'[k], c)
  }

  ghost predicate LeadsToResend(states: seq<Process>, actions: seq<Action>,
                                states': seq<Process>, actions': seq<Action>, a: Action)
    requires states != []
  {
    GoesOn(states, actions, states', actions') && Resends(Last(states'), a)
  }

  lemma OrderlyBeyond(states: seq<Process>, actions: seq<Action>, states': seq<Process>, actions': seq<Action>)
    requires Execution(states, actions) && Orderly(states, actions, |actions|)
    requires GoesOn(states, actions, states', actions')
    requires forall c | c in Last(states).tasks :: !CanResend(Last(states), c)
    ensures Orderly(states', actions', |actions'|)
  {
    forall k, c | 0 <= k < |actions'| && Passes(states'[k], actions'[k]) && c in states'[k].tasks
      ensures !CanResend(states'[k], c)
    {
      if k < |actions| {
        assert states'[k] == states[k] && actions'[k] == (actions + [FlushEnd])[k];
      } else if k == |actions| {
        assert states'[k] == Last(states);
      }
    }
  }

  /** A task that could resend does, if the provider accepts, the acceptance cannot be stored, and the row is claimed again. */
  lemma TaskResends(states: seq<Process>, actions: seq<Action>, c: Claim)
    returns (states': seq<Process>, actions': seq<Action>, a: Action)
    requires Execution(states, actions) && Passes(Last(states), FlushEnd) && CanResend(Last(states), c)
    requires var row := Last(states).ledger.rows[c.id]; !row.status.TicketAccepted? && HasLease(row)
    ensures LeadsToResend(states, actions, states', actions', a) && a.c.id == c.id && Entry(c, TICKET) in Last(states').acks
    ensures forall k | |actions| < k < |actions'| :: !actions'[k].FlushEnd?
  {
    var on, done := Continue(states, actions, FlushEnd);
    var on', done' := HearUnstored(on, done, c);
    states', actions', a := ClaimAndSend(on', done', c.id);
    ExtendsOn(on, done, on', done', states', actions');
    assert Entry(c, TICKET) in Last(states').acks;
  }

  lemma OpenHasLease(s: State, id: DeliveryId)
    requires Inv(s) && Open(s, id)
    ensures !s.rows[id].status.TicketAccepted? && HasLease(s.rows[id])
  {
    assert RowOk(s.rows[id], s.clock);
  }

  /**
    A cycle that goes past its flush can be followed by a resend, with no fault of a later cycle,
    if and only if at that moment a task of an earlier cycle waits for the provider, or comes to
    do so under a claim in force, on a row that is still open.
   */
  lemma ResendExactly(states: seq<Process>, actions: seq<Action>)
    requires Execution(states, actions) && Orderly(states, actions, |actions|) && Passes(Last(states), FlushEnd)
    ensures (exists c :: c in Last(states).tasks && CanResend(Last(states), c))
       <==> exists states', actions', a :: LeadsToResend(states, actions, states', actions', a)
  {
    if c :| c in Last(states).tasks && CanResend(Last(states), c) {
      ExecutionKeepsInv(states, actions, |actions|);
      OpenHasLease(Last(states).ledger, c.id);
      var states', actions', a := TaskResends(states, actions, c);
    } else {
      forall states', actions', a | LeadsToResend(states, actions, states', actions', a) ensures false {
        OrderlyBeyond(states, actions, states', actions');
        ExecutionKeepsSafe(states', actions', |actions'|);
        assert CanHear(Last(states'), a.c);
      }
    }
  }

  /** An acceptance that was heard is neither in the buffer nor stored. */
  ghost predicate Loses(p: Process) {
    exists e :: e in p.acks && !Buffered(p, e) && !Stored(p.ledger, e)
  }

  ghost predicate LeadsToLoss(states: seq<Process>, actions: seq<Action>, states': seq<Process>, actions': seq<Action>)
    requires states != []
  {
    GoesOn(states, actions, states', actions') && Loses(Last(states'))
  }

  const OTHER_TICKET: string := "other"

  lemma SecondTicketReplaces(p: Process, c: Claim, e: Entry)
    requires c in p.tasks && p.tasks[c].Awaiting? && Held(p, c)
    requires e in p.acks && e.claim.id == c.id && e.ticket != OTHER_TICKET
    ensures Loses(Hear(p, c, Answer.Accepted(OTHER_TICKET)))
  {
    var q := Hear(p, c, Answer.Accepted(OTHER_TICKET));
    assert q.known[c.id] == Entry(c, OTHER_TICKET) && q.ledger == p.ledger;
    assert e in q.acks && !Buffered(q, e) && !Stored(q.ledger, e);
  }

  /** The delivery that is sent again is accepted again, and the second ticket takes the place of the first. */
  lemma TaskLoses(states: seq<Process>, actions: seq<Action>, c: Claim)
    returns (states': seq<Process>, actions': seq<Action>)
    requires Execution(states, actions) && Passes(Last(states), FlushEnd) && CanResend(Last(states), c)
    requires var row := Last(states).ledger.rows[c.id]; !row.status.TicketAccepted? && HasLease(row)
    ensures LeadsToLoss(states, actions, states', actions')
  {
    var on, done, a := TaskResends(states, actions, c);
    RenewedOnce(Last(on), a.c, a.reply.now);
    var sent, toSend := Continue(on, done, a);
    assert Last(sent) == Go(Execute(Last(on), Renew(a.c), a.reply.now), a.c, Awaiting);
    SecondTicketReplaces(Last(sent), a.c, Entry(c, TICKET));
    states', actions' := Continue(sent, toSend, Task(a.c, Answered(Answer.Accepted(OTHER_TICKET))));
  }

  /** An acceptance can be lost after a passed flush under exactly the same condition. */
  lemma LossExactly(states: seq<Process>, actions: seq<Action>)
    requires Execution(states, actions) && Orderly(states, actions, |actions|) && Passes(Last(states), FlushEnd)
    ensures (exists c :: c in Last(states).tasks && CanResend(Last(states), c))
       <==> exists states', actions' :: LeadsToLoss(states, actions, states', actions')
  {
    if c :| c in Last(states).tasks && CanResend(Last(states), c) {
      ExecutionKeepsInv(states, actions, |actions|);
      OpenHasLease(Last(states).ledger, c.id);
      var states', actions' := TaskLoses(states, actions, c);
    } else {
      forall states', actions' | LeadsToLoss(states, actions, states', actions') ensures false {
        OrderlyBeyond(states, actions, states', actions');
        ExecutionKeepsSafe(states', actions', |actions'|);
      }
    }
  }

  lemma IdleResends(states: seq<Process>, actions: seq<Action>, c: Claim)
    returns (states': seq<Process>, actions': seq<Action>, e: Entry, a: Action)
    requires Execution(states, actions)
    requires var p := Last(states); p.phase.Idle? && p.known == map[] && !p.conflict && CanResend(p, c)
    requires var row := Last(states).ledger.rows[c.id]; !row.status.TicketAccepted? && HasLease(row)
    ensures Execution(states', actions') && actions + [Start, FlushEnd] <= actions'
    ensures ActionEnabled(Last(states'), a) && Sends(Last(states'), a)
    ensures e in Last(states').acks && e.claim == c && a.c.id == c.id
  {
    var on, done := Continue(states, actions, Start);
    states', actions', a := TaskResends(on, done, c);
    e := Entry(c, TICKET);
    assert actions + [Start] + [FlushEnd] == actions + [Start, FlushEnd];
  }

  /** So a cycle that begins with an empty buffer beside such a task can come to resend its delivery. */
  lemma StartAllowsResend(states: seq<Process>, actions: seq<Action>, c: Claim)
    returns (states': seq<Process>, actions': seq<Action>, e: Entry, a: Action)
    requires Execution(states, actions) && Orderly(states, actions, |actions|)
    requires var p := Last(states); p.phase.Idle? && p.known == map[] && !p.conflict && CanResend(p, c)
    ensures Execution(states', actions') && actions + [Start, FlushEnd] <= actions'
    ensures ActionEnabled(Last(states'), a) && Sends(Last(states'), a)
    ensures e in Last(states').acks && e.claim == c && a.c.id == c.id
  {
    ExecutionKeepsInv(states, actions, |actions|);
    OpenHasLease(Last(states).ledger, c.id);
    states', actions', e, a := IdleResends(states, actions, c);
  }

  // ----- No cycle is at fault unless a task rejects -------------------------------------------------------

  /** Live tasks are those of the cycle that is at work. */
  ghost predicate Tidy(p: Process) {
    forall c | c in p.tasks :: p.phase.Working? && c in p.phase.mine
  }

  lemma ActionKeepsTidy(p: Process, a: Action)
    requires Tidy(p) && ActionEnabled(p, a) && !Rejects(a)
    ensures Tidy(NextProcess(p, a))
  {
  }

  lemma MomentKeepsTidy(states: seq<Process>, actions: seq<Action>, k: nat)
    requires Execution(states, actions) && k < |actions| && Tidy(states[k]) && !Rejects(actions[k])
    ensures Tidy(states[k + 1])
  {
    assert Moved(states, actions, k);
    ActionKeepsTidy(states[k], actions[k]);
  }

  lemma {:induction false} ExecutionKeepsTidy(states: seq<Process>, actions: seq<Action>, n: nat)
    requires Execution(states, actions) && n <= |actions|
    requires forall k | 0 <= k < n :: !Rejects(actions[k])
    ensures Tidy(states[n])
  {
    if n > 0 {
      ExecutionKeepsTidy(states, actions, n - 1);
      MomentKeepsTidy(states, actions, n - 1);
    }
  }

  /** While no task rejects, each cycle goes past its flush when all earlier tasks are over. */
  lemma OrderlyUnlessRejected(states: seq<Process>, actions: seq<Action>, n: nat)
    requires Execution(states, actions) && n <= |actions|
    requires forall k | 0 <= k < n :: !Rejects(actions[k])
    ensures forall k | 0 <= k < n && Passes(states[k], actions[k]) :: states[k].tasks == map[]
    ensures Orderly(states, actions, n)
  {
    forall k | 0 <= k < n && Passes(states[k], actions[k]) ensures states[k].tasks == map[] {
      ExecutionKeepsTidy(states, actions, k);
    }
  }

  // ----- A rejecting task does lead to a resend ---------------------------------------------------------

  const TWO_ROWS: State := State(map[0 := Fresh(0, 0, "a", 0), 1 := Fresh(1, 1, "b", 0)], 0, map[], {0, 1})

  const FIRST: Claim := Claim(0, 0)
  const SIBLING: Claim := Claim(1, 0)

  const CLAIM_BOTH: Event := Event(ClaimSend({0, 1}, 0), 0)

  lemma TwoRowsOk()
    ensures Inv(TWO_ROWS)
  {
  }

  lemma TwoRowsClaimed()
    ensures Enabled(TWO_ROWS, CLAIM_BOTH) && NewClaims(TWO_ROWS.rows, CLAIM_BOTH) == {FIRST, SIBLING}
    ensures InForce(Next(TWO_ROWS, CLAIM_BOTH), FIRST) && HasLease(Next(TWO_ROWS, CLAIM_BOTH).rows[0])
  {
    assert Takes(CLAIM_BOTH, 0, TWO_ROWS.rows[0]) && Takes(CLAIM_BOTH, 1, TWO_ROWS.rows[1]);
  }

  lemma ClaimBoth() returns (states: seq<Process>, actions: seq<Action>)
    ensures Execution(states, actions)
    ensures var p := Last(states);
            && p.phase == Working({FIRST, SIBLING}) && p.known == map[] && !p.conflict
            && OnItsWay(p, FIRST) && SIBLING in p.tasks && p.tasks[SIBLING].Connecting? && HasLease(p.ledger.rows[0])
  {
    TwoRowsOk();
    TwoRowsClaimed();
    states, actions := [Process(TWO_ROWS, map[], false, Idle, map[], {}, {})], [];
    states, actions := Continue(states, actions, Start);
    states, actions := Continue(states, actions, FlushEnd);
    states, actions := Continue(states, actions, ClaimDue({0, 1}, 0, 0));
  }

  /** The first task waits for the provider, its sibling has rejected, and so the cycle is over. */
  lemma SendAndReject() returns (states: seq<Process>, actions: seq<Action>)
    ensures Execution(states, actions)
    ensures var p := Last(states);
            && p.phase.Idle? && p.known == map[] && !p.conflict && CanResend(p, FIRST)
            && !p.ledger.rows[0].status.TicketAccepted? && HasLease(p.ledger.rows[0])
  {
    states, actions := ClaimBoth();
    states, actions := ComeTo(states, actions, FIRST, 0);
    states, actions := Continue(states, actions, Task(SIBLING, Connected(false)));
  }

  /** A rejecting task ends its cycle while a sibling waits for the provider. So a resend does happen in some execution. */
  lemma RejectionAllowsResend() returns (states: seq<Process>, actions: seq<Action>, e: Entry, a: Action)
    ensures Execution(states, actions)
    ensures ActionEnabled(Last(states), a) && Sends(Last(states), a)
    ensures e in Last(states).acks && a.c.id == e.claim.id
  {
    states, actions := SendAndReject();
    states, actions, e, a := IdleResends(states, actions, FIRST);
  }
}
