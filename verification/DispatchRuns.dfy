/**
  Ways for an execution of the dispatcher to go on: how a task whose claim is in force comes to
  hear an acceptance that is then not stored, and how a row that is open is claimed again. None
  of them passes another flush.
 */
module DispatchRuns {
  import opened Basics
  import opened PushLedger
  import opened PushDispatch
  import opened RecoveryBuffer

  /** The second execution goes on from the first without ending another flush. */
  ghost predicate Extends(states: seq<Process>, actions: seq<Action>, states': seq<Process>, actions': seq<Action>) {
    && Execution(states, actions) && Execution(states', actions')
    && states <= states' && actions <= actions'
    && forall k | |actions| <= k < |actions'| :: !actions'[k].FlushEnd?
  }

  lemma ExtendsOn(states: seq<Process>, actions: seq<Action>, states': seq<Process>, actions': seq<Action>,
                  states'': seq<Process>, actions'': seq<Action>)
    requires Extends(states, actions, states', actions') && Extends(states', actions', states'', actions'')
    ensures Extends(states, actions, states'', actions'')
  {
    assert forall k | |actions| <= k < |actions'| :: actions''[k] == actions'[k];
  }

  function Last(states: seq<Process>): Process
    requires states != []
  {
    states[|states| - 1]
  }

  lemma Continue(states: seq<Process>, actions: seq<Action>, a: Action)
    returns (states': seq<Process>, actions': seq<Action>)
    requires Execution(states, actions) && ActionEnabled(Last(states), a)
    ensures Execution(states', actions') && actions' == actions + [a]
    ensures states' == states + [NextProcess(Last(states), a)]
    ensures !a.FlushEnd? ==> Extends(states, actions, states', actions')
  {
    states', actions' := states + [NextProcess(Last(states), a)], actions + [a];
    forall k | 0 <= k < |actions'| ensures Moved(states', actions', k) {
      if k < |actions| {
        assert Moved(states, actions, k);
      }
    }
  }

  // ----- A task comes to send -----------------------------------------------------------------------

  /** Only the lease of the claim's row may differ. */
  ghost predicate LeaseMoved(s: State, t: State, c: Claim) {
    && t.issued == s.issued && t.ever == s.ever && t.clock == s.clock
    && c.id in s.rows && c.id in t.rows
    && t.rows == s.rows[c.id := t.rows[c.id]]
    && (t.rows[c.id] == s.rows[c.id] || t.rows[c.id] == s.rows[c.id].(lockedAt := Some(s.clock)))
  }

  /** The rest of the process is as it was; only the stage of the task and the lease of its row may differ. */
  ghost predicate OnlyStage(p: Process, q: Process, c: Claim, stage: Stage) {
    q == p.(ledger := q.ledger, tasks := p.tasks[c := stage]) && LeaseMoved(p.ledger, q.ledger, c)
  }

  function StepsLeft(stage: Stage): nat {
    match stage
    case Connecting => 6
    case Locking => 5
    case FirstRenew => 4
    case Checking => 3
    case Counting => 2
    case SecondRenew => 1
    case _ => 0
  }

  function StageAt(left: nat): Stage {
    if left == 6 then Connecting else if left == 5 then Locking else if left == 4 then FirstRenew
    else if left == 3 then Checking else if left == 2 then Counting else if left == 1 then SecondRenew else Awaiting
  }

  /** The reply that brings a task nearer to the provider. */
  function Onward(stage: Stage, now: int): Reply {
    match stage
    case Connecting => Connected(true)
    case Locking => Locked(true)
    case FirstRenew => Renewed(now)
    case Checking => Checked(true)
    case Counting => Counted
    case _ => Renewed(now)
  }

  ghost predicate OnItsWay(p: Process, c: Claim) {
    c in p.tasks && Unanswered(p.tasks[c]) && !p.tasks[c].Awaiting? && Held(p, c)
  }

  lemma OneStepOn(p: Process, c: Claim)
    requires OnItsWay(p, c)
    ensures var reply, left := Onward(p.tasks[c], p.ledger.clock), StepsLeft(p.tasks[c]);
            && left > 0 && TaskEnabled(p, c, reply)
            && OnlyStage(p, NextTask(p, c, reply), c, StageAt(left - 1)) && Held(NextTask(p, c, reply), c)
  {
    RenewedOnce(p, c, p.ledger.clock);
  }

  lemma OnlyStageOn(p: Process, q: Process, r: Process, c: Claim, stage: Stage)
    requires c in q.tasks && OnlyStage(p, q, c, q.tasks[c]) && OnlyStage(q, r, c, stage)
    ensures OnlyStage(p, r, c, stage)
  {
    assert q.tasks[c := stage] == p.tasks[c := stage];
  }

  /** A task whose claim is in force can come as near to the provider as one likes, at once. */
  lemma {:induction false} ComeTo(states: seq<Process>, actions: seq<Action>, c: Claim, left: nat)
    returns (states': seq<Process>, actions': seq<Action>)
    requires Execution(states, actions)
    requires OnItsWay(Last(states), c) && left <= StepsLeft(Last(states).tasks[c])
    ensures Extends(states, actions, states', actions')
    ensures OnlyStage(Last(states), Last(states'), c, StageAt(left)) && Held(Last(states'), c)
    decreases StepsLeft(Last(states).tasks[c])
  {
    var p := Last(states);
    if StepsLeft(p.tasks[c]) == left {
      states', actions' := states, actions;
      assert p.tasks == p.tasks[c := StageAt(left)];
    } else {
      OneStepOn(p, c);
      var on, done := Continue(states, actions, Task(c, Onward(p.tasks[c], p.ledger.clock)));
      var q := Last(on);
      if StepsLeft(p.tasks[c]) == 1 {
        states', actions' := on, done;
      } else {
        states', actions' := ComeTo(on, done, c, left);
        ExtendsOn(states, actions, on, done, states', actions');
        OnlyStageOn(p, q, Last(states'), c, StageAt(left));
      }
    }
  }

  // ----- An acceptance is heard and not stored ----------------------------------------------------------

  const TICKET: string := "ticket"

  /** The acceptance is in the buffer, the task is over, and nothing else but a lease has changed. */
  ghost predicate HeardUnstored(p: Process, q: Process, c: Claim) {
    && q == p.(ledger := q.ledger, tasks := p.tasks - {c},
               known := p.known[c.id := Entry(c, TICKET)], acks := p.acks + {Entry(c, TICKET)})
    && (q.ledger == p.ledger || LeaseMoved(p.ledger, q.ledger, c))
  }

  lemma HearNow(states: seq<Process>, actions: seq<Action>, c: Claim)
    returns (states': seq<Process>, actions': seq<Action>)
    requires Execution(states, actions)
    requires c in Last(states).tasks && Last(states).tasks[c].Awaiting? && !Last(states).conflict
    ensures Extends(states, actions, states', actions')
    ensures HeardUnstored(Last(states), Last(states'), c) && Last(states').ledger == Last(states).ledger
  {
    var p, e := Last(states), Entry(c, TICKET);
    var on, done := Continue(states, actions, Task(c, Answered(Answer.Accepted(TICKET))));
    assert Last(on) == Heard(p, e);
    states', actions' := Continue(on, done, Task(c, Throw));
    ExtendsOn(states, actions, on, done, states', actions');
    assert Last(states').tasks == p.tasks - {c};
  }

  /** Every task that can hear an acceptance can hear one that is then not stored: the statement fails. */
  lemma HearUnstored(states: seq<Process>, actions: seq<Action>, c: Claim)
    returns (states': seq<Process>, actions': seq<Action>)
    requires Execution(states, actions) && CanHear(Last(states), c) && !Last(states).conflict
    ensures Extends(states, actions, states', actions')
    ensures HeardUnstored(Last(states), Last(states'), c)
  {
    var p := Last(states);
    if p.tasks[c].Awaiting? {
      states', actions' := HearNow(states, actions, c);
    } else {
      var on, done := ComeTo(states, actions, c, 0);
      states', actions' := HearNow(on, done, c);
      ExtendsOn(states, actions, on, done, states', actions');
      assert Last(on).tasks - {c} == p.tasks - {c};
    }
  }

  // ----- An open row is claimed again --------------------------------------------------------------------

  lemma FreshTokenExists(s: State) returns (token: Token)
    ensures FreshToken(s, token)
  {
    var tokens := set c | c in s.issued :: c.token;
    token := AboveAll(tokens);
    assert forall c | c in s.issued :: c.token in tokens;
  }

  /** From when on an open row can be taken. */
  function DueAt(row: Row): int {
    if row.status.Pending? then row.availableAt else row.lockedAt.GetOr(0) + LEASE_MS + 1
  }

  predicate HasLease(row: Row) {
    row.status.Processing? ==> row.lockedAt.Some?
  }

  lemma OpenIsTaken(s: State, id: DeliveryId, token: Token, now: int)
    requires Open(s, id) && !s.rows[id].status.TicketAccepted? && HasLease(s.rows[id])
    requires FreshToken(s, token) && now >= s.clock && now >= DueAt(s.rows[id])
    ensures var event := Event(ClaimSend({id}, token), now);
            && Enabled(s, event) && NewClaims(s.rows, event) == {Claim(id, token)}
            && InForce(Next(s, event), Claim(id, token)) && Next(s, event).clock == now
  {
    assert Takes(Event(ClaimSend({id}, token), now), id, s.rows[id]);
  }

  lemma ClaimOne(states: seq<Process>, actions: seq<Action>, id: DeliveryId)
    returns (states': seq<Process>, actions': seq<Action>, c: Claim)
    requires Execution(states, actions) && Last(states).phase.Claiming? && Open(Last(states).ledger, id)
    requires var row := Last(states).ledger.rows[id]; !row.status.TicketAccepted? && HasLease(row)
    ensures Extends(states, actions, states', actions') && Last(states').acks == Last(states).acks
    ensures OnItsWay(Last(states'), c) && Last(states').tasks[c].Connecting? && c.id == id
  {
    var p := Last(states);
    var s := p.ledger;
    var due := DueAt(s.rows[id]);
    var now := if due < s.clock then s.clock else due;
    var token := FreshTokenExists(s);
    c := Claim(id, token);
    OpenIsTaken(s, id, token, now);
    states', actions' := Continue(states, actions, ClaimDue({id}, token, now));
    assert Last(states') == Begun(p, Next(s, Event(ClaimSend({id}, token), now)), {c});
  }

  /** In its claiming phase the cycle can take an open row, and the task that it begins can come to its second renewal. */
  lemma ClaimAndSend(states: seq<Process>, actions: seq<Action>, id: DeliveryId)
    returns (states': seq<Process>, actions': seq<Action>, a: Action)
    requires Execution(states, actions) && Last(states).phase.Claiming? && Open(Last(states).ledger, id)
    requires var row := Last(states).ledger.rows[id]; !row.status.TicketAccepted? && HasLease(row)
    ensures Extends(states, actions, states', actions') && Last(states').acks == Last(states).acks
    ensures ActionEnabled(Last(states'), a) && Sends(Last(states'), a) && a.c.id == id
  {
    var on, done, c := ClaimOne(states, actions, id);
    states', actions' := ComeTo(on, done, c, 1);
    ExtendsOn(states, actions, on, done, states', actions');
    a := Task(c, Renewed(Last(states').ledger.clock));
  }

  // ----- The ledger beside an orderly dispatcher ----------------------------------------------------------

  /** The statement that a reply says was carried out. */
  function StatementOf(p: Process, c: Claim, reply: Reply): Option<Event>
    requires TaskEnabled(p, c, reply)
  {
    match p.tasks[c]
    case FirstRenew => if reply.Renewed? then Some(Event(Renew(c), reply.now)) else None
    case SecondRenew => if reply.Renewed? then Some(Event(Renew(c), reply.now)) else None
    case Persisting(entry) => if reply.Recorded? then Some(Event(Accept(entry.claim, entry.ticket), reply.now)) else None
    case Dying(_) => if reply.Written? then Some(Event(Die(c), reply.now)) else None
    case Suppressing => if reply.Written? then Some(Event(Suppress(c), reply.now)) else None
    case Retrying(_) => if reply.Written? then Some(Event(Retry(c, AttemptsOf(p.ledger, c)), reply.now)) else None
    case _ => None
  }

  lemma TaskMovesLedger(p: Process, c: Claim, reply: Reply)
    requires TaskEnabled(p, c, reply) && Known(p.ledger, c) && EntryOk(p, c, p.tasks[c])
    ensures match StatementOf(p, c, reply)
            case None => NextTask(p, c, reply).ledger == p.ledger
            case Some(e) => Enabled(p.ledger, e) && NextTask(p, c, reply).ledger == Next(p.ledger, e)
  {
  }

  lemma TaskKeepsInv(p: Process, c: Claim, reply: Reply)
    requires Safe(p) && Inv(p.ledger) && TaskEnabled(p, c, reply)
    ensures Inv(NextTask(p, c, reply).ledger)
  {
    TaskMovesLedger(p, c, reply);
    match StatementOf(p, c, reply)
    case None =>
    case Some(e) => EventKeepsInv(p.ledger, e);
  }

  lemma ActionKeepsInv(p: Process, a: Action)
    requires Safe(p) && Inv(p.ledger) && ActionEnabled(p, a)
    ensures Inv(NextProcess(p, a).ledger)
  {
    match a
    case Task(c, reply) => TaskKeepsInv(p, c, reply);
    case ClaimDue(ids, token, now) => EventKeepsInv(p.ledger, Event(ClaimSend(ids, token), now));
    case FlushRecorded(now) => EventKeepsInv(p.ledger, Event(Accept(p.phase.entry.claim, p.phase.entry.ticket), now));
    case Outside(event) => EventKeepsInv(p.ledger, event);
    case _ =>
  }

  lemma MomentKeepsInv(states: seq<Process>, actions: seq<Action>, k: nat)
    requires Execution(states, actions) && k < |actions| && Orderly(states, actions, k) && Inv(states[k].ledger)
    ensures Inv(states[k + 1].ledger)
  {
    ExecutionKeepsSafe(states, actions, k);
    assert Moved(states, actions, k);
    ActionKeepsInv(states[k], actions[k]);
  }

  lemma {:induction false} ExecutionKeepsInv(states: seq<Process>, actions: seq<Action>, n: nat)
    requires Execution(states, actions) && n <= |actions| && Orderly(states, actions, n)
    ensures Inv(states[n].ledger)
  {
    if n > 0 {
      ExecutionKeepsInv(states, actions, n - 1);
      MomentKeepsInv(states, actions, n - 1);
    }
  }
}
