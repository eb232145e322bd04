/** When the buffer of accepted tickets is bounded by the claim batch, and exactly when it is not. */
module BufferBound {
  import opened Basics
  import opened PushLedger
  import opened PushDispatch
  import opened RecoveryBuffer
  import opened DispatchRuns

  /** No cycle so far has gone past its flush beside a task that can still hear an acceptance. */
  ghost predicate Quiet(states: seq<Process>, actions: seq<Action>, n: nat)
    requires n <= |actions| < |states|
  {
    forall k, c | 0 <= k < n && Passes(states[k], actions[k]) && c in states[k].tasks :: !CanHear(states[k], c)
  }

  /** What is in the buffer, or may come into it, is of the last claim. */
  ghost predicate Bounded(p: Process) {
    && (forall c | CanHear(p, c) :: c.id in p.batch)
    && (forall id | id in p.known :: id in p.batch)
    && |p.batch| <= SEND_BATCH
    && (p.phase.Claiming? ==> p.known == map[] && forall c | c in p.tasks :: !CanHear(p, c))
  }

  lemma TaskBeginsNone(p: Process, c: Claim, reply: Reply)
    requires TaskEnabled(p, c, reply)
    ensures var q := NextTask(p, c, reply); forall d | d in q.tasks :: d in p.tasks && (d == c || q.tasks[d] == p.tasks[d])
  {
  }

  /** A task comes to wait for the provider only under a claim in force. */
  lemma TaskStages(p: Process, c: Claim, reply: Reply)
    requires TaskEnabled(p, c, reply) && c in NextTask(p, c, reply).tasks && Unanswered(NextTask(p, c, reply).tasks[c])
    ensures Unanswered(p.tasks[c]) && !p.tasks[c].Awaiting?
    ensures NextTask(p, c, reply).tasks[c].Awaiting? ==> Held(p, c)
  {
  }

  lemma TaskBuffers(p: Process, c: Claim, reply: Reply)
    requires TaskEnabled(p, c, reply)
    ensures var q := NextTask(p, c, reply);
            && q.batch == p.batch && (q.phase == p.phase || q.phase.Idle?)
            && (forall id | id in q.known :: id in p.known || (id == c.id && p.tasks[c].Awaiting?))
  {
  }

  lemma TaskCarries(p: Process, c: Claim, reply: Reply)
    requires Safe(p) && RowsKnown(p.ledger) && TaskEnabled(p, c, reply)
    ensures Carries(p.ledger, NextTask(p, c, reply).ledger)
  {
    assert Known(p.ledger, c) && EntryOk(p, c, p.tasks[c]);
    TaskMovesLedger(p, c, reply);
    match StatementOf(p, c, reply)
    case Some(e) => LedgerMove(p.ledger, e);
    case None =>
  }

  /** No task can hear that could not before, if only `c` has gone on, and to the provider only under a claim in force. */
  lemma HearersAfter(p: Process, q: Process, c: Claim)
    requires Carries(p.ledger, q.ledger) && forall d | d in p.tasks :: Known(p.ledger, d)
    requires forall d | d in q.tasks :: d in p.tasks && (d == c || q.tasks[d] == p.tasks[d])
    requires c in q.tasks && Unanswered(q.tasks[c]) ==> Unanswered(p.tasks[c]) && (q.tasks[c].Awaiting? ==> Held(p, c))
    ensures forall d | CanHear(q, d) :: CanHear(p, d)
  {
  }

  lemma TaskHearers(p: Process, q: Process, c: Claim, reply: Reply)
    requires Safe(p) && RowsKnown(p.ledger) && TaskEnabled(p, c, reply) && q == NextTask(p, c, reply)
    ensures forall d | CanHear(q, d) :: CanHear(p, d)
  {
    TaskBeginsNone(p, c, reply);
    if c in q.tasks && Unanswered(q.tasks[c]) {
      TaskStages(p, c, reply);
    }
    TaskCarries(p, c, reply);
    HearersAfter(p, q, c);
  }

  lemma TaskKeepsBounded(p: Process, q: Process, c: Claim, reply: Reply)
    requires Safe(p) && RowsKnown(p.ledger) && TaskEnabled(p, c, reply) && Bounded(p) && q == NextTask(p, c, reply)
    ensures Bounded(q)
  {
    TaskHearers(p, q, c, reply);
    TaskBuffers(p, c, reply);
    assert p.tasks[c].Awaiting? ==> CanHear(p, c);
  }

  lemma ClaimKeepsBounded(p: Process, ids: set<DeliveryId>, token: Token, now: int)
    requires Safe(p) && RowsKnown(p.ledger) && ActionEnabled(p, ClaimDue(ids, token, now)) && Bounded(p)
    ensures Bounded(NextProcess(p, ClaimDue(ids, token, now)))
  {
    var event := Event(ClaimSend(ids, token), now);
    var claims := NewClaims(p.ledger.rows, event);
    LedgerMove(p.ledger, event);
    forall c | c in claims ensures c.id in ids && c !in p.tasks {
      ClaimedAreIssued(p.ledger, event, c);
      ClaimedAreUnheard(p, event, c);
    }
    BegunHearers(p, Next(p.ledger, event), claims);
    SubsetSize(set c | c in claims :: c.id, ids);
  }

  lemma MoveKeepsBounded(p: Process, a: Action)
    requires Safe(p) && RowsKnown(p.ledger) && ActionEnabled(p, a) && Bounded(p) && (a.FlushRecorded? || a.Outside?)
    ensures Bounded(NextProcess(p, a))
  {
    var q := NextProcess(p, a);
    var event := if a.Outside? then a.event else Event(Accept(p.phase.entry.claim, p.phase.entry.ticket), a.now);
    assert a.FlushRecorded? ==> p.phase.entry in p.acks && Known(p.ledger, p.phase.entry.claim);
    LedgerMove(p.ledger, event);
    assert q.ledger == Next(p.ledger, event);
    forall d | CanHear(q, d) ensures CanHear(p, d) {
      assert Known(p.ledger, d);
    }
  }

  /** The other actions of a cycle leave tasks, ledger and batch alone. */
  lemma OnwardFrame(p: Process, a: Action)
    requires ActionEnabled(p, a) && !a.Task? && !a.ClaimDue? && !a.Outside? && !a.FlushRecorded?
    ensures var q := NextProcess(p, a);
            && q.tasks == p.tasks && q.ledger == p.ledger && q.batch == p.batch
            && (forall id | id in q.known :: id in p.known) && (q.phase.Claiming? ==> Passes(p, a))
  {
  }

  lemma OnwardKeepsBounded(p: Process, a: Action)
    requires ActionEnabled(p, a) && !a.Task? && !a.ClaimDue? && !a.Outside? && !a.FlushRecorded? && Bounded(p)
    requires Passes(p, a) ==> forall c | c in p.tasks :: !CanHear(p, c)
    ensures Bounded(NextProcess(p, a))
  {
    var q := NextProcess(p, a);
    OnwardFrame(p, a);
    assert forall d | CanHear(q, d) :: CanHear(p, d);
    if q.phase.Claiming? {
      assert q.known == map[];
    }
  }

  lemma ActionKeepsBounded(p: Process, a: Action)
    requires Safe(p) && RowsKnown(p.ledger) && ActionEnabled(p, a) && Bounded(p)
    requires Passes(p, a) ==> forall c | c in p.tasks :: !CanHear(p, c)
    ensures Bounded(NextProcess(p, a))
  {
    match a
    case Task(c, reply) => TaskKeepsBounded(p, NextTask(p, c, reply), c, reply);
    case ClaimDue(ids, token, now) => ClaimKeepsBounded(p, ids, token, now);
    case Outside(_) => MoveKeepsBounded(p, a);
    case FlushRecorded(_) => MoveKeepsBounded(p, a);
    case _ => OnwardKeepsBounded(p, a);
  }

  lemma QuietIsOrderly(states: seq<Process>, actions: seq<Action>, n: nat)
    requires n <= |actions| < |states| && Quiet(states, actions, n)
    ensures Orderly(states, actions, n)
  {
  }

  lemma MomentKeepsBounded(states: seq<Process>, actions: seq<Action>, k: nat)
    requires Execution(states, actions) && k < |actions| && Quiet(states, actions, k + 1) && Bounded(states[k])
    ensures Bounded(states[k + 1])
  {
    QuietIsOrderly(states, actions, k);
    ExecutionKeepsSafe(states, actions, k);
    assert Moved(states, actions, k);
    ActionKeepsBounded(states[k], actions[k]);
  }

  lemma {:induction false} ExecutionKeepsBounded(states: seq<Process>, actions: seq<Action>, n: nat)
    requires Execution(states, actions) && n <= |actions| && Quiet(states, actions, n)
    ensures Bounded(states[n])
  {
    if n > 0 {
      ExecutionKeepsBounded(states, actions, n - 1);
      MomentKeepsBounded(states, actions, n - 1);
    }
  }

  /** As long as every cycle goes past its flush when no earlier task can hear an acceptance, the buffer has at most five. */
  lemma AtMostFiveBuffered(states: seq<Process>, actions: seq<Action>, n: nat)
    requires Execution(states, actions) && n <= |actions| && Quiet(states, actions, n)
    ensures |states[n].known| <= SEND_BATCH
  {
    ExecutionKeepsBounded(states, actions, n);
    SubsetSize(states[n].known.Keys, states[n].batch);
  }

  // ----- Otherwise six can be buffered ------------------------------------------------------------------

  /** New rows, due at once. */
  ghost predicate Inserted(p: Process, q: Process, ids: set<DeliveryId>) {
    && q == p.(ledger := q.ledger)
    && q.ledger.clock == p.ledger.clock && q.ledger.ever == p.ledger.ever + ids && RowsKnown(q.ledger)
    && (forall id | id in ids :: id !in p.ledger.ever && id in q.ledger.rows && Sendable(q.ledger.rows[id], q.ledger.clock))
  }

  lemma NewRow(s: State) returns (event: Event)
    requires RowsKnown(s)
    ensures event.op.Insert? && event.now == s.clock && Enabled(s, event)
    ensures RowsAfter(s.rows, event) == s.rows[event.op.id := Fresh(event.op.message, event.op.device, event.op.fingerprint, s.clock)]
  {
    var id := AboveAll(s.ever);
    var messages := set i | i in s.rows :: s.rows[i].message;
    var message := AboveAll(messages);
    event := Event(Insert(id, message, 0, ""), s.clock);
    assert forall i | i in s.rows :: s.rows[i].message in messages;
  }

  lemma RowInserted(p: Process, event: Event)
    requires RowsKnown(p.ledger) && event.op.Insert? && event.now == p.ledger.clock && Enabled(p.ledger, event)
    requires RowsAfter(p.ledger.rows, event)
          == p.ledger.rows[event.op.id := Fresh(event.op.message, event.op.device, event.op.fingerprint, p.ledger.clock)]
    ensures Inserted(p, NextProcess(p, Outside(event)), {event.op.id})
    ensures NextProcess(p, Outside(event)).ledger.rows == RowsAfter(p.ledger.rows, event)
  {
  }

  lemma InsertOne(states: seq<Process>, actions: seq<Action>)
    returns (states': seq<Process>, actions': seq<Action>, id: DeliveryId)
    requires Execution(states, actions) && RowsKnown(Last(states).ledger)
    ensures Extends(states, actions, states', actions') && Inserted(Last(states), Last(states'), {id})
    ensures forall i | i in Last(states).ledger.rows :: i in Last(states').ledger.rows && Last(states').ledger.rows[i] == Last(states).ledger.rows[i]
  {
    var event := NewRow(Last(states).ledger);
    id := event.op.id;
    states', actions' := Continue(states, actions, Outside(event));
    RowInserted(Last(states), event);
  }

  lemma InsertedOn(p: Process, q: Process, r: Process, rest: set<DeliveryId>, id: DeliveryId)
    requires Inserted(p, q, rest) && Inserted(q, r, {id})
    requires forall i | i in q.ledger.rows :: i in r.ledger.rows && r.ledger.rows[i] == q.ledger.rows[i]
    ensures Inserted(p, r, rest + {id}) && |rest + {id}| == |rest| + 1
  {
    assert id !in rest;
    assert p.ledger.ever + rest + {id} == p.ledger.ever + (rest + {id});
  }

  lemma {:induction false} InsertRows(states: seq<Process>, actions: seq<Action>, n: nat)
    returns (states': seq<Process>, actions': seq<Action>, ids: set<DeliveryId>)
    requires Execution(states, actions) && RowsKnown(Last(states).ledger)
    ensures Extends(states, actions, states', actions') && Inserted(Last(states), Last(states'), ids) && |ids| == n
  {
    if n == 0 {
      states', actions', ids := states, actions, {};
    } else {
      var on, done, rest := InsertRows(states, actions, n - 1);
      var id;
      states', actions', id := InsertOne(on, done);
      ExtendsOn(states, actions, on, done, states', actions');
      InsertedOn(Last(states), Last(on), Last(states'), rest, id);
      ids := rest + {id};
    }
  }

  lemma {:induction false} SameSize(ids: set<DeliveryId>, claims: set<Claim>, token: Token)
    requires forall c | c in claims :: c.token == token && c.id in ids
    requires forall id | id in ids :: Claim(id, token) in claims
    ensures |claims| == |ids|
  {
    if ids == {} {
      assert claims == {};
    } else {
      var id :| id in ids;
      SameSize(ids - {id}, claims - {Claim(id, token)}, token);
    }
  }

  lemma TakesAll(s: State, ids: set<DeliveryId>, token: Token)
    requires |ids| <= SEND_BATCH && FreshToken(s, token)
    requires forall id | id in ids :: id in s.rows && Sendable(s.rows[id], s.clock)
    ensures var event, claims := Event(ClaimSend(ids, token), s.clock), set id | id in ids :: Claim(id, token);
            && Enabled(s, event) && NewClaims(s.rows, event) == claims
            && (forall c | c in claims :: InForce(Next(s, event), c)) && |claims| == |ids|
  {
    var event, claims := Event(ClaimSend(ids, token), s.clock), set id | id in ids :: Claim(id, token);
    assert forall id | id in ids :: Takes(event, id, s.rows[id]);
    SameSize(ids, claims, token);
  }

  /** Tasks that can hear, each for a delivery of its own that is not buffered yet. */
  ghost predicate AllHear(p: Process, claims: set<Claim>) {
    && !p.conflict
    && (forall c | c in claims :: CanHear(p, c) && c.id !in p.known)
    && (forall c, d | c in claims && d in claims && c.id == d.id :: c == d)
  }

  lemma StillHears(p: Process, q: Process, c: Claim, d: Claim)
    requires CanHear(p, d) && d.id != c.id && HeardUnstored(p, q, c)
    ensures CanHear(q, d)
  {
    assert q.tasks[d] == p.tasks[d];
  }

  lemma OthersStillHear(p: Process, q: Process, c: Claim, claims: set<Claim>)
    requires AllHear(p, claims) && c in claims && HeardUnstored(p, q, c)
    ensures AllHear(q, claims - {c}) && |q.known| == |p.known| + 1
  {
    assert q.known.Keys == p.known.Keys + {c.id};
    forall d | d in claims - {c} ensures CanHear(q, d) && d.id !in q.known {
      StillHears(p, q, c, d);
    }
  }

  lemma {:induction false} HearAll(states: seq<Process>, actions: seq<Action>, claims: set<Claim>)
    returns (states': seq<Process>, actions': seq<Action>)
    requires Execution(states, actions) && AllHear(Last(states), claims)
    ensures Extends(states, actions, states', actions') && |Last(states').known| == |Last(states).known| + |claims|
    decreases claims
  {
    if claims == {} {
      states', actions' := states, actions;
    } else {
      var c :| c in claims;
      var on, done := HearUnstored(states, actions, c);
      OthersStillHear(Last(states), Last(on), c, claims);
      states', actions' := HearAll(on, done, claims - {c});
      ExtendsOn(states, actions, on, done, states', actions');
    }
  }

  lemma ClaimedHear(p: Process, ids: set<DeliveryId>, token: Token)
    requires |ids| <= SEND_BATCH && FreshToken(p.ledger, token) && !p.conflict
    requires forall id | id in ids :: id !in p.known && id in p.ledger.rows && Sendable(p.ledger.rows[id], p.ledger.clock)
    ensures var event, claims := Event(ClaimSend(ids, token), p.ledger.clock), set id | id in ids :: Claim(id, token);
            && Enabled(p.ledger, event) && NewClaims(p.ledger.rows, event) == claims && |claims| == |ids|
            && AllHear(Begun(p, Next(p.ledger, event), claims), claims)
  {
    TakesAll(p.ledger, ids, token);
    var claims := set id | id in ids :: Claim(id, token);
    var q := Begun(p, Next(p.ledger, Event(ClaimSend(ids, token), p.ledger.clock)), claims);
    assert forall c | c in claims :: q.tasks[c] == Connecting && InForce(q.ledger, c);
  }

  lemma ClaimInserted(states: seq<Process>, actions: seq<Action>, ids: set<DeliveryId>)
    returns (states': seq<Process>, actions': seq<Action>, claims: set<Claim>)
    requires Execution(states, actions) && Last(states).phase.Claiming? && !Last(states).conflict && |ids| <= SEND_BATCH
    requires var p := Last(states);
             forall id | id in ids :: id !in p.known && id in p.ledger.rows && Sendable(p.ledger.rows[id], p.ledger.clock)
    ensures Extends(states, actions, states', actions')
    ensures AllHear(Last(states'), claims) && |claims| == |ids| && Last(states').known == Last(states).known
  {
    var p := Last(states);
    var token := FreshTokenExists(p.ledger);
    ClaimedHear(p, ids, token);
    claims := set id | id in ids :: Claim(id, token);
    states', actions' := Continue(states, actions, ClaimDue(ids, token, p.ledger.clock));
  }

  lemma ClaimFive(states: seq<Process>, actions: seq<Action>)
    returns (states': seq<Process>, actions': seq<Action>, claims: set<Claim>)
    requires Execution(states, actions) && RowsKnown(Last(states).ledger)
    requires Last(states).phase.Claiming? && !Last(states).conflict
    requires forall id | id in Last(states).known :: id in Last(states).ledger.ever
    ensures Extends(states, actions, states', actions')
    ensures AllHear(Last(states'), claims) && |claims| == SEND_BATCH && Last(states').known == Last(states).known
  {
    var on, done, ids := InsertRows(states, actions, SEND_BATCH);
    states', actions', claims := ClaimInserted(on, done, ids);
    ExtendsOn(states, actions, on, done, states', actions');
  }

  /** From a passed flush on, with no task that can hear at any later one, more than five are buffered. */
  ghost predicate LeadsToOverflow(states: seq<Process>, actions: seq<Action>, states': seq<Process>, actions': seq<Action>)
    requires states != []
  {
    && Execution(states', actions')
    && states <= states' && actions + [FlushEnd] <= actions'
    && (forall k, c | |actions| < k < |actions'| && Passes(states'[k], actions'[k]) && c in states'[k].tasks ::
          !CanHear(states'[k], c))
    && |Last(states').known| > SEND_BATCH
  }

  lemma TaskOverflows(states: seq<Process>, actions: seq<Action>, c: Claim)
    returns (states': seq<Process>, actions': seq<Action>)
    requires Execution(states, actions) && Passes(Last(states), FlushEnd) && CanHear(Last(states), c)
    requires RowsKnown(Last(states).ledger) && c.id in Last(states).ledger.ever
    ensures LeadsToOverflow(states, actions, states', actions')
  {
    var on, done := Continue(states, actions, FlushEnd);
    var heard, toHear := HearUnstored(on, done, c);
    assert Last(heard).known.Keys == {c.id};
    var five, toFive, claims := ClaimFive(heard, toHear);
    states', actions' := HearAll(five, toFive, claims);
    ExtendsOn(on, done, heard, toHear, five, toFive);
    ExtendsOn(on, done, five, toFive, states', actions');
  }

  lemma QuietBeyond(states: seq<Process>, actions: seq<Action>, states': seq<Process>, actions': seq<Action>)
    requires Execution(states, actions) && Quiet(states, actions, |actions|)
    requires LeadsToOverflow(states, actions, states', actions')
    requires forall c | c in Last(states).tasks :: !CanHear(Last(states), c)
    ensures Quiet(states', actions', |actions'|)
  {
    forall k, c | 0 <= k < |actions'| && Passes(states'[k], actions'[k]) && c in states'[k].tasks
      ensures !CanHear(states'[k], c)
    {
      if k < |actions| {
        assert states'[k] == states[k] && actions'[k] == (actions + [FlushEnd])[k];
      } else if k == |actions| {
        assert states'[k] == Last(states);
      }
    }
  }

  /** The buffer can come to hold more than five after a passed flush if and only if a task of an earlier cycle could still hear an acceptance. */
  lemma OverflowExactly(states: seq<Process>, actions: seq<Action>)
    requires Execution(states, actions) && Quiet(states, actions, |actions|) && Passes(Last(states), FlushEnd)
    ensures (exists c :: c in Last(states).tasks && CanHear(Last(states), c))
       <==> exists states', actions' :: LeadsToOverflow(states, actions, states', actions')
  {
    if c :| c in Last(states).tasks && CanHear(Last(states), c) {
      QuietIsOrderly(states, actions, |actions|);
      ExecutionKeepsSafe(states, actions, |actions|);
      assert Known(Last(states).ledger, c);
      var states', actions' := TaskOverflows(states, actions, c);
    } else {
      forall states', actions' | LeadsToOverflow(states, actions, states', actions') ensures false {
        QuietBeyond(states, actions, states', actions');
        AtMostFiveBuffered(states', actions', |actions'|);
      }
    }
  }
}
