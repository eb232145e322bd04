/** What holds over whole executions of registrations, logouts and dispatchers. */
module BindingSafety {
  import opened Basics
  import opened DeviceBinding
  import opened BindingLocks
  import opened LockInvariants

  // ----- Whole executions --------------------------------------------------------------------

  ghost predicate Initial(s: State) {
    Sound(s.rows) && s.txns == map[] && s.sending == map[]
  }

  ghost predicate Moved(states: seq<State>, actions: seq<Action>, k: nat)
    requires k < |actions| && |states| == |actions| + 1
  {
    Enabled(states[k], actions[k]) && states[k + 1] == Next(states[k], actions[k])
  }

  /** `states[k]` is the state before action `k`. */
  ghost predicate Execution(states: seq<State>, actions: seq<Action>) {
    && |states| == |actions| + 1
    && Initial(states[0])
    && forall k | 0 <= k < |actions| :: Moved(states, actions, k)
  }

  lemma {:induction false} ExecutionKeepsInv(states: seq<State>, actions: seq<Action>, k: nat)
    requires Execution(states, actions) && k < |states|
    ensures Inv(states[k])
  {
    if k > 0 {
      ExecutionKeepsInv(states, actions, k - 1);
      assert Moved(states, actions, k - 1);
      ActionKeepsInv(states[k - 1], actions[k - 1]);
    } else {
      forall key ensures !HeldByDispatcher(states[0], key) {
      }
    }
  }

  ghost function Extended(steps: seq<Step>, s: State, a: Action): seq<Step>
    requires Enabled(s, a)
  {
    steps + if Effect(s, a).Some? then [Effect(s, a).value] else []
  }

  /** The table steps of the first `k` actions, in the order in which they took effect. */
  ghost function StepsOf(states: seq<State>, actions: seq<Action>, k: nat): seq<Step>
    requires Execution(states, actions) && k <= |actions|
  {
    if k == 0 then []
    else
      assert Moved(states, actions, k - 1);
      Extended(StepsOf(states, actions, k - 1), states[k - 1], actions[k - 1])
  }

  lemma {:induction false} AfterPrefix(rows: Rows, steps: seq<Step>, more: seq<Step>, n: nat)
    requires n <= |steps|
    ensures After(rows, steps + more, n) == After(rows, steps, n)
  {
    if n > 0 {
      AfterPrefix(rows, steps, more, n - 1);
      assert (steps + more)[n - 1] == steps[n - 1];
    }
  }

  lemma AfterOneMore(rows: Rows, steps: seq<Step>, step: Step)
    ensures After(rows, steps + [step], |steps| + 1) == Apply(After(rows, steps, |steps|), step)
  {
    AfterPrefix(rows, steps, [step], |steps|);
    assert (steps + [step])[|steps|] == step;
  }

  lemma OneMoreAction(rows: Rows, steps: seq<Step>, s: State, a: Action)
    requires Inv(s) && Enabled(s, a) && s.rows == After(rows, steps, |steps|)
    ensures var more := Extended(steps, s, a); Next(s, a).rows == After(rows, more, |more|)
  {
    ActionIsAStep(s, a);
    match Effect(s, a)
    case Some(step) => AfterOneMore(rows, steps, step);
    case None => assert Extended(steps, s, a) == steps;
  }

  lemma MomentIsSerial(states: seq<State>, actions: seq<Action>, k: nat, steps: seq<Step>)
    requires Execution(states, actions) && k < |actions| && states[k].rows == After(states[0].rows, steps, |steps|)
    ensures Moved(states, actions, k)
    ensures var more := Extended(steps, states[k], actions[k]); states[k + 1].rows == After(states[0].rows, more, |more|)
  {
    ExecutionKeepsInv(states, actions, k);
    assert Moved(states, actions, k);
    OneMoreAction(states[0].rows, steps, states[k], actions[k]);
  }

  /** However the transactions interleave, the table is as if they had run one after the other. */
  lemma {:induction false} ExecutionIsSerial(states: seq<State>, actions: seq<Action>, k: nat)
    requires Execution(states, actions) && k <= |actions|
    ensures var steps := StepsOf(states, actions, k); states[k].rows == After(states[0].rows, steps, |steps|)
  {
    if k > 0 {
      ExecutionIsSerial(states, actions, k - 1);
      MomentIsSerial(states, actions, k - 1, StepsOf(states, actions, k - 1));
    }
  }

  // ----- A token's binding while a dispatcher holds its lock ----------------------------------

  ghost predicate Sending(s: State, f: Fingerprint) {
    exists d :: d in s.sending && s.sending[d] == f
  }

  /** A transaction that has read the row of a fingerprint, and may commit, holds its key. */
  lemma ReaderHoldsKey(s: State, t: TxnId, id: RowId, f: Fingerprint)
    requires Inv(s) && t in s.txns && s.txns[t].read.Some? && Checked(s.txns[t])
    requires id in s.txns[t].read.value && s.rows[id].fingerprint == Some(f)
    ensures Holds(s, t, PushKey(f))
  {
    var x := s.txns[t];
    assert x.read.value[id] == s.rows[id];
    assert PushKey(f) in x.keys;
    HoldsAll(s, t, PushKey(f));
  }

  /** No registration or logout changes the row with the fingerprint, or puts the fingerprint on a row. */
  lemma CommitLeavesSendingAlone(s: State, t: TxnId, now: int, f: Fingerprint, id: RowId)
    requires Inv(s) && Enabled(s, Commit(t, now)) && Sending(s, f)
    requires id in Next(s, Commit(t, now)).rows
    ensures id in s.rows && s.rows[id].fingerprint == Some(f) ==> Next(s, Commit(t, now)).rows[id] == s.rows[id]
    ensures Next(s, Commit(t, now)).rows[id].fingerprint == Some(f) ==> id in s.rows && s.rows[id].fingerprint == Some(f)
  {
    CommitIsAtomic(s, t, now);
    var x := s.txns[t];
    assert HeldByDispatcher(s, PushKey(f));
    if id in x.read.value && s.rows[id].fingerprint == Some(f) {
      ReaderHoldsKey(s, t, id, f);
    } else if x.job.Registering? {
      var r := x.job.registration;
      RowFate(s.rows, r, x.job.newId, now, id);
      HoldsAll(s, t, PushKey(Sha256(r.token)));
    }
  }

  /** The fingerprint of the binding is on no row, or on the one row that bears the binding. */
  ghost predicate SoleBearer(rows: Rows, b: Binding) {
    forall id | id in rows && rows[id].fingerprint == Some(b.fingerprint) :: id == b.id && Bears(rows[id], b)
  }

  lemma SendingCommit(s: State, t: TxnId, now: int, b: Binding)
    requires Inv(s) && Enabled(s, Commit(t, now)) && Sending(s, b.fingerprint) && SoleBearer(s.rows, b)
    ensures SoleBearer(Next(s, Commit(t, now)).rows, b)
    ensures Borne(s.rows, b) ==> Borne(Next(s, Commit(t, now)).rows, b)
  {
    var rows := Next(s, Commit(t, now)).rows;
    forall id | id in rows && rows[id].fingerprint == Some(b.fingerprint) ensures id == b.id && Bears(rows[id], b) {
      CommitLeavesSendingAlone(s, t, now, b.fingerprint, id);
    }
    if Borne(s.rows, b) {
      CommitIsAtomic(s, t, now);
      StepSucceeds(s.rows, StepOf(s.txns[t].job, now), b.id);
      CommitLeavesSendingAlone(s, t, now, b.fingerprint, b.id);
    }
  }

  /** A verdict or a deletion puts no fingerprint on a row, and only a verdict on the binding takes it off. */
  lemma SendingOutsider(s: State, a: Action, b: Binding)
    requires Enabled(s, a) && (a.Judge? || a.Remove?) && SoleBearer(s.rows, b)
    ensures SoleBearer(Next(s, a).rows, b)
    ensures Borne(s.rows, b) && !(a.Judge? && a.binding == b) ==> Borne(Next(s, a).rows, b)
  {
  }

  /** One action while the token's lock is held: only a verdict can take the fingerprint off its row. */
  lemma SendingStep(s: State, a: Action, b: Binding)
    requires Inv(s) && Enabled(s, a) && Sending(s, b.fingerprint) && SoleBearer(s.rows, b)
    ensures SoleBearer(Next(s, a).rows, b)
    ensures Borne(s.rows, b) && !(a.Judge? && a.binding == b) ==> Borne(Next(s, a).rows, b)
  {
    if a.Commit? {
      SendingCommit(s, a.t, a.now, b);
    } else if a.Judge? || a.Remove? {
      SendingOutsider(s, a, b);
    } else {
      ActionIsAStep(s, a);
    }
  }

  lemma SendingMove(states: seq<State>, actions: seq<Action>, k: nat, b: Binding)
    requires Execution(states, actions) && k < |actions|
    requires Sending(states[k], b.fingerprint) && SoleBearer(states[k].rows, b)
    ensures SoleBearer(states[k + 1].rows, b)
    ensures Borne(states[k].rows, b) && !(actions[k].Judge? && actions[k].binding == b) ==> Borne(states[k + 1].rows, b)
  {
    ExecutionKeepsInv(states, actions, k);
    assert Moved(states, actions, k);
    SendingStep(states[k], actions[k], b);
  }

  /** From the moment at which the row bears the binding, as long as the lock is held, no other row gets the fingerprint. */
  lemma {:induction false} NoOtherBearerWhileSending(states: seq<State>, actions: seq<Action>, i: nat, j: nat, b: Binding)
    requires Execution(states, actions) && i <= j <= |actions|
    requires Borne(states[i].rows, b)
    requires forall k | i <= k <= j :: Sending(states[k], b.fingerprint)
    ensures SoleBearer(states[j].rows, b)
  {
    if i == j {
      ExecutionKeepsInv(states, actions, i);
    } else {
      NoOtherBearerWhileSending(states, actions, i, j - 1, b);
      SendingMove(states, actions, j - 1, b);
    }
  }

  /** And the row bears the binding until a verdict on it: no registration or logout can take it away. */
  lemma {:induction false} BindingHeldWhileSending(states: seq<State>, actions: seq<Action>, i: nat, j: nat, b: Binding)
    requires Execution(states, actions) && i <= j <= |actions|
    requires Borne(states[i].rows, b)
    requires forall k | i <= k <= j :: Sending(states[k], b.fingerprint)
    requires forall k | i <= k < j :: actions[k].Judge? ==> actions[k].binding != b
    ensures Borne(states[j].rows, b)
  {
    if i < j {
      BindingHeldWhileSending(states, actions, i, j - 1, b);
      NoOtherBearerWhileSending(states, actions, i, j - 1, b);
      SendingMove(states, actions, j - 1, b);
    }
  }

  // ----- Which transactions shut each other out ---------------------------------------------------

  /** The fingerprints whose locks a registration takes. */
  ghost function TokensOf(rows: Rows, r: Registration): set<Fingerprint> {
    {Sha256(r.token)} + set id | id in Candidates(rows, r) && rows[id].fingerprint.Some? :: rows[id].fingerprint.value
  }

  lemma RegisterKey(rows: Rows, r: Registration, key: Key)
    ensures key in RegisterKeys(rows, r) <==> key == DeviceKey(r.device) || exists f :: f in TokensOf(rows, r) && key == PushKey(f)
  {
    if key in RegisterKeys(rows, r) && key != DeviceKey(r.device) && key != PushKey(Sha256(r.token)) {
      var id :| id in Candidates(rows, r) && rows[id].fingerprint.Some? && PushKey(rows[id].fingerprint.value) == key;
      assert rows[id].fingerprint.value in TokensOf(rows, r);
    }
  }

  /** Registrations, whatever rows each of them saw, shut each other out exactly when they have a device or a fingerprint in common. */
  lemma RegistrationsMeet(rows: Rows, r: Registration, rows': Rows, r': Registration)
    ensures (exists key :: key in RegisterKeys(rows, r) && key in RegisterKeys(rows', r'))
       <==> r.device == r'.device || exists f :: f in TokensOf(rows, r) && f in TokensOf(rows', r')
  {
    if key :| key in RegisterKeys(rows, r) && key in RegisterKeys(rows', r') {
      RegisterKey(rows, r, key);
      RegisterKey(rows', r', key);
      forall f, g ensures DeviceKey(r.device) != PushKey(g) && DeviceKey(r'.device) != PushKey(f) && (PushKey(f) == PushKey(g) <==> f == g) {
        KeysApart(r.device, r'.device, g, f);
        KeysApart(r'.device, r.device, f, g);
      }
      KeysApart(r.device, r'.device, Sha256(r.token), Sha256(r.token));
    }
    if r.device == r'.device {
      assert DeviceKey(r.device) in RegisterKeys(rows, r) && DeviceKey(r.device) in RegisterKeys(rows', r');
    }
    if f :| f in TokensOf(rows, r) && f in TokensOf(rows', r') {
      RegisterKey(rows, r, PushKey(f));
      RegisterKey(rows', r', PushKey(f));
    }
  }

  /** A dispatcher and a registration shut each other out exactly when the registration takes the fingerprint's lock. */
  lemma DispatcherMeets(rows: Rows, r: Registration, f: Fingerprint)
    ensures PushKey(f) in RegisterKeys(rows, r) <==> f in TokensOf(rows, r)
  {
    RegisterKey(rows, r, PushKey(f));
    forall g ensures DeviceKey(r.device) != PushKey(f) && (PushKey(f) == PushKey(g) <==> f == g) {
      KeysApart(r.device, r.device, f, g);
    }
  }

  // ----- Waits never form a cycle -------------------------------------------------------------

  /** The key that a transaction is about to lock. */
  function Wanted(x: Txn): Key
    requires x.held < |x.keys|
  {
    x.keys[x.held]
  }

  /** `t` waits for a key that `u` holds. */
  ghost predicate WaitsFor(s: State, t: TxnId, u: TxnId) {
    t in s.txns && s.txns[t].held < |s.txns[t].keys| && Holds(s, u, Wanted(s.txns[t]))
  }

  ghost predicate WaitChain(s: State, chain: seq<TxnId>) {
    forall k | 0 <= k < |chain| - 1 :: WaitsFor(s, chain[k], chain[k + 1])
  }

  lemma WantedGrows(s: State, t: TxnId, u: TxnId)
    requires Inv(s) && WaitsFor(s, t, u) && s.txns[u].held < |s.txns[u].keys|
    ensures Less(Wanted(s.txns[t]), Wanted(s.txns[u]))
  {
  }

  /** Along a chain of waits the wanted keys go up. */
  lemma {:induction false} WantedGrowsAlong(s: State, chain: seq<TxnId>)
    requires Inv(s) && |chain| >= 2 && WaitChain(s, chain)
    requires chain[|chain| - 1] in s.txns && s.txns[chain[|chain| - 1]].held < |s.txns[chain[|chain| - 1]].keys|
    ensures WaitsFor(s, chain[0], chain[1])
    ensures Less(Wanted(s.txns[chain[0]]), Wanted(s.txns[chain[|chain| - 1]]))
  {
    var n := |chain| - 1;
    assert WaitsFor(s, chain[n - 1], chain[n]);
    WantedGrows(s, chain[n - 1], chain[n]);
    if n > 1 {
      WantedGrowsAlong(s, chain[..n]);
      LessIsTransitive(Wanted(s.txns[chain[0]]), Wanted(s.txns[chain[n - 1]]), Wanted(s.txns[chain[n]]));
    }
  }

  /** In no reachable state does a chain of lock waits come back to where it began. */
  lemma WaitsHaveNoCycle(states: seq<State>, actions: seq<Action>, k: nat, chain: seq<TxnId>)
    requires Execution(states, actions) && k < |states|
    requires |chain| >= 2 && WaitChain(states[k], chain)
    ensures chain[0] != chain[|chain| - 1]
  {
    ExecutionKeepsInv(states, actions, k);
    if chain[0] == chain[|chain| - 1] {
      assert WaitsFor(states[k], chain[0], chain[1]);
      WantedGrowsAlong(states[k], chain);
      LessIsStrict(Wanted(states[k].txns[chain[0]]));
    }
  }
}
