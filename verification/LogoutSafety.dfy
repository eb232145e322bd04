/** What a logout leaves behind, however it interleaves with registrations, verdicts and other logouts. */
module LogoutSafety {
  import opened Basics
  import opened DeviceBinding
  import opened BindingLocks
  import opened LockInvariants
  import opened BindingSafety

  /** The fingerprint is on some row. */
  ghost predicate Bound(rows: Rows, f: Fingerprint) {
    exists id :: id in rows && rows[id].fingerprint == Some(f)
  }

  /** The account has an active row of the device. */
  ghost predicate LoggedIn(rows: Rows, user: string, device: string) {
    exists id :: id in rows && rows[id].user == Some(user) && rows[id].device == device && rows[id].active && !rows[id].deleted
  }

  /** The action commits a logout. */
  ghost predicate CommitsLogout(s: State, a: Action) {
    a.Commit? && a.t in s.txns && s.txns[a.t].job.LoggingOut?
  }

  /** The action commits a registration of the fingerprint's token. */
  ghost predicate CommitsRegistration(s: State, a: Action, f: Fingerprint) {
    a.Commit? && a.t in s.txns && s.txns[a.t].job.Registering? && Sha256(s.txns[a.t].job.registration.token) == f
  }

  // ----- One step of the table ------------------------------------------------------------------

  lemma LogoutUnbinds(rows: Rows, user: string, device: string, now: int, after: Rows, f: Fingerprint)
    requires Sound(rows) && LoggedOut(rows, user, device, now, after)
    requires forall id | id in rows && OwnedBy(rows[id], user, device) :: rows[id].fingerprint == Some(f)
    ensures Bound(after, f) <==> Bound(rows, f) && !LoggedIn(rows, user, device)
    ensures !LoggedIn(after, user, device)
  {
    if id :| id in rows && OwnedBy(rows[id], user, device) {
      assert forall k | k in after && after[k].fingerprint == Some(f) :: k == id;
    } else if k :| k in rows && rows[k].fingerprint == Some(f) {
      assert k in after;
    }
  }

  lemma RegistrationBinds(rows: Rows, r: Registration, newId: RowId, now: int, f: Fingerprint)
    requires Sound(rows) && newId !in rows && !Bound(rows, f)
    ensures Bound(Registered(rows, r, newId, now), f) <==> Sha256(r.token) == f
  {
    var id := RegisterBinds(rows, r, newId, now);
    var after := Registered(rows, r, newId, now);
    forall k | k in after && k != id ensures after[k].fingerprint != Some(f) {
      assert k in rows;
    }
  }

  lemma OthersBindNothing(rows: Rows, s: Step, f: Fingerprint)
    requires !s.Register? && !Bound(rows, f)
    ensures !Bound(Apply(rows, s), f)
  {
    StepEffects(rows, s);
  }

  // ----- One action -----------------------------------------------------------------------------

  /** A committed logout leaves the account no active row of the device, and nothing but its own row is changed. */
  lemma LogoutCommit(s: State, a: Action)
    requires Inv(s) && Enabled(s, a) && CommitsLogout(s, a)
    ensures var job := s.txns[a.t].job; LoggedOut(s.rows, job.user, job.device, a.now, Next(s, a).rows)
  {
    var job := s.txns[a.t].job;
    CommitIsAtomic(s, a.t, a.now);
    StepEffects(s.rows, Logout(job.user, job.device, a.now));
  }

  /** The row that a logout finds active bears the fingerprint that it saw before it took the locks. */
  lemma LogoutFinds(s: State, a: Action)
    requires Inv(s) && Enabled(s, a) && CommitsLogout(s, a)
    ensures var job := s.txns[a.t].job;
            forall id | id in s.rows && OwnedBy(s.rows[id], job.user, job.device) :: s.rows[id].fingerprint == job.seen
  {
    var job := s.txns[a.t].job;
    forall id | id in s.rows && OwnedBy(s.rows[id], job.user, job.device) ensures s.rows[id].fingerprint == job.seen {
      assert id in s.txns[a.t].read.value;
    }
  }

  /** A fingerprint that is on no row comes onto one only by a registration of its token. */
  lemma BoundByRegistration(s: State, a: Action, f: Fingerprint)
    requires Inv(s) && Enabled(s, a) && !Bound(s.rows, f)
    ensures Bound(Next(s, a).rows, f) <==> CommitsRegistration(s, a, f)
  {
    ActionIsAStep(s, a);
    if Effect(s, a).Some? {
      var step := Effect(s, a).value;
      if step.Register? {
        RegistrationBinds(s.rows, step.registration, step.newId, step.now, f);
      } else {
        OthersBindNothing(s.rows, step, f);
      }
    }
  }

  // ----- Whole executions -------------------------------------------------------------------------

  lemma MomentBinds(states: seq<State>, actions: seq<Action>, k: nat, f: Fingerprint)
    requires Execution(states, actions) && k < |actions| && !Bound(states[k].rows, f)
    ensures Bound(states[k + 1].rows, f) <==> CommitsRegistration(states[k], actions[k], f)
  {
    ExecutionKeepsInv(states, actions, k);
    assert Moved(states, actions, k);
    BoundByRegistration(states[k], actions[k], f);
  }

  /** A fingerprint that is on no row stays off all rows as long as no registration of its token is committed. */
  lemma {:induction false} UnboundUntilRegistered(states: seq<State>, actions: seq<Action>, i: nat, j: nat, f: Fingerprint)
    requires Execution(states, actions) && i <= j <= |actions| && !Bound(states[i].rows, f)
    requires forall k | i <= k < j :: !CommitsRegistration(states[k], actions[k], f)
    ensures !Bound(states[j].rows, f)
  {
    if i < j {
      UnboundUntilRegistered(states, actions, i, j - 1, f);
      MomentBinds(states, actions, j - 1, f);
    }
  }

  /**
    In every execution a committed logout switches off the account's row of the device and no
    other. The fingerprint that it saw is then on no row, unless the row was no longer the
    account's and the fingerprint is on another by now.
   */
  lemma LogoutTakesEffect(states: seq<State>, actions: seq<Action>, i: nat, f: Fingerprint)
    requires Execution(states, actions) && i < |actions| && CommitsLogout(states[i], actions[i])
    ensures var job := states[i].txns[actions[i].t].job;
            && LoggedOut(states[i].rows, job.user, job.device, actions[i].now, states[i + 1].rows)
            && (job.seen == Some(f) ==>
                  (Bound(states[i + 1].rows, f) <==> Bound(states[i].rows, f) && !LoggedIn(states[i].rows, job.user, job.device)))
  {
    ExecutionKeepsInv(states, actions, i);
    assert Moved(states, actions, i);
    var job := states[i].txns[actions[i].t].job;
    LogoutCommit(states[i], actions[i]);
    LogoutFinds(states[i], actions[i]);
    if job.seen == Some(f) {
      LogoutUnbinds(states[i].rows, job.user, job.device, actions[i].now, states[i + 1].rows, f);
    }
  }

  /** After a logout that found the account's row still active, its fingerprint is on no row until its token is registered. */
  lemma LoggedOutUntilRegistered(states: seq<State>, actions: seq<Action>, i: nat, j: nat, f: Fingerprint)
    requires Execution(states, actions) && i < j <= |actions| && CommitsLogout(states[i], actions[i])
    requires var job := states[i].txns[actions[i].t].job; job.seen == Some(f) && LoggedIn(states[i].rows, job.user, job.device)
    ensures Bound(states[j].rows, f) ==> exists k :: i < k < j && CommitsRegistration(states[k], actions[k], f)
  {
    LogoutTakesEffect(states, actions, i, f);
    if forall k | i + 1 <= k < j :: !CommitsRegistration(states[k], actions[k], f) {
      UnboundUntilRegistered(states, actions, i + 1, j, f);
    }
  }

  /** A logout and a registration shut each other out exactly when they have the device or the fingerprint seen in common. */
  lemma LogoutMeets(device: string, seen: Option<Fingerprint>, rows: Rows, r: Registration)
    ensures (exists key :: key in LogoutKeys(device, seen) && key in RegisterKeys(rows, r))
       <==> r.device == device || (seen.Some? && seen.value in TokensOf(rows, r))
  {
    RegisterKey(rows, r, DeviceKey(device));
    forall f ensures DeviceKey(device) != PushKey(f) && (DeviceKey(device) == DeviceKey(r.device) <==> device == r.device) {
      KeysApart(device, r.device, f, f);
    }
    if seen.Some? {
      DispatcherMeets(rows, r, seen.value);
    }
  }

  // ----- The fingerprint may have moved -------------------------------------------------------------

  lemma Proceed(states: seq<State>, actions: seq<Action>, a: Action) returns (states': seq<State>, actions': seq<Action>)
    requires Execution(states, actions) && Enabled(states[|actions|], a)
    ensures Execution(states', actions') && states' == states + [Next(states[|actions|], a)] && actions' == actions + [a]
  {
    states', actions' := states + [Next(states[|actions|], a)], actions + [a];
    forall k | 0 <= k < |actions'| ensures Moved(states', actions', k) {
      if k < |actions| {
        assert Moved(states, actions, k);
      }
    }
  }

  const PHONE: Build := Build("ios", None, [])

  /** A phone of one account, which another account registers. */
  const OWNED: Rows := map[1 := Device(Some("a"), "d", "t", Some(Sha256("t")), 1, true, false, PHONE, None, 0)]

  const OTHER: Registration := Registration("b", "d", "t", PHONE)

  function PhoneKeys(): seq<Key> {
    [DeviceKey("d"), PushKey(Sha256("t"))]
  }

  function LogoutHolding(held: nat, read: Option<Rows>): Txn {
    Txn(LoggingOut("a", "d", Some(Sha256("t"))), PhoneKeys(), held, read)
  }

  function RegistrationHolding(held: nat, read: Option<Rows>): Txn {
    Txn(Registering(OTHER, 2), PhoneKeys(), held, read)
  }

  lemma PhoneKeysFit()
    ensures Ascending(PhoneKeys()) && DeviceKey("d") != PushKey(Sha256("t"))
    ensures Elements(PhoneKeys()) == LogoutKeys("d", Some(Sha256("t"))) == RegisterKeys(OWNED, OTHER)
  {
    KeysApart("d", "d", Sha256("t"), Sha256("t"));
    assert Less(DeviceKey("d"), PushKey(Sha256("t")));
    assert Elements(PhoneKeys()) == {DeviceKey("d"), PushKey(Sha256("t"))};
    forall key ensures key in RegisterKeys(OWNED, OTHER) <==> key == DeviceKey("d") || key == PushKey(Sha256("t")) {
    }
  }

  /** The logout has looked up the phone, and the registration has begun. */
  lemma BothBegun() returns (states: seq<State>, actions: seq<Action>)
    ensures Execution(states, actions)
    ensures states[|actions|] == State(OWNED, map[0 := LogoutHolding(0, None), 1 := RegistrationHolding(0, None)], map[])
  {
    PhoneKeysFit();
    states, actions := [State(OWNED, map[], map[])], [];
    states, actions := Proceed(states, actions, BeginLogout(0, "a", "d", 1, PhoneKeys()));
    states, actions := Proceed(states, actions, BeginRegister(1, OTHER, 2, PhoneKeys()));
  }

  /** A transaction that no other shuts out takes both keys. */
  lemma TakesBoth(states: seq<State>, actions: seq<Action>, t: TxnId) returns (states': seq<State>, actions': seq<Action>)
    requires Execution(states, actions)
    requires var s := states[|actions|];
             && t in s.txns && s.txns[t].keys == PhoneKeys() && s.sending == map[]
             && forall u | u in s.txns :: s.txns[u].held == 0
    ensures Execution(states', actions') && |actions'| > |actions|
    ensures var s := states[|actions|]; states'[|actions'|] == s.(txns := s.txns[t := s.txns[t].(held := 2)])
  {
    PhoneKeysFit();
    states', actions' := Proceed(states, actions, Lock(t));
    states', actions' := Proceed(states', actions', Lock(t));
  }

  /** The phone is now the other account's. */
  ghost predicate Transferred(rows: Rows) {
    rows.Keys == {1} && rows[1].user == Some("b") && rows[1].fingerprint == Some(Sha256("t"))
  }

  lemma RegistrationRead() returns (states: seq<State>, actions: seq<Action>)
    ensures Execution(states, actions)
    ensures states[|actions|] == State(OWNED, map[0 := LogoutHolding(0, None), 1 := RegistrationHolding(2, Some(OWNED))], map[])
  {
    states, actions := BothBegun();
    states, actions := TakesBoth(states, actions, 1);
    states, actions := Proceed(states, actions, Read(1));
    assert states[|actions|].txns[1].read.value == OWNED;
  }

  lemma RegisteredToOther()
    ensures Transferred(OWNED + Registered(OWNED, OTHER, 2, 0))
  {
    var id := RegisterBinds(OWNED, OTHER, 2, 0);
    assert 1 in OWNED && OWNED[1].device == OTHER.device;
  }

  lemma CommitToOther(s: State)
    requires s == State(OWNED, map[0 := LogoutHolding(0, None), 1 := RegistrationHolding(2, Some(OWNED))], map[])
    ensures Enabled(s, Commit(1, 0)) && Transferred(Next(s, Commit(1, 0)).rows)
    ensures Next(s, Commit(1, 0)).txns == map[0 := LogoutHolding(0, None)] && Next(s, Commit(1, 0)).sending == map[]
  {
    RegisteredToOther();
  }

  lemma RegisteredByOther() returns (states: seq<State>, actions: seq<Action>)
    ensures Execution(states, actions)
    ensures var s := states[|actions|]; Transferred(s.rows) && s.txns == map[0 := LogoutHolding(0, None)] && s.sending == map[]
  {
    states, actions := RegistrationRead();
    CommitToOther(states[|actions|]);
    states, actions := Proceed(states, actions, Commit(1, 0));
  }

  /** A logout may be committed and the fingerprint that it saw still be on a row: that of an account that registered it meanwhile. */
  lemma LogoutMayFindItMoved() returns (states: seq<State>, actions: seq<Action>, i: nat)
    ensures Execution(states, actions) && i < |actions| && CommitsLogout(states[i], actions[i])
    ensures states[i].txns[actions[i].t].job.seen == Some(Sha256("t")) && Bound(states[i + 1].rows, Sha256("t"))
  {
    states, actions := RegisteredByOther();
    states, actions := TakesBoth(states, actions, 0);
    states, actions := Proceed(states, actions, Read(0));
    assert states[|actions|].txns[0].read.value == map[];
    i := |actions|;
    states, actions := Proceed(states, actions, Commit(0, 0));
    assert 1 in states[i + 1].rows && states[i + 1].rows[1].fingerprint == Some(Sha256("t"));
  }
}
