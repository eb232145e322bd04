/**
  What every step of registrations, logouts and dispatchers keeps: each lock has one holder,
  a transaction that has read its rows holds the keys without which they could change, and
  what it has read is still so and still all that concerns it. From this follows that a
  commit, which writes from the rows it read alone, does to the whole table what the
  transaction would have done in one step, as `DeviceBinding` has it.
 */
module LockInvariants {
  import opened Basics
  import opened DeviceBinding
  import opened BindingLocks

  ghost predicate Exclusive(s: State) {
    && (forall t, u, key | Holds(s, t, key) && Holds(s, u, key) :: t == u)
    && (forall t, key | Holds(s, t, key) :: !HeldByDispatcher(s, key))
    && (forall d, e | d in s.sending && e in s.sending && s.sending[d] == s.sending[e] :: d == e)
  }

  /** The keys without which the transaction's rows could change under it. */
  ghost predicate HasKeys(x: Txn) {
    && x.held <= |x.keys| && Ascending(x.keys)
    && (x.read.Some? ==> x.held == |x.keys|)
    && match x.job
       case Registering(r, _) => DeviceKey(r.device) in x.keys && PushKey(Sha256(r.token)) in x.keys
       case LoggingOut(_, device, seen) => DeviceKey(device) in x.keys && (seen.Some? ==> PushKey(seen.value) in x.keys)
  }

  /** What a transaction has read is still so, and still all that concerns it. */
  ghost predicate ReadIsCurrent(rows: Rows, x: Txn) {
    x.read.Some? ==>
      && (forall id | id in x.read.value :: id in rows)
      && (forall id | id in rows :: id in x.read.value <==> Concerns(x.job, rows[id]))
      && (forall id | id in x.read.value :: x.read.value[id] == rows[id])
  }

  ghost predicate Inv(s: State) {
    && Sound(s.rows)
    && Exclusive(s)
    && (forall t | t in s.txns :: HasKeys(s.txns[t]) && ReadIsCurrent(s.rows, s.txns[t]))
    && ReadsApart(s.txns)
  }

  /** No row is read by two transactions. */
  ghost predicate ReadsApart(txns: map<TxnId, Txn>) {
    forall t, u, id | t in txns && u in txns && txns[t].read.Some? && txns[u].read.Some?
                      && id in txns[t].read.value && id in txns[u].read.value :: t == u
  }

  /** A transaction that has read its rows holds all its keys. */
  lemma HoldsAll(s: State, t: TxnId, key: Key)
    requires t in s.txns && HasKeys(s.txns[t]) && s.txns[t].read.Some? && key in s.txns[t].keys
    ensures Holds(s, t, key)
  {
    var i :| 0 <= i < |s.txns[t].keys| && s.txns[t].keys[i] == key;
  }

  // ----- Commits are atomic -----------------------------------------------------------------

  ghost function StepOf(job: Job, now: int): Step {
    match job
    case Registering(r, newId) => Register(r, newId, now)
    case LoggingOut(user, device, _) => Logout(user, device, now)
  }

  lemma SameWinner(all: Rows, part: Rows, r: Registration)
    requires Sound(all)
    requires forall id | id in all :: id in part <==> Candidate(all[id], r)
    requires forall id | id in part :: id in all && part[id] == all[id]
    ensures WinnerOf(part, r) == WinnerOf(all, r)
  {
    assert Candidates(part, r) == Candidates(all, r);
    forall id ensures IsWinner(part, r, id) <==> IsWinner(all, r, id) {
      assert (exists k :: k in part && part[k].device == r.device) <==> exists k :: k in all && all[k].device == r.device;
      if id in part {
        assert forall other | other in part :: Precedes(part, id, other) == Precedes(all, id, other);
      }
    }
    if id :| IsWinner(all, r, id) {
      WinnerIsUnique(all, r, id, WinnerOf(all, r).value);
      WinnerIsUnique(all, r, id, WinnerOf(part, r).value);
    }
  }

  lemma RegisterFromPart(all: Rows, part: Rows, r: Registration, newId: RowId, now: int)
    requires Sound(all) && newId !in all
    requires forall id | id in all :: id in part <==> Candidate(all[id], r)
    requires forall id | id in part :: id in all && part[id] == all[id]
    ensures all + Registered(part, r, newId, now) == Registered(all, r, newId, now)
  {
    SameWinner(all, part, r);
    var winner := WinnerOf(all, r);
    assert winner.Some? ==> IsWinner(all, r, winner.value) && IsWinner(part, r, winner.value);
    var left, right := all + Registered(part, r, newId, now), Registered(all, r, newId, now);
    if winner.None? {
      RowFate(all, r, newId, now, newId);
      assert forall id :: id in part ==> id in Candidates(all, r);
      assert part == map[];
    } else {
      assert left.Keys == right.Keys;
    }
  }

  lemma LogoutFromPart(all: Rows, part: Rows, user: string, device: string, now: int)
    requires forall id | id in all :: id in part <==> OwnedBy(all[id], user, device)
    requires forall id | id in part :: id in all && part[id] == all[id]
    ensures all + Apply(part, Logout(user, device, now)) == Apply(all, Logout(user, device, now))
  {
    assert (all + Apply(part, Logout(user, device, now))).Keys == Apply(all, Logout(user, device, now)).Keys;
  }

  /** A commit does to the whole table what the transaction would have done to it in one step. */
  lemma CommitIsAtomic(s: State, t: TxnId, now: int)
    requires Inv(s) && Enabled(s, Commit(t, now))
    ensures Next(s, Commit(t, now)).rows == Apply(s.rows, StepOf(s.txns[t].job, now))
  {
    var x := s.txns[t];
    match x.job
    case Registering(r, newId) => RegisterFromPart(s.rows, x.read.value, r, newId, now);
    case LoggingOut(user, device, _) => LogoutFromPart(s.rows, x.read.value, user, device, now);
  }

  /** The step of the device table that an action amounts to, if any. */
  ghost function Effect(s: State, a: Action): Option<Step>
    requires Enabled(s, a)
  {
    match a
    case Commit(t, now) => Some(StepOf(s.txns[t].job, now))
    case Judge(b, now) => Some(Verdict(b, now))
    case Remove(id, now) => Some(SoftDelete(id, now))
    case _ => None
  }

  lemma ActionIsAStep(s: State, a: Action)
    requires Inv(s) && Enabled(s, a)
    ensures Next(s, a).rows == if Effect(s, a).None? then s.rows else Apply(s.rows, Effect(s, a).value)
  {
    if a.Commit? {
      CommitIsAtomic(s, a.t, a.now);
    }
  }

  // ----- Every action keeps the invariants ----------------------------------------------------

  /** Two transactions that have read their rows have no key in common. */
  lemma NoCommonKey(s: State, t: TxnId, u: TxnId, key: Key)
    requires Inv(s) && t in s.txns && u in s.txns && t != u
    requires s.txns[t].read.Some? && s.txns[u].read.Some? && key in s.txns[t].keys
    ensures key !in s.txns[u].keys
  {
    HoldsAll(s, t, key);
    if key in s.txns[u].keys {
      HoldsAll(s, u, key);
    }
  }

  /** The row that a registration leaves bound concerns no other transaction that has read its rows. */
  lemma BoundRowConcernsNoOther(s: State, t: TxnId, u: TxnId, r: Registration, newId: RowId, d: Device)
    requires Inv(s) && t in s.txns && u in s.txns && t != u
    requires s.txns[t].read.Some? && s.txns[u].read.Some? && s.txns[t].job == Registering(r, newId)
    requires d.device == r.device && d.token == r.token
    ensures !Concerns(s.txns[u].job, d)
  {
    NoCommonKey(s, t, u, DeviceKey(r.device));
    NoCommonKey(s, t, u, PushKey(Sha256(r.token)));
  }

  /** A commit leaves each row as it was, or out of the concern of every other transaction. */
  lemma CommitSparesRow(s: State, t: TxnId, now: int, u: TxnId, id: RowId)
    requires Inv(s) && Enabled(s, Commit(t, now)) && u in s.txns && u != t && s.txns[u].read.Some?
    requires id in Next(s, Commit(t, now)).rows
    ensures var row := Next(s, Commit(t, now)).rows[id];
            || (id in s.rows && row == s.rows[id])
            || (id !in s.txns[u].read.value && !Concerns(s.txns[u].job, row))
  {
    CommitIsAtomic(s, t, now);
    var x := s.txns[t];
    match x.job
    case Registering(r, newId) =>
      RowFate(s.rows, r, newId, now, id);
      var row := Next(s, Commit(t, now)).rows[id];
      if row.device == r.device && row.token == r.token {
        BoundRowConcernsNoOther(s, t, u, r, newId, row);
      }
    case LoggingOut(user, device, _) =>
  }

  lemma CommitKeepsReads(s: State, t: TxnId, now: int, u: TxnId)
    requires Inv(s) && Enabled(s, Commit(t, now)) && u in s.txns && u != t
    ensures ReadIsCurrent(Next(s, Commit(t, now)).rows, s.txns[u])
  {
    var after := Next(s, Commit(t, now)).rows;
    if s.txns[u].read.Some? {
      forall id | id in after
        ensures id in s.txns[u].read.value <==> Concerns(s.txns[u].job, after[id])
        ensures id in s.txns[u].read.value ==> s.txns[u].read.value[id] == after[id]
      {
        CommitSparesRow(s, t, now, u, id);
      }
    }
  }

  /** Fewer locks, or none more, keep locks exclusive. */
  lemma FewerLocksExclusive(s: State, s': State)
    requires Exclusive(s)
    requires forall t, key | Holds(s', t, key) :: Holds(s, t, key)
    requires forall d | d in s'.sending :: d in s.sending && s'.sending[d] == s.sending[d]
    ensures Exclusive(s')
  {
    forall key | HeldByDispatcher(s', key) ensures HeldByDispatcher(s, key) {
      var d :| d in s'.sending && PushKey(s'.sending[d]) == key;
      assert d in s.sending && PushKey(s.sending[d]) == key;
    }
  }

  lemma CommitKeepsInv(s: State, t: TxnId, now: int)
    requires Inv(s) && Enabled(s, Commit(t, now))
    ensures Inv(Next(s, Commit(t, now)))
  {
    var s' := Next(s, Commit(t, now));
    CommitIsAtomic(s, t, now);
    StepKeepsSound(s.rows, StepOf(s.txns[t].job, now));
    FewerLocksExclusive(s, s');
    forall u | u in s'.txns ensures ReadIsCurrent(s'.rows, s'.txns[u]) {
      CommitKeepsReads(s, t, now, u);
    }
  }

  lemma LockIsExclusive(s: State, t: TxnId)
    requires Exclusive(s) && Enabled(s, Lock(t))
    ensures Exclusive(Next(s, Lock(t)))
  {
    var s' := Next(s, Lock(t));
    var x := s.txns[t];
    var taken := x.keys[x.held];
    forall u, key | Holds(s', u, key) ensures Holds(s, u, key) || (u == t && key == taken) {
      var i :| 0 <= i < s'.txns[u].held && i < |s'.txns[u].keys| && s'.txns[u].keys[i] == key;
      if u != t || i < x.held {
        assert 0 <= i < s.txns[u].held && i < |s.txns[u].keys| && s.txns[u].keys[i] == key;
      }
    }
    assert forall key :: HeldByDispatcher(s', key) ==> HeldByDispatcher(s, key);
  }

  lemma LockKeepsInv(s: State, t: TxnId)
    requires Inv(s) && Enabled(s, Lock(t))
    ensures Inv(Next(s, Lock(t)))
  {
    LockIsExclusive(s, t);
  }

  /** The holders are the same when every transaction has its keys and as many of them locked as before. */
  lemma SameHolders(s: State, s': State)
    requires Exclusive(s) && s'.sending == s.sending
    requires forall u | u in s'.txns && s'.txns[u].held > 0 ::
               u in s.txns && s'.txns[u].keys == s.txns[u].keys && s'.txns[u].held == s.txns[u].held
    ensures Exclusive(s')
  {
    forall u, key | Holds(s', u, key) ensures Holds(s, u, key) {
      assert s'.txns[u].held > 0;
    }
    FewerLocksExclusive(s, s');
  }

  lemma NewTxnKeepsInv(s: State, t: TxnId, x: Txn)
    requires Inv(s) && t !in s.txns && HasKeys(x) && x.held == 0 && x.read.None?
    ensures Inv(s.(txns := s.txns[t := x]))
  {
    SameHolders(s, s.(txns := s.txns[t := x]));
  }

  lemma BeginKeepsInv(s: State, a: Action)
    requires Inv(s) && Enabled(s, a) && (a.BeginRegister? || a.BeginLogout?)
    ensures Inv(Next(s, a))
  {
    var x := Next(s, a).txns[a.t];
    assert forall key :: key in a.keys <==> key in Elements(a.keys);
    NewTxnKeepsInv(s, a.t, x);
  }

  lemma ReadIsApart(s: State, t: TxnId)
    requires ReadsApart(s.txns) && Enabled(s, Read(t))
    ensures ReadsApart(Next(s, Read(t)).txns)
  {
    var s' := Next(s, Read(t));
    forall u, id | u in s.txns && u != t && s.txns[u].read.Some? && id in s.txns[u].read.value
      ensures id !in s'.txns[t].read.value
    {
      assert RowLocked(s, id);
    }
  }

  lemma ReadTxn(s: State, t: TxnId)
    requires t in s.txns && HasKeys(s.txns[t]) && Enabled(s, Read(t))
    ensures var s' := Next(s, Read(t)); t in s'.txns && HasKeys(s'.txns[t]) && ReadIsCurrent(s.rows, s'.txns[t])
  {
  }

  lemma ReadKeepsInv(s: State, t: TxnId)
    requires Inv(s) && Enabled(s, Read(t))
    ensures Inv(Next(s, Read(t)))
  {
    ReadIsApart(s, t);
    ReadTxn(s, t);
    SameHolders(s, Next(s, Read(t)));
  }

  lemma DispatcherKeepsInv(s: State, a: Action)
    requires Inv(s) && Enabled(s, a) && (a.TryLock? || a.Unlock? || a.Abort?)
    ensures Inv(Next(s, a))
  {
    var s' := Next(s, a);
    forall u, key | Holds(s', u, key) ensures Holds(s, u, key) {
      assert s'.txns[u] == s.txns[u];
    }
    if a.TryLock? {
      forall key | HeldByDispatcher(s', key) ensures HeldByDispatcher(s, key) || key == PushKey(a.fingerprint) {
        var d :| d in s'.sending && PushKey(s'.sending[d]) == key;
        assert d != a.d ==> d in s.sending && PushKey(s.sending[d]) == key;
      }
    } else {
      FewerLocksExclusive(s, s');
    }
  }

  lemma OutsiderKeepsReads(rows: Rows, x: Txn, id: RowId, d: Device)
    requires ReadIsCurrent(rows, x) && id in rows
    requires x.read.Some? ==> id !in x.read.value
    requires d == Released(rows[id], d.updated) || d == rows[id].(deleted := true, updated := d.updated)
    ensures ReadIsCurrent(rows[id := d], x)
  {
    if x.read.Some? {
      assert !Concerns(x.job, rows[id]);
      assert !Concerns(x.job, d);
    }
  }

  lemma OutsiderStep(s: State, a: Action)
    requires Inv(s) && Enabled(s, a) && (a.Judge? || a.Remove?)
    ensures var s', id := Next(s, a), if a.Judge? then a.binding.id else a.id;
            && Sound(s'.rows) && s' == s.(rows := s'.rows) && !RowLocked(s, id)
            && (s'.rows == s.rows
                || (id in s.rows && id in s'.rows && s'.rows == s.rows[id := s'.rows[id]]
                    && (s'.rows[id] == Released(s.rows[id], s'.rows[id].updated)
                        || s'.rows[id] == s.rows[id].(deleted := true, updated := s'.rows[id].updated))))
  {
    StepKeepsSound(s.rows, Effect(s, a).value);
  }

  lemma OutsiderKeepsInv(s: State, a: Action)
    requires Inv(s) && Enabled(s, a) && (a.Judge? || a.Remove?)
    ensures Inv(Next(s, a))
  {
    var s' := Next(s, a);
    var id: RowId := if a.Judge? then a.binding.id else a.id;
    OutsiderStep(s, a);
    SameHolders(s, s');
    forall u | u in s.txns ensures ReadIsCurrent(s'.rows, s.txns[u]) {
      assert s.txns[u].read.Some? ==> id !in s.txns[u].read.value;
      if s'.rows != s.rows {
        OutsiderKeepsReads(s.rows, s.txns[u], id, s'.rows[id]);
      }
    }
  }

  lemma ActionKeepsInv(s: State, a: Action)
    requires Inv(s) && Enabled(s, a)
    ensures Inv(Next(s, a))
  {
    match a
    case BeginRegister(_, _, _, _) => BeginKeepsInv(s, a);
    case BeginLogout(_, _, _, _, _) => BeginKeepsInv(s, a);
    case Lock(t) => LockKeepsInv(s, t);
    case Read(t) => ReadKeepsInv(s, t);
    case Commit(t, now) => CommitKeepsInv(s, t, now);
    case Abort(_) => DispatcherKeepsInv(s, a);
    case TryLock(_, _) => DispatcherKeepsInv(s, a);
    case Unlock(_) => DispatcherKeepsInv(s, a);
    case Judge(_, _) => OutsiderKeepsInv(s, a);
    case Remove(_, _) => OutsiderKeepsInv(s, a);
  }
}
