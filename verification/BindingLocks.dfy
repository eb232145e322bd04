/**
  Registrations, logouts and push dispatchers as they interleave: a transaction takes its
  sorted advisory locks one by one, locks and reads its rows, and commits.
 */
module BindingLocks {
  import opened Basics
  import opened DeviceBinding

  // ----- Lock keys ---------------------------------------------------------------------------

  type Key = string

  function DeviceKey(device: string): Key {
    "device:" + device
  }

  function PushKey(f: Fingerprint): Key {
    "push:" + f.token
  }

  /** Device keys and token keys never collide, nor do two of either kind. */
  lemma KeysApart(d: string, e: string, f: Fingerprint, g: Fingerprint)
    ensures DeviceKey(d) != PushKey(f)
    ensures DeviceKey(d) == DeviceKey(e) <==> d == e
    ensures PushKey(f) == PushKey(g) <==> f == g
  {
    assert DeviceKey(d)[0] != PushKey(f)[0];
    assert DeviceKey(d)[7..] == d && DeviceKey(e)[7..] == e;
    assert PushKey(f)[5..] == f.token && PushKey(g)[5..] == g.token;
  }

  predicate Less(a: Key, b: Key) {
    b != [] && (a == [] || a[0] < b[0] || (a[0] == b[0] && Less(a[1..], b[1..])))
  }

  lemma {:induction false} LessIsStrict(a: Key)
    ensures !Less(a, a)
  {
    if a != [] {
      LessIsStrict(a[1..]);
    }
  }

  lemma {:induction false} LessIsTransitive(a: Key, b: Key, c: Key)
    requires Less(a, b) && Less(b, c)
    ensures Less(a, c)
  {
    if a != [] && a[0] == b[0] && b[0] == c[0] {
      LessIsTransitive(a[1..], b[1..], c[1..]);
    }
  }

  ghost predicate Ascending(keys: seq<Key>) {
    forall i, j | 0 <= i < j < |keys| :: Less(keys[i], keys[j])
  }

  // ----- States ------------------------------------------------------------------------------

  type TxnId = nat
  type DispatcherId = nat

  datatype Job =
    | Registering(registration: Registration, newId: RowId)
    | LoggingOut(user: string, device: string, seen: Option<Fingerprint>)

  /** `keys[..held]` are locked; `read` holds the rows that were then locked and read. */
  datatype Txn = Txn(job: Job, keys: seq<Key>, held: nat, read: Option<Rows>)

  datatype State = State(rows: Rows, txns: map<TxnId, Txn>, sending: map<DispatcherId, Fingerprint>)

  ghost predicate Holds(s: State, t: TxnId, key: Key) {
    t in s.txns && exists i | 0 <= i < s.txns[t].held && i < |s.txns[t].keys| :: s.txns[t].keys[i] == key
  }

  ghost predicate HeldByDispatcher(s: State, key: Key) {
    exists d | d in s.sending :: PushKey(s.sending[d]) == key
  }

  ghost predicate Free(s: State, key: Key) {
    !HeldByDispatcher(s, key) && forall t :: !Holds(s, t, key)
  }

  ghost predicate RowLocked(s: State, id: RowId) {
    exists t | t in s.txns :: s.txns[t].read.Some? && id in s.txns[t].read.value
  }

  // ----- Actions -----------------------------------------------------------------------------

  datatype Action =
    | BeginRegister(t: TxnId, registration: Registration, newId: RowId, keys: seq<Key>)
    | BeginLogout(t: TxnId, user: string, device: string, current: RowId, keys: seq<Key>)
    | Lock(t: TxnId)
    | Read(t: TxnId)
    | Commit(t: TxnId, now: int)
    | Abort(t: TxnId)
    | TryLock(d: DispatcherId, fingerprint: Fingerprint)
    | Unlock(d: DispatcherId)
    | Judge(binding: Binding, now: int)
    | Remove(id: RowId, now: int)

  /** The keys of a registration: the device, the token, and the fingerprints found on its candidates. */
  ghost function RegisterKeys(rows: Rows, r: Registration): set<Key> {
    {DeviceKey(r.device), PushKey(Sha256(r.token))}
    + set id | id in Candidates(rows, r) && rows[id].fingerprint.Some? :: PushKey(rows[id].fingerprint.value)
  }

  ghost function LogoutKeys(device: string, seen: Option<Fingerprint>): set<Key> {
    {DeviceKey(device)} + if seen.Some? then {PushKey(seen.value)} else {}
  }

  /** The rows that a transaction locks and reads. */
  ghost predicate Concerns(job: Job, d: Device) {
    match job
    case Registering(r, _) => Candidate(d, r)
    case LoggingOut(user, device, _) => OwnedBy(d, user, device)
  }

  /** What is checked after the locks were taken: the rows read call for no other lock. */
  ghost predicate Checked(x: Txn)
    requires x.read.Some?
  {
    match x.job
    case Registering(r, _) =>
      forall id | id in x.read.value && x.read.value[id].fingerprint.Some? && x.read.value[id].fingerprint.value != Sha256(r.token) ::
        PushKey(x.read.value[id].fingerprint.value) in x.keys
    case LoggingOut(_, _, seen) =>
      forall id | id in x.read.value :: x.read.value[id].fingerprint == seen
  }

  /** What a transaction writes, from the rows it read alone. */
  ghost function Written(x: Txn, now: int): Rows
    requires x.read.Some?
  {
    match x.job
    case Registering(r, newId) => Registered(x.read.value, r, newId, now)
    case LoggingOut(user, device, _) => Apply(x.read.value, Logout(user, device, now))
  }

  ghost predicate Enabled(s: State, a: Action) {
    match a
    case BeginRegister(t, r, newId, keys) =>
      t !in s.txns && Ascending(keys) && Elements(keys) == RegisterKeys(s.rows, r)
    case BeginLogout(t, user, device, current, keys) =>
      && t !in s.txns && current in s.rows && OwnedBy(s.rows[current], user, device)
      && Ascending(keys) && Elements(keys) == LogoutKeys(device, s.rows[current].fingerprint)
    case Lock(t) =>
      t in s.txns && s.txns[t].held < |s.txns[t].keys| && Free(s, s.txns[t].keys[s.txns[t].held])
    case Read(t) =>
      && t in s.txns && s.txns[t].held == |s.txns[t].keys| && s.txns[t].read.None?
      && forall id | id in s.rows && Concerns(s.txns[t].job, s.rows[id]) :: !RowLocked(s, id)
    case Commit(t, _) =>
      && t in s.txns && s.txns[t].read.Some? && Checked(s.txns[t])
      && (s.txns[t].job.Registering? ==> s.txns[t].job.newId !in s.rows)
    case Abort(t) => t in s.txns
    case TryLock(d, f) => d !in s.sending && Free(s, PushKey(f))
    case Unlock(d) => d in s.sending
    case Judge(b, _) => !RowLocked(s, b.id)
    case Remove(id, _) => !RowLocked(s, id)
  }

  ghost function Next(s: State, a: Action): State
    requires Enabled(s, a)
  {
    match a
    case BeginRegister(t, r, newId, keys) => s.(txns := s.txns[t := Txn(Registering(r, newId), keys, 0, None)])
    case BeginLogout(t, user, device, current, keys) =>
      s.(txns := s.txns[t := Txn(LoggingOut(user, device, s.rows[current].fingerprint), keys, 0, None)])
    case Lock(t) => s.(txns := s.txns[t := s.txns[t].(held := s.txns[t].held + 1)])
    case Read(t) =>
      var x := s.txns[t];
      s.(txns := s.txns[t := x.(read := Some(map id | id in s.rows && Concerns(x.job, s.rows[id]) :: s.rows[id]))])
    case Commit(t, now) => s.(rows := s.rows + Written(s.txns[t], now), txns := s.txns - {t})
    case Abort(t) => s.(txns := s.txns - {t})
    case TryLock(d, f) => s.(sending := s.sending[d := f])
    case Unlock(d) => s.(sending := s.sending - {d})
    case Judge(b, now) => s.(rows := Apply(s.rows, Verdict(b, now)))
    case Remove(id, now) => s.(rows := Apply(s.rows, SoftDelete(id, now)))
  }
}
