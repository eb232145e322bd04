/** Which account a push token belongs to: registrations, logouts and verdicts, each as one transaction. */
module DeviceBinding {
  import opened Basics

  type RowId = nat

  /** The hash of a push token, taken to be injective. */
  datatype Fingerprint = Sha256(token: string)

  datatype Build = Build(platform: string, appVersion: Option<string>, capabilities: seq<string>)

  datatype Device = Device(
    user: Option<string>,
    device: string,
    token: string,
    fingerprint: Option<Fingerprint>,
    version: nat,
    active: bool,
    deleted: bool,
    build: Build,
    lastSeen: Option<int>,
    updated: int)

  type Rows = map<RowId, Device>

  datatype Registration = Registration(user: string, device: string, token: string, build: Build)

  /** What a provider's verdict is about: the binding that the delivery was meant for. */
  datatype Binding = Binding(id: RowId, user: string, device: string, fingerprint: Fingerprint, version: nat)

  predicate Bears(d: Device, b: Binding) {
    d.user == Some(b.user) && d.device == b.device && d.fingerprint == Some(b.fingerprint) && d.version == b.version && d.active
  }

  predicate Borne(rows: Rows, b: Binding) {
    b.id in rows && Bears(rows[b.id], b)
  }

  // ----- Choosing the row that a registration keeps -----------------------------------------

  predicate Candidate(d: Device, r: Registration) {
    d.device == r.device || d.token == r.token
  }

  /** Most recently seen first, never seen last; then most recently updated; then by id. */
  predicate Precedes(rows: Rows, a: RowId, b: RowId)
    requires a in rows && b in rows
  {
    var x, y := rows[a], rows[b];
    if x.lastSeen != y.lastSeen then y.lastSeen.None? || (x.lastSeen.Some? && x.lastSeen.value > y.lastSeen.value)
    else if x.updated != y.updated then x.updated > y.updated
    else a > b
  }

  ghost function Candidates(rows: Rows, r: Registration): set<RowId> {
    set id | id in rows && Candidate(rows[id], r)
  }

  ghost predicate IsFirst(rows: Rows, ids: set<RowId>, id: RowId)
    requires ids <= rows.Keys
  {
    id in ids && forall other | other in ids && other != id :: Precedes(rows, id, other)
  }

  lemma PrecedesIsLinear(rows: Rows, a: RowId, b: RowId, c: RowId)
    requires a in rows && b in rows && c in rows
    ensures a != b ==> Precedes(rows, a, b) || Precedes(rows, b, a)
    ensures Precedes(rows, a, b) && Precedes(rows, b, c) ==> Precedes(rows, a, c)
  {
  }

  lemma {:induction false} FirstExists(rows: Rows, ids: set<RowId>) returns (id: RowId)
    requires ids <= rows.Keys && ids != {}
    ensures IsFirst(rows, ids, id)
  {
    id :| id in ids;
    var rest := ids - {id};
    if rest != {} {
      var last := id;
      var best := FirstExists(rows, rest);
      if Precedes(rows, best, last) {
        id := best;
      }
      forall other | other in ids && other != id ensures Precedes(rows, id, other) {
        assert other == last || other in rest;
        PrecedesIsLinear(rows, last, best, other);
      }
    } else {
      assert forall other | other in ids :: other == id || other in rest;
    }
  }

  /** The row of the same device if there is one, else the first of those with the same token. */
  ghost predicate IsWinner(rows: Rows, r: Registration, id: RowId) {
    && id in rows
    && Candidate(rows[id], r)
    && if exists k :: k in rows && rows[k].device == r.device then rows[id].device == r.device
       else IsFirst(rows, Candidates(rows, r), id)
  }

  ghost predicate DevicesUnique(rows: Rows) {
    forall i, j | i in rows && j in rows && rows[i].device == rows[j].device :: i == j
  }

  lemma WinnerIsUnique(rows: Rows, r: Registration, i: RowId, j: RowId)
    requires DevicesUnique(rows) && IsWinner(rows, r, i) && IsWinner(rows, r, j)
    ensures i == j
  {
  }

  lemma WinnerExists(rows: Rows, r: Registration)
    requires Candidates(rows, r) != {}
    ensures exists id :: IsWinner(rows, r, id)
  {
    if k :| k in rows && rows[k].device == r.device {
      assert IsWinner(rows, r, k);
    } else {
      var id := FirstExists(rows, Candidates(rows, r));
      assert IsWinner(rows, r, id);
    }
  }

  ghost function WinnerOf(rows: Rows, r: Registration): Option<RowId> {
    if id :| IsWinner(rows, r, id) then Some(id) else None
  }

  // ----- The transactions -------------------------------------------------------------------

  predicate BindingChanges(d: Device, r: Registration) {
    || d.user != Some(r.user)
    || d.device != r.device
    || d.fingerprint != Some(Sha256(r.token))
    || !d.active
    || d.deleted
  }

  function Rebound(d: Device, r: Registration, now: int): Device {
    Device(Some(r.user), r.device, r.token, Some(Sha256(r.token)),
           if BindingChanges(d, r) then d.version + 1 else d.version, true, false, r.build, Some(now), now)
  }

  function Created(r: Registration, now: int): Device {
    Device(Some(r.user), r.device, r.token, Some(Sha256(r.token)), 1, true, false, r.build, Some(now), now)
  }

  function Released(d: Device, now: int): Device {
    d.(active := false, fingerprint := None, updated := now)
  }

  datatype Step =
    | Register(registration: Registration, newId: RowId, now: int)
    | Logout(user: string, device: string, now: int)
    | Verdict(binding: Binding, now: int)
    | SoftDelete(id: RowId, now: int)

  predicate OwnedBy(d: Device, user: string, device: string) {
    d.user == Some(user) && d.device == device && d.active && !d.deleted
  }

  ghost function Registered(rows: Rows, r: Registration, newId: RowId, now: int): Rows {
    match WinnerOf(rows, r)
    case None => if newId in rows then rows else rows[newId := Created(r, now)]
    case Some(winner) =>
      map id | id in rows ::
        if id == winner then Rebound(rows[id], r, now)
        else if Candidate(rows[id], r) then Released(rows[id], now)
        else rows[id]
  }

  ghost function Apply(rows: Rows, s: Step): Rows {
    match s
    case Register(r, newId, now) => Registered(rows, r, newId, now)
    case Logout(user, device, now) =>
      map id | id in rows :: if OwnedBy(rows[id], user, device) then Released(rows[id], now) else rows[id]
    case Verdict(b, now) =>
      if Borne(rows, b) then rows[b.id := Released(rows[b.id], now)] else rows
    case SoftDelete(id, now) =>
      if id in rows then rows[id := rows[id].(deleted := true, updated := now)] else rows
  }

  /** The rows after the first `n` steps of a run. */
  ghost function After(rows: Rows, steps: seq<Step>, n: nat): Rows
    requires n <= |steps|
  {
    if n == 0 then rows else Apply(After(rows, steps, n - 1), steps[n - 1])
  }

  // ----- What every run keeps ---------------------------------------------------------------

  ghost predicate Sound(rows: Rows) {
    && DevicesUnique(rows)
    && (forall i | i in rows && rows[i].fingerprint.Some? :: rows[i].fingerprint.value == Sha256(rows[i].token) && rows[i].active)
    && (forall i, j | i in rows && j in rows && rows[i].fingerprint.Some? && rows[i].fingerprint == rows[j].fingerprint :: i == j)
  }

  /** A registration gives every row of the table one of four fates. */
  lemma RowFate(rows: Rows, r: Registration, newId: RowId, now: int, id: RowId)
    requires id in Registered(rows, r, newId, now)
    ensures var after, winner := Registered(rows, r, newId, now), WinnerOf(rows, r);
            if winner.None? && id == newId && newId !in rows then
              Candidates(rows, r) == {} && after[id] == Created(r, now)
            else
              && id in rows
              && after[id] == if winner == Some(id) then Rebound(rows[id], r, now)
                              else if winner.Some? && Candidate(rows[id], r) then Released(rows[id], now)
                              else rows[id]
    ensures WinnerOf(rows, r).None? <==> Candidates(rows, r) == {}
    ensures WinnerOf(rows, r).Some? ==> IsWinner(rows, r, WinnerOf(rows, r).value)
  {
    if Candidates(rows, r) != {} {
      WinnerExists(rows, r);
    } else {
      assert forall k | IsWinner(rows, r, k) :: k in Candidates(rows, r);
    }
  }

  lemma RegisterKeepsDevicesUnique(rows: Rows, r: Registration, newId: RowId, now: int, i: RowId, j: RowId)
    requires Sound(rows)
    requires i in Registered(rows, r, newId, now) && j in Registered(rows, r, newId, now)
    requires Registered(rows, r, newId, now)[i].device == Registered(rows, r, newId, now)[j].device
    ensures i == j
  {
    RowFate(rows, r, newId, now, i);
    RowFate(rows, r, newId, now, j);
    assert i in rows && Candidate(rows[i], r) ==> i in Candidates(rows, r);
    assert j in rows && Candidate(rows[j], r) ==> j in Candidates(rows, r);
  }

  lemma RegisterKeepsFingerprintsUnique(rows: Rows, r: Registration, newId: RowId, now: int, i: RowId, j: RowId)
    requires Sound(rows)
    requires i in Registered(rows, r, newId, now) && j in Registered(rows, r, newId, now)
    requires var f := Registered(rows, r, newId, now)[i].fingerprint;
             f.Some? && f == Registered(rows, r, newId, now)[j].fingerprint
    ensures i == j
  {
    RowFate(rows, r, newId, now, i);
    RowFate(rows, r, newId, now, j);
    assert i in rows && Candidate(rows[i], r) ==> i in Candidates(rows, r);
    assert j in rows && Candidate(rows[j], r) ==> j in Candidates(rows, r);
  }

  lemma RegisterKeepsSound(rows: Rows, r: Registration, newId: RowId, now: int)
    requires Sound(rows)
    ensures Sound(Registered(rows, r, newId, now))
  {
    var after := Registered(rows, r, newId, now);
    forall i, j | i in after && j in after && after[i].device == after[j].device ensures i == j {
      RegisterKeepsDevicesUnique(rows, r, newId, now, i, j);
    }
    forall i, j | i in after && j in after && after[i].fingerprint.Some? && after[i].fingerprint == after[j].fingerprint
      ensures i == j
    {
      RegisterKeepsFingerprintsUnique(rows, r, newId, now, i, j);
    }
    forall i | i in after && after[i].fingerprint.Some?
      ensures after[i].fingerprint.value == Sha256(after[i].token) && after[i].active
    {
      RowFate(rows, r, newId, now, i);
    }
  }

  lemma StepKeepsSound(rows: Rows, s: Step)
    requires Sound(rows)
    ensures Sound(Apply(rows, s))
  {
    if s.Register? {
      RegisterKeepsSound(rows, s.registration, s.newId, s.now);
    } else {
      var after := Apply(rows, s);
      forall i | i in after
        ensures i in rows && after[i].device == rows[i].device && after[i].token == rows[i].token
        ensures after[i].fingerprint.Some? ==> after[i].fingerprint == rows[i].fingerprint && after[i].active == rows[i].active
      {
      }
    }
  }

  /** In every reachable table a fingerprint is on at most one row, an active one, and is that of its token. */
  lemma {:induction false} RunKeepsSound(rows: Rows, steps: seq<Step>, n: nat)
    requires Sound(rows) && n <= |steps|
    ensures Sound(After(rows, steps, n))
  {
    if n > 0 {
      RunKeepsSound(rows, steps, n - 1);
      StepKeepsSound(After(rows, steps, n - 1), steps[n - 1]);
    }
  }

  // ----- What each step does to the rows ------------------------------------------------------

  /** The row is switched off and unbound, and is otherwise as it was. */
  predicate SwitchedOff(d: Device, after: Device, now: int) {
    && !after.active && after.fingerprint == None && after.updated == now
    && after.user == d.user && after.device == d.device && after.token == d.token && after.version == d.version
    && after.deleted == d.deleted && after.build == d.build && after.lastSeen == d.lastSeen
  }

  /** Row `a` was seen at least as recently as `b`, and of rows seen alike it was updated no earlier, or has the larger id. */
  predicate NoLater(rows: Rows, a: RowId, b: RowId)
    requires a in rows && b in rows
  {
    && (rows[b].lastSeen.Some? ==> rows[a].lastSeen.Some? && rows[a].lastSeen.value >= rows[b].lastSeen.value)
    && (rows[a].lastSeen == rows[b].lastSeen ==> rows[a].updated >= rows[b].updated)
    && (rows[a].lastSeen == rows[b].lastSeen && rows[a].updated == rows[b].updated ==> a >= b)
  }

  /** The registration's row: that of the device, or the first with the token, or a new one if there is neither. */
  ghost predicate RightRow(rows: Rows, r: Registration, newId: RowId, id: RowId) {
    if id in rows then
      || rows[id].device == r.device
      || (rows[id].token == r.token && forall k | k in rows :: rows[k].device != r.device && (rows[k].token == r.token ==> NoLater(rows, id, k)))
    else
      id == newId && forall k | k in rows :: rows[k].device != r.device && rows[k].token != r.token
  }

  /** The row carries the registration; its version has grown by one exactly if the binding is another one. */
  predicate Carries(rows: Rows, r: Registration, now: int, id: RowId, d: Device) {
    && d.user == Some(r.user) && d.device == r.device && d.token == r.token && d.fingerprint == Some(Sha256(r.token))
    && d.active && !d.deleted && d.build == r.build && d.lastSeen == Some(now) && d.updated == now
    && d.version == if id !in rows then 1
                    else if rows[id].user == d.user && rows[id].device == d.device && rows[id].fingerprint == d.fingerprint
                            && rows[id].active && !rows[id].deleted then rows[id].version
                    else rows[id].version + 1
  }

  ghost predicate BoundAs(rows: Rows, r: Registration, newId: RowId, now: int, id: RowId, after: Rows) {
    && after.Keys == rows.Keys + {id}
    && RightRow(rows, r, newId, id) && Carries(rows, r, now, id, after[id])
    && (forall k | k in rows && k != id ::
          if rows[k].device == r.device || rows[k].token == r.token then SwitchedOff(rows[k], after[k], now) else after[k] == rows[k])
  }

  lemma WinnerIsRight(rows: Rows, r: Registration, newId: RowId)
    requires Sound(rows) && newId !in rows
    ensures RightRow(rows, r, newId, WinnerOf(rows, r).GetOr(newId))
  {
    var winner := WinnerOf(rows, r);
    if winner.None? {
      forall k | k in rows ensures rows[k].device != r.device && rows[k].token != r.token {
        if Candidate(rows[k], r) {
          assert k in Candidates(rows, r);
          WinnerExists(rows, r);
        }
      }
    } else if rows[winner.value].device != r.device {
      forall k | k in rows && rows[k].token == r.token ensures NoLater(rows, winner.value, k) {
        assert k in Candidates(rows, r);
      }
    }
  }

  /** A registration's token ends on the one right row, bound to the account; every other row of its device or token is switched off. */
  lemma RegisterBinds(rows: Rows, r: Registration, newId: RowId, now: int) returns (id: RowId)
    requires Sound(rows) && newId !in rows
    ensures var after := Registered(rows, r, newId, now);
            && BoundAs(rows, r, newId, now, id, after)
            && (forall k | k in after && k != id ::
                  && after[k].device != r.device
                  && after[k].fingerprint != Some(Sha256(r.token))
                  && (after[k].token == r.token ==> !after[k].active))
  {
    id := WinnerOf(rows, r).GetOr(newId);
    var after := Registered(rows, r, newId, now);
    WinnerIsRight(rows, r, newId);
    RegisterKeepsSound(rows, r, newId, now);
    RowFate(rows, r, newId, now, id);
    forall k | k in rows && k != id
      ensures if Candidate(rows[k], r) then SwitchedOff(rows[k], after[k], now) else after[k] == rows[k]
    {
      RowFate(rows, r, newId, now, k);
      assert Candidate(rows[k], r) ==> k in Candidates(rows, r);
    }
  }

  /** After a logout no undeleted row of the user and device is active: the one that was is switched off, and no other row changes. */
  ghost predicate LoggedOut(rows: Rows, user: string, device: string, now: int, after: Rows) {
    && after.Keys == rows.Keys
    && (forall id | id in after && after[id].user == Some(user) && after[id].device == device && !after[id].deleted :: !after[id].active)
    && (forall id | id in rows ::
          if rows[id].user == Some(user) && rows[id].device == device && rows[id].active && !rows[id].deleted
          then SwitchedOff(rows[id], after[id], now) else after[id] == rows[id])
  }

  /** A verdict switches off the row exactly if user, device, fingerprint and version are those it is about and the row is active. */
  ghost predicate JudgedAs(rows: Rows, b: Binding, now: int, after: Rows) {
    && after.Keys == rows.Keys
    && (forall id | id in rows ::
          if id == b.id && rows[id].user == Some(b.user) && rows[id].device == b.device && rows[id].fingerprint == Some(b.fingerprint)
             && rows[id].version == b.version && rows[id].active
          then SwitchedOff(rows[id], after[id], now) else after[id] == rows[id])
  }

  lemma StepEffects(rows: Rows, s: Step)
    requires !s.Register?
    ensures s.Logout? ==> LoggedOut(rows, s.user, s.device, s.now, Apply(rows, s))
    ensures s.Verdict? ==> JudgedAs(rows, s.binding, s.now, Apply(rows, s))
    ensures s.SoftDelete? ==>
              && Apply(rows, s).Keys == rows.Keys
              && forall id | id in rows :: Apply(rows, s)[id] == if id == s.id then rows[id].(deleted := true, updated := s.now) else rows[id]
  {
  }

  // ----- Versions name bindings -------------------------------------------------------------

  /** How a row may move on: its version grows, or an active row is still bound as it was. */
  ghost predicate Succeeds(a: Device, b: Device) {
    && a.version <= b.version
    && (a.version == b.version && b.active ==>
          a.active && a.user == b.user && a.device == b.device && a.fingerprint == b.fingerprint)
  }

  lemma StepSucceeds(rows: Rows, s: Step, id: RowId)
    requires id in rows
    ensures id in Apply(rows, s) && Succeeds(rows[id], Apply(rows, s)[id])
  {
    if s.Register? {
      RowFate(rows, s.registration, s.newId, s.now, id);
    }
  }

  lemma SucceedsIsTransitive(a: Device, b: Device, c: Device)
    requires Succeeds(a, b) && Succeeds(b, c)
    ensures Succeeds(a, c)
  {
  }

  ghost predicate RowSucceeds(rows: Rows, rows': Rows, id: RowId) {
    id in rows ==> id in rows' && Succeeds(rows[id], rows'[id])
  }

  lemma MomentSucceeds(rows: Rows, steps: seq<Step>, k: nat, id: RowId)
    requires k < |steps|
    ensures RowSucceeds(After(rows, steps, k), After(rows, steps, k + 1), id)
  {
    if id in After(rows, steps, k) {
      StepSucceeds(After(rows, steps, k), steps[k], id);
    }
  }

  /** The tables of a run, moment by moment. */
  ghost function Tables(rows: Rows, steps: seq<Step>): (tables: seq<Rows>)
    ensures |tables| == |steps| + 1 && forall k | 0 <= k <= |steps| :: tables[k] == After(rows, steps, k)
  {
    seq(|steps| + 1, k requires 0 <= k <= |steps| => After(rows, steps, k))
  }

  lemma TablesSucceed(rows: Rows, steps: seq<Step>, id: RowId)
    ensures forall k | 0 <= k < |steps| :: RowSucceeds(Tables(rows, steps)[k], Tables(rows, steps)[k + 1], id)
  {
    forall k | 0 <= k < |steps| ensures RowSucceeds(Tables(rows, steps)[k], Tables(rows, steps)[k + 1], id) {
      MomentSucceeds(rows, steps, k, id);
    }
  }

  lemma {:induction false} SucceedsAlong(tables: seq<Rows>, i: nat, j: nat, id: RowId)
    requires i <= j < |tables| && id in tables[i]
    requires forall k | 0 <= k < |tables| - 1 :: RowSucceeds(tables[k], tables[k + 1], id)
    ensures id in tables[j] && Succeeds(tables[i][id], tables[j][id])
  {
    if i < j {
      SucceedsAlong(tables, i, j - 1, id);
      assert RowSucceeds(tables[j - 1], tables[j - 1 + 1], id);
      SucceedsIsTransitive(tables[i][id], tables[j - 1][id], tables[j][id]);
    }
  }

  /** Between any two moments of a run, no version goes down, and one version of an active row names one binding. */
  lemma {:induction false} VersionsNameBindings(rows: Rows, steps: seq<Step>, i: nat, j: nat, id: RowId)
    requires i <= j <= |steps| && id in After(rows, steps, i)
    ensures id in After(rows, steps, j) && Succeeds(After(rows, steps, i)[id], After(rows, steps, j)[id])
  {
    TablesSucceed(rows, steps, id);
    SucceedsAlong(Tables(rows, steps), i, j, id);
  }

  /**
    A verdict on the binding that a row bore at moment `i` takes effect at moment `j` exactly
    when the row has borne that binding at every moment since.
   */
  lemma VerdictHitsItsOwnBinding(rows: Rows, steps: seq<Step>, i: nat, j: nat, b: Binding, now: int)
    requires i <= j <= |steps|
    requires Borne(After(rows, steps, i), b)
    ensures var was := After(rows, steps, j);
            Apply(was, Verdict(b, now)) != was <==> forall k | i <= k <= j :: Borne(After(rows, steps, k), b)
  {
    var was := After(rows, steps, j);
    VersionsNameBindings(rows, steps, i, j, b.id);
    if Apply(was, Verdict(b, now)) != was {
      forall k | i <= k <= j ensures Borne(After(rows, steps, k), b) {
        VersionsNameBindings(rows, steps, i, k, b.id);
        VersionsNameBindings(rows, steps, k, j, b.id);
      }
    }
    if Bears(was[b.id], b) {
      assert Apply(was, Verdict(b, now))[b.id] == Released(was[b.id], now);
    }
  }

  /** Once a row stops bearing a binding, every verdict on that binding is void for ever. */
  lemma OldVerdictIsVoid(rows: Rows, steps: seq<Step>, i: nat, j: nat, b: Binding, now: int)
    requires i < j <= |steps|
    requires Borne(After(rows, steps, i), b)
    requires !(Borne(After(rows, steps, i + 1), b))
    ensures Apply(After(rows, steps, j), Verdict(b, now)) == After(rows, steps, j)
  {
    VerdictHitsItsOwnBinding(rows, steps, i, j, b, now);
    assert i <= i + 1 <= j;
  }

  // ----- The service ------------------------------------------------------------------------

  ghost predicate Ordered(rows: Rows, ids: seq<RowId>) {
    && (forall id | id in ids :: id in rows)
    && (forall i, j | 0 <= i < j < |ids| :: ids[i] != ids[j] && Precedes(rows, ids[i], ids[j]))
  }

  function Inserted(rows: Rows, ids: seq<RowId>, id: RowId): (r: seq<RowId>)
    requires id in rows && forall k | k in ids :: k in rows
    ensures forall k :: k in r <==> k in ids || k == id
  {
    if ids == [] then [id]
    else if Precedes(rows, id, ids[0]) then [id] + ids
    else [ids[0]] + Inserted(rows, ids[1..], id)
  }

  lemma PrependOrdered(rows: Rows, first: RowId, ids: seq<RowId>)
    requires Ordered(rows, ids) && first in rows
    requires forall k | k in ids :: first != k && Precedes(rows, first, k)
    ensures Ordered(rows, [first] + ids)
  {
    var r := [first] + ids;
    forall i, j | 0 <= i < j < |r| ensures r[i] != r[j] && Precedes(rows, r[i], r[j]) {
      if i == 0 {
        assert r[j] in ids;
      } else {
        assert r[i] == ids[i - 1] && r[j] == ids[j - 1];
      }
    }
  }

  lemma TailOrdered(rows: Rows, ids: seq<RowId>)
    requires Ordered(rows, ids) && ids != []
    ensures Ordered(rows, ids[1..]) && ids == [ids[0]] + ids[1..]
    ensures forall k | k in ids[1..] :: ids[0] != k && Precedes(rows, ids[0], k)
  {
  }

  lemma {:induction false} InsertedOrdered(rows: Rows, ids: seq<RowId>, id: RowId)
    requires Ordered(rows, ids) && id in rows && id !in ids
    ensures Ordered(rows, Inserted(rows, ids, id))
  {
    if ids == [] {
      PrependOrdered(rows, id, ids);
    } else if Precedes(rows, id, ids[0]) {
      TailOrdered(rows, ids);
      forall k | k in ids ensures id != k && Precedes(rows, id, k) {
        PrecedesIsLinear(rows, id, ids[0], k);
      }
      PrependOrdered(rows, id, ids);
    } else {
      TailOrdered(rows, ids);
      InsertedOrdered(rows, ids[1..], id);
      PrecedesIsLinear(rows, ids[0], id, id);
      PrependOrdered(rows, ids[0], Inserted(rows, ids[1..], id));
    }
  }

  lemma ChosenIsWinner(rows: Rows, r: Registration, ids: seq<RowId>, chosen: RowId)
    requires DevicesUnique(rows) && Ordered(rows, ids) && Elements(ids) == Candidates(rows, r)
    requires chosen in ids
    requires rows[chosen].device == r.device || (chosen == ids[0] && forall k | k in ids :: rows[k].device != r.device)
    ensures WinnerOf(rows, r) == Some(chosen)
  {
    assert chosen in Elements(ids);
    if rows[chosen].device != r.device {
      forall k | k in rows ensures Candidate(rows[k], r) ==> k in ids {
        assert Candidate(rows[k], r) ==> k in Candidates(rows, r);
        assert k in Elements(ids) ==> k in ids;
      }
      forall other | other in Candidates(rows, r) && other != chosen ensures Precedes(rows, chosen, other) {
        assert other in Elements(ids);
      }
    }
    assert IsWinner(rows, r, chosen);
    WinnerIsUnique(rows, r, chosen, WinnerOf(rows, r).value);
  }

  ghost function LosersReleased(rows: Rows, candidates: seq<RowId>, winner: Option<RowId>, now: int): Rows {
    map id | id in rows :: if id in candidates && winner != Some(id) then Released(rows[id], now) else rows[id]
  }

  lemma OneMoreReleased(rows: Rows, candidates: seq<RowId>, i: nat, winner: Option<RowId>, now: int)
    requires Ordered(rows, candidates) && i < |candidates|
    ensures var before, id := LosersReleased(rows, candidates[..i], winner, now), candidates[i];
            && id in before
            && LosersReleased(rows, candidates[..i + 1], winner, now)
            == if winner != Some(id) then before[id := Released(before[id], now)] else before
  {
    var before, id := LosersReleased(rows, candidates[..i], winner, now), candidates[i];
    assert candidates[..i + 1] == candidates[..i] + [id];
    assert id !in candidates[..i];
  }

  /** Releasing the losers and then saving the winner, or the new row, is the registration. */
  lemma ReleaseThenSave(rows: Rows, r: Registration, candidates: seq<RowId>, newId: RowId, now: int)
    requires newId !in rows && Elements(candidates) == Candidates(rows, r)
    ensures var winner := WinnerOf(rows, r);
            var released := LosersReleased(rows, candidates, winner, now);
            match winner
            case None => Registered(rows, r, newId, now) == released[newId := Created(r, now)]
            case Some(w) =>
              w in released && released[w] == rows[w] && Registered(rows, r, newId, now) == released[w := Rebound(rows[w], r, now)]
  {
    var winner := WinnerOf(rows, r);
    assert winner.Some? ==> IsWinner(rows, r, winner.value);
    forall id | id in rows ensures id in candidates <==> Candidate(rows[id], r) {
      assert id in Elements(candidates) <==> id in Candidates(rows, r);
    }
    if winner.None? {
      RowFate(rows, r, newId, now, newId);
      forall id | id in rows ensures id !in candidates {
        assert Candidate(rows[id], r) ==> id in Candidates(rows, r);
      }
      assert LosersReleased(rows, candidates, winner, now) == rows;
    }
  }

  class Devices {
    var rows: Rows

    constructor (rows: Rows)
      requires Sound(rows)
      ensures this.rows == rows && Sound(this.rows)
    {
      this.rows := rows;
    }

    /** The rows of the same device or token, soft-deleted ones too, in order. */
    method SelectCandidates(r: Registration) returns (ids: seq<RowId>)
      ensures Ordered(rows, ids) && Elements(ids) == Candidates(rows, r)
    {
      ids := [];
      var todo := rows.Keys;
      while todo != {}
        invariant todo <= rows.Keys
        invariant Ordered(rows, ids)
        invariant forall k :: k in ids <==> k in rows && k !in todo && Candidate(rows[k], r)
      {
        var id :| id in todo;
        todo := todo - {id};
        if Candidate(rows[id], r) {
          InsertedOrdered(rows, ids, id);
          ids := Inserted(rows, ids, id);
        }
      }
    }

    method FindWinner(r: Registration, candidates: seq<RowId>) returns (winner: Option<RowId>)
      requires Sound(rows) && Ordered(rows, candidates) && Elements(candidates) == Candidates(rows, r)
      ensures winner == WinnerOf(rows, r)
    {
      winner := None;
      for i := 0 to |candidates|
        invariant winner.None? ==> forall k | k in candidates[..i] :: rows[k].device != r.device
        invariant winner.Some? ==> winner.value in candidates && rows[winner.value].device == r.device
      {
        if winner.None? && rows[candidates[i]].device == r.device {
          winner := Some(candidates[i]);
        }
      }
      if winner.None? && |candidates| > 0 {
        winner := Some(candidates[0]);
      }
      if winner.Some? {
        ChosenIsWinner(rows, r, candidates, winner.value);
      } else {
        assert forall k | IsWinner(rows, r, k) :: k in Candidates(rows, r);
      }
    }

    method ReleaseLosers(candidates: seq<RowId>, winner: Option<RowId>, now: int)
      requires Ordered(rows, candidates)
      modifies this
      ensures rows == LosersReleased(old(rows), candidates, winner, now)
    {
      assert rows == LosersReleased(rows, candidates[..0], winner, now);
      for i := 0 to |candidates|
        invariant rows == LosersReleased(old(rows), candidates[..i], winner, now)
      {
        OneMoreReleased(old(rows), candidates, i, winner, now);
        if winner != Some(candidates[i]) {
          rows := rows[candidates[i] := Released(rows[candidates[i]], now)];
        }
      }
      assert candidates[..|candidates|] == candidates;
    }

    method Register(r: Registration, newId: RowId, now: int) returns (saved: Device)
      requires Sound(rows) && newId !in rows
      modifies this
      ensures Sound(rows) && rows == Registered(old(rows), r, newId, now)
      ensures exists id :: id in rows && rows[id] == saved && BoundAs(old(rows), r, newId, now, id, rows)
    {
      ghost var bound := RegisterBinds(rows, r, newId, now);
      var candidates := SelectCandidates(r);
      var winner := FindWinner(r, candidates);
      RegisterKeepsSound(rows, r, newId, now);
      ReleaseThenSave(rows, r, candidates, newId, now);
      ReleaseLosers(candidates, winner, now);
      if winner.None? {
        saved := Created(r, now);
        rows := rows[newId := saved];
        assert rows[newId] == saved;
      } else {
        saved := Rebound(rows[winner.value], r, now);
        rows := rows[winner.value := saved];
        assert rows[winner.value] == saved;
      }
    }

    method DisableOwnedDevice(user: string, device: string, now: int)
      requires Sound(rows)
      modifies this
      ensures Sound(rows) && rows == Apply(old(rows), Logout(user, device, now))
      ensures LoggedOut(old(rows), user, device, now, rows)
    {
      if id :| id in rows && OwnedBy(rows[id], user, device) {
        rows := rows[id := Released(rows[id], now)];
      }
      assert rows == Apply(old(rows), Logout(user, device, now));
      StepEffects(old(rows), Logout(user, device, now));
    }

    method DisableInvalidDevice(expected: Binding, now: int) returns (disabled: bool)
      requires Sound(rows)
      modifies this
      ensures Sound(rows) && rows == Apply(old(rows), Verdict(expected, now))
      ensures disabled <==> Borne(old(rows), expected)
      ensures JudgedAs(old(rows), expected, now, rows)
    {
      StepEffects(rows, Verdict(expected, now));
      disabled := Borne(rows, expected);
      if disabled {
        rows := rows[expected.id := Released(rows[expected.id], now)];
      }
    }
  }
}
