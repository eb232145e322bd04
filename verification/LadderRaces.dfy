/** The edits of a ladder as they interleave: each reads and checks first and writes later. Exactly when it stays acyclic. */
module LadderRaces {
  import opened Basics
  import opened LadderGraph
  import opened LadderEdits

  type OpId = nat

  /**
    An edit between its read and its write: the edges it is going to remove and to add, what it
    takes the ladder to become, and the edges that were written since it read them.
   */
  datatype Change = Change(edit: Edit, removed: set<Arc>, added: set<Arc>, planned: set<Arc>, since: set<Arc>)

  datatype Race = Race(ladder: LadderState, changes: map<OpId, Change>)

  datatype Act =
    | Read(op: OpId, edit: Edit)
    | Write(op: OpId)
    | Abort(op: OpId)

  /** The edges that an edit leaves alone. */
  ghost function Spared(arcs: set<Arc>, e: Edit): set<Arc> {
    match e
    case CreateRung(_, _) => arcs
    case SetNextRungs(r, _) => Rest(arcs, r)
    case SaveStage(r, _, _, _) => Untouched(arcs, r)
    case DeleteRung(r, _) => Untouched(arcs, r)
  }

  /** The edges that do not leave the rung. */
  ghost function Rest(arcs: set<Arc>, r: RungId): set<Arc> {
    set a | a in arcs && a.from != Rung(r)
  }

  ghost function Planned(s: LadderState, e: Edit): Change {
    var after, spared := Apply(s, e).arcs, Spared(s.arcs, e);
    Change(e, s.arcs - spared, after - spared, after, {})
  }

  /** Next rungs are removed by their source; the other edits remove the edges they read, by id. */
  ghost function Gone(arcs: set<Arc>, c: Change): set<Arc> {
    if c.edit.SetNextRungs? then arcs - Rest(arcs, c.edit.rung) else arcs * c.removed - c.since
  }

  ghost function Result(arcs: set<Arc>, c: Change): set<Arc> {
    arcs - Gone(arcs, c) + c.added
  }

  ghost function LiveAfter(live: set<RungId>, e: Edit): set<RungId> {
    match e
    case CreateRung(r, _) => live + {r}
    case SetNextRungs(_, _) => live
    case SaveStage(r, _, _, _) => live + {r}
    case DeleteRung(r, _) => live - {r}
  }

  /** A stage is saved under the store's lock, the other edits without one; no edge may be there twice. */
  ghost predicate Enabled(s: Race, a: Act) {
    match a
    case Read(op, e) =>
      && op !in s.changes && Refused(s.ladder, e).None?
      && (e.SaveStage? ==> forall o | o in s.changes :: !s.changes[o].edit.SaveStage?)
    case Write(op) =>
      op in s.changes && s.changes[op].added !! (s.ladder.arcs - Gone(s.ladder.arcs, s.changes[op]))
    case Abort(op) => op in s.changes
  }

  ghost function Later(c: Change, gone: set<Arc>, added: set<Arc>): Change {
    c.(since := c.since - gone + added)
  }

  ghost function Next(s: Race, a: Act): Race
    requires Enabled(s, a)
  {
    match a
    case Read(op, e) => s.(changes := s.changes[op := Planned(s.ladder, e)])
    case Write(op) =>
      var c := s.changes[op];
      var gone := Gone(s.ladder.arcs, c);
      Race(LadderState(LiveAfter(s.ladder.live, c.edit), Result(s.ladder.arcs, c)),
           map o | o in s.changes && o != op :: Later(s.changes[o], gone, c.added))
    case Abort(op) => s.(changes := s.changes - {op})
  }

  ghost predicate Moved(states: seq<Race>, acts: seq<Act>, k: nat)
    requires k < |acts| && |states| == |acts| + 1
  {
    Enabled(states[k], acts[k]) && states[k + 1] == Next(states[k], acts[k])
  }

  ghost predicate Execution(states: seq<Race>, acts: seq<Act>) {
    && |states| == |acts| + 1
    && !Cyclic(states[0].ladder.arcs) && states[0].changes == map[]
    && forall k | 0 <= k < |acts| :: Moved(states, acts, k)
  }

  // ----- Alone, an edit is what it was -------------------------------------------------------------------

  lemma SparedStays(s: LadderState, e: Edit)
    requires Refused(s, e).None?
    ensures Spared(s.arcs, e) <= s.arcs && Spared(s.arcs, e) <= Apply(s, e).arcs
    ensures Apply(s, e).live == LiveAfter(s.live, e)
  {
  }

  /** An edit whose write follows its read at once does what it does as a whole. */
  lemma AloneIsWhole(s: Race, op: OpId, e: Edit)
    requires Enabled(s, Read(op, e))
    ensures var t := Next(s, Read(op, e)); Enabled(t, Write(op)) && Next(t, Write(op)) == Race(Apply(s.ladder, e), Next(t, Write(op)).changes)
  {
    SparedStays(s.ladder, e);
    var t := Next(s, Read(op, e));
    var c, arcs := t.changes[op], s.ladder.arcs;
    assert c == Planned(s.ladder, e);
    assert Gone(arcs, c) == arcs - Spared(arcs, e);
    assert arcs - Gone(arcs, c) == Spared(arcs, e);
    assert Result(arcs, c) == Apply(s.ladder, e).arcs;
  }

  // ----- When a replacement closes a cycle --------------------------------------------------------------

  /** A walk to `r` comes to `r` for the first time over edges that do not leave it. */
  lemma {:induction false} FirstArrival(arcs: set<Arc>, r: RungId, nexts: set<RungId>, p: seq<Node>)
    requires Walk(NextArcs(arcs, r, nexts), p) && p[|p| - 1] == Rung(r)
    ensures Reaches(Rest(arcs, r), p[0], Rung(r))
    decreases |p|
  {
    if p[0] == Rung(r) {
      ReachesSelf(Rest(arcs, r), p[0]);
    } else {
      assert Linked(NextArcs(arcs, r, nexts), p[0], p[1]);
      assert Linked(Rest(arcs, r), p[0], p[1]);
      WalkSuffix(NextArcs(arcs, r, nexts), p, 1);
      FirstArrival(arcs, r, nexts, p[1..]);
      ReachesArc(Rest(arcs, r), p[0], p[1]);
      ReachesTransitive(Rest(arcs, r), p[0], p[1], Rung(r));
    }
  }

  /** From each node of a cycle the cycle leads on to a next node and from there back. */
  lemma TurnCycle(g: set<Arc>, p: seq<Node>, i: nat) returns (q: seq<Node>)
    requires IsCycle(g, p) && i < |p| - 1
    ensures Linked(g, p[i], p[i + 1]) && WalkBetween(g, q, p[i + 1], p[i])
  {
    WalkSuffix(g, p, i + 1);
    var front := p[..i + 1];
    assert Walk(g, front) by {
      forall k | 0 <= k < i ensures Linked(g, front[k], front[k + 1]) {
        assert Linked(g, p[k], p[k + 1]);
      }
    }
    WalkConcat(g, p[i + 1..], front);
    q := p[i + 1..] + front[1..];
  }

  lemma AvoidsReplaced(arcs: set<Arc>, r: RungId, nexts: set<RungId>, p: seq<Node>)
    requires IsCycle(NextArcs(arcs, r, nexts), p) && forall i | 0 <= i < |p| - 1 :: p[i] != Rung(r)
    ensures IsCycle(arcs, p)
  {
    forall i | 0 <= i < |p| - 1 ensures Linked(arcs, p[i], p[i + 1]) {
      assert Linked(NextArcs(arcs, r, nexts), p[i], p[i + 1]);
    }
  }

  lemma CycleNeedsReplaced(arcs: set<Arc>, r: RungId, nexts: set<RungId>, p: seq<Node>)
    requires !Cyclic(arcs) && IsCycle(NextArcs(arcs, r, nexts), p)
    ensures exists t :: t in nexts && Reaches(Rest(arcs, r), Rung(t), Rung(r))
  {
    var g := NextArcs(arcs, r, nexts);
    if i :| 0 <= i < |p| - 1 && p[i] == Rung(r) {
      var q := TurnCycle(g, p, i);
      FirstArrival(arcs, r, nexts, q);
      assert p[i + 1].id in nexts;
    } else {
      AvoidsReplaced(arcs, r, nexts, p);
    }
  }

  lemma BackWalkCloses(g: set<Arc>, a: Arc, p: seq<Node>)
    requires a in g && WalkBetween(g, p, Rung(a.to), a.from)
    ensures Cyclic(g)
  {
    PrependArc(g, a.from, p);
    assert IsCycle(g, [a.from] + p);
  }

  /** A replacement closes a cycle exactly when one of the next rungs leads back over the other edges. */
  lemma ReplacedCyclesExactly(arcs: set<Arc>, r: RungId, nexts: set<RungId>)
    requires !Cyclic(arcs)
    ensures Cyclic(NextArcs(arcs, r, nexts)) <==> exists t :: t in nexts && Reaches(Rest(arcs, r), Rung(t), Rung(r))
  {
    var g := NextArcs(arcs, r, nexts);
    if Cyclic(g) {
      var p :| IsCycle(g, p);
      CycleNeedsReplaced(arcs, r, nexts, p);
    }
    if t :| t in nexts && Reaches(Rest(arcs, r), Rung(t), Rung(r)) {
      var p :| WalkBetween(Rest(arcs, r), p, Rung(t), Rung(r));
      WalkMonotone(Rest(arcs, r), g, p);
      BackWalkCloses(g, Arc(Rung(r), t), p);
    }
  }

  // ----- Which executions stay acyclic ------------------------------------------------------------------

  ghost predicate GoesOver(p: seq<Node>, arcs: set<Arc>) {
    exists i :: 0 <= i < |p| - 1 && Linked(arcs, p[i], p[i + 1])
  }

  /** An edge that the change adds is led back from its end to its start, over an edge that was written since the read. */
  ghost predicate LedBack(s: Race, op: OpId, a: Arc, p: seq<Node>) {
    && op in s.changes && a in s.changes[op].added
    && WalkBetween(Result(s.ladder.arcs, s.changes[op]), p, Rung(a.to), a.from)
    && GoesOver(p, s.changes[op].since)
  }

  ghost predicate Overtaken(s: Race, a: Act) {
    a.Write? && exists arc, p :: LedBack(s, a.op, arc, p)
  }

  /** What is there and was not written since the read, the change has read: it spares it, or it is going to remove it. */
  ghost predicate Tracked(arcs: set<Arc>, c: Change) {
    && c.added <= c.planned
    && forall a | a in arcs && a !in c.since :: a in c.planned || a in Gone(arcs, c)
  }

  ghost predicate AllTracked(s: Race) {
    forall op | op in s.changes :: Tracked(s.ladder.arcs, s.changes[op])
  }

  lemma PlannedIsTracked(s: LadderState, e: Edit)
    requires Refused(s, e).None?
    ensures Tracked(s.arcs, Planned(s, e))
  {
    SparedStays(s, e);
    var c := Planned(s, e);
    forall a | a in s.arcs ensures a in c.planned || a in Gone(s.arcs, c) {
      assert a in Spared(s.arcs, e) || a in c.removed;
    }
  }

  lemma LaterIsTracked(arcs: set<Arc>, c: Change, gone: set<Arc>, added: set<Arc>)
    requires Tracked(arcs, c)
    ensures Tracked(arcs - gone + added, Later(c, gone, added))
  {
    var after, d := arcs - gone + added, Later(c, gone, added);
    forall a | a in after && a !in d.since ensures a in d.planned || a in Gone(after, d) {
      assert a in arcs && a !in c.since;
    }
  }

  lemma ActKeepsTracked(s: Race, a: Act)
    requires AllTracked(s) && Enabled(s, a)
    ensures AllTracked(Next(s, a))
  {
    match a
    case Read(_, e) => PlannedIsTracked(s.ladder, e);
    case Write(op) =>
      var c := s.changes[op];
      var gone := Gone(s.ladder.arcs, c);
      forall o | o in Next(s, a).changes ensures Tracked(Next(s, a).ladder.arcs, Next(s, a).changes[o]) {
        LaterIsTracked(s.ladder.arcs, s.changes[o], gone, c.added);
      }
    case Abort(_) =>
  }

  lemma {:induction false} ExecutionTracks(states: seq<Race>, acts: seq<Act>, n: nat)
    requires Execution(states, acts) && n <= |acts|
    ensures AllTracked(states[n])
  {
    if n > 0 {
      ExecutionTracks(states, acts, n - 1);
      assert Moved(states, acts, n - 1);
      ActKeepsTracked(states[n - 1], acts[n - 1]);
    }
  }

  ghost predicate PlansAcyclic(s: Race) {
    forall op | op in s.changes :: !Cyclic(s.changes[op].planned)
  }

  /** A plan that was made on an acyclic ladder is acyclic. */
  lemma ActKeepsPlans(s: Race, a: Act)
    requires PlansAcyclic(s) && !Cyclic(s.ladder.arcs) && Enabled(s, a)
    ensures PlansAcyclic(Next(s, a))
  {
    if a.Read? {
      EditKeepsAcyclic(s.ladder, a.edit);
    }
  }

  lemma CycleNeedsAdded(arcs: set<Arc>, c: Change, p: seq<Node>) returns (i: nat)
    requires !Cyclic(arcs) && IsCycle(Result(arcs, c), p)
    ensures i < |p| - 1 && Linked(c.added, p[i], p[i + 1])
  {
    if forall k | 0 <= k < |p| - 1 :: !Linked(c.added, p[k], p[k + 1]) {
      WithoutAdded(arcs, c, p);
    }
    i :| 0 <= i < |p| - 1 && Linked(c.added, p[i], p[i + 1]);
  }

  lemma WithoutAdded(arcs: set<Arc>, c: Change, p: seq<Node>)
    requires IsCycle(Result(arcs, c), p) && forall k | 0 <= k < |p| - 1 :: !Linked(c.added, p[k], p[k + 1])
    ensures IsCycle(arcs, p)
  {
    forall k | 0 <= k < |p| - 1 ensures Linked(arcs, p[k], p[k + 1]) {
      assert Linked(Result(arcs, c), p[k], p[k + 1]);
    }
  }

  lemma StaysInPlan(arcs: set<Arc>, c: Change, p: seq<Node>)
    requires Tracked(arcs, c) && Walk(Result(arcs, c), p) && !GoesOver(p, c.since)
    ensures Walk(c.planned, p)
  {
    forall i | 0 <= i < |p| - 1 ensures Linked(c.planned, p[i], p[i + 1]) {
      assert Linked(Result(arcs, c), p[i], p[i + 1]) && !Linked(c.since, p[i], p[i + 1]);
    }
  }

  lemma CycleIsLedBack(s: Race, op: OpId, p: seq<Node>) returns (a: Arc, q: seq<Node>)
    requires AllTracked(s) && PlansAcyclic(s) && op in s.changes && !Cyclic(s.ladder.arcs)
    requires IsCycle(Result(s.ladder.arcs, s.changes[op]), p)
    ensures LedBack(s, op, a, q)
  {
    var c := s.changes[op];
    var i := CycleNeedsAdded(s.ladder.arcs, c, p);
    q := TurnCycle(Result(s.ladder.arcs, c), p, i);
    a := Arc(p[i], p[i + 1].id);
    if !GoesOver(q, c.since) {
      StaysInPlan(s.ladder.arcs, c, q);
      BackWalkCloses(c.planned, a, q);
    }
  }

  lemma WriteCyclesExactly(s: Race, op: OpId)
    requires AllTracked(s) && PlansAcyclic(s) && Enabled(s, Write(op)) && !Cyclic(s.ladder.arcs)
    ensures Cyclic(Next(s, Write(op)).ladder.arcs) <==> Overtaken(s, Write(op))
  {
    var g := Result(s.ladder.arcs, s.changes[op]);
    if Cyclic(g) {
      var p :| IsCycle(g, p);
      var a, q := CycleIsLedBack(s, op, p);
    }
    if a, q :| LedBack(s, op, a, q) {
      BackWalkCloses(g, a, q);
    }
  }

  lemma ActCyclesExactly(s: Race, a: Act)
    requires AllTracked(s) && PlansAcyclic(s) && Enabled(s, a) && !Cyclic(s.ladder.arcs)
    ensures Cyclic(Next(s, a).ladder.arcs) <==> Overtaken(s, a)
    ensures PlansAcyclic(Next(s, a))
  {
    ActKeepsPlans(s, a);
    if a.Write? {
      WriteCyclesExactly(s, a.op);
    }
  }

  ghost predicate AcyclicUpTo(states: seq<Race>, n: nat)
    requires n < |states|
  {
    forall k | 0 <= k <= n :: !Cyclic(states[k].ladder.arcs)
  }

  ghost predicate NoneOvertaken(states: seq<Race>, acts: seq<Act>, n: nat)
    requires n <= |acts| < |states|
  {
    forall k | 0 <= k < n :: !Overtaken(states[k], acts[k])
  }

  lemma {:induction false} AcyclicExactly(states: seq<Race>, acts: seq<Act>, n: nat)
    requires Execution(states, acts) && n <= |acts|
    ensures AcyclicUpTo(states, n) <==> NoneOvertaken(states, acts, n)
    ensures AcyclicUpTo(states, n) ==> PlansAcyclic(states[n])
  {
    if n > 0 {
      AcyclicExactly(states, acts, n - 1);
      ExecutionTracks(states, acts, n - 1);
      assert Moved(states, acts, n - 1);
      assert AcyclicUpTo(states, n) <==> AcyclicUpTo(states, n - 1) && !Cyclic(states[n].ladder.arcs);
      assert NoneOvertaken(states, acts, n) <==> NoneOvertaken(states, acts, n - 1) && !Overtaken(states[n - 1], acts[n - 1]);
      if AcyclicUpTo(states, n - 1) {
        ActCyclesExactly(states[n - 1], acts[n - 1]);
      }
    }
  }

  /**
    However the reads and writes of the edits interleave: the ladder is acyclic at every moment of
    an execution if and only if no edit is written when an edge it adds is led back, from its end
    to its start, over an edge that was written after the edit had read the ladder.
   */
  lemma StaysAcyclicExactly(states: seq<Race>, acts: seq<Act>, n: nat)
    requires Execution(states, acts) && n <= |acts|
    ensures (forall k | 0 <= k <= n :: !Cyclic(states[k].ladder.arcs)) <==> forall k | 0 <= k < n :: !Overtaken(states[k], acts[k])
  {
    AcyclicExactly(states, acts, n);
  }

  /** So it is when no edge is written between the read and the write of any edit. */
  lemma UndisturbedStaysAcyclic(states: seq<Race>, acts: seq<Act>, n: nat)
    requires Execution(states, acts) && n <= |acts|
    requires forall k | 0 <= k < n && acts[k].Write? && acts[k].op in states[k].changes :: states[k].changes[acts[k].op].since == {}
    ensures !Cyclic(states[n].ladder.arcs)
  {
    StaysAcyclicExactly(states, acts, n);
  }

  // ----- Cycles do come about ---------------------------------------------------------------------------

  /** One act more. */
  lemma Continue(states: seq<Race>, acts: seq<Act>, a: Act) returns (states': seq<Race>, acts': seq<Act>)
    requires Execution(states, acts) && Enabled(states[|acts|], a)
    ensures Execution(states', acts') && acts' == acts + [a] && states'[|acts'|] == Next(states[|acts|], a)
  {
    states', acts' := states + [Next(states[|acts|], a)], acts + [a];
    forall k | 0 <= k < |acts'| ensures Moved(states', acts', k) {
      if k < |acts| {
        assert Moved(states, acts, k);
      }
    }
  }

  lemma BackAndForth(g: set<Arc>, a: RungId, b: RungId)
    requires Arc(Rung(a), b) in g && Arc(Rung(b), a) in g
    ensures Cyclic(g)
  {
    var c := [Rung(a), Rung(b), Rung(a)];
    assert Linked(g, c[0], c[1]) && Linked(g, c[1], c[2]);
    assert IsCycle(g, c);
  }

  const PAIR: LadderState := LadderState({1, 2}, {})

  lemma ReplacementAllowed(s: LadderState, a: RungId, b: RungId, order: seq<RungId>)
    requires a in s.live && b in s.live && a != b
    requires Ordered(NextArcs(s.arcs, a, {b}), order) && forall x | x in NextArcs(s.arcs, a, {b}) && x.from.Rung? :: x.from.id in order
    ensures Refused(s, SetNextRungs(a, [b])).None? && Apply(s, SetNextRungs(a, [b])).arcs == NextArcs(s.arcs, a, {b})
  {
    assert Elements([b]) == {b};
    OrderedIsAcyclic(NextArcs(s.arcs, a, {b}), order);
  }

  lemma PairAllowed(a: RungId, b: RungId)
    requires a in PAIR.live && b in PAIR.live && a != b
    ensures Refused(PAIR, SetNextRungs(a, [b])).None?
    ensures Planned(PAIR, SetNextRungs(a, [b])) == Change(SetNextRungs(a, [b]), {}, {Arc(Rung(a), b)}, {Arc(Rung(a), b)}, {})
  {
    var order := [b, a];
    assert order[..1] == [b];
    assert NextArcs({}, a, {b}) == {Arc(Rung(a), b)};
    ReplacementAllowed(PAIR, a, b, order);
  }

  /** Two replacements at once can close a cycle: each passes its check before the other is written. */
  lemma TwoCanCloseACycle() returns (states: seq<Race>, acts: seq<Act>)
    ensures Execution(states, acts) && Cyclic(states[|acts|].ladder.arcs)
  {
    var forth, back := SetNextRungs(1, [2]), SetNextRungs(2, [1]);
    OrderedIsAcyclic({}, []);
    PairAllowed(1, 2);
    PairAllowed(2, 1);
    states, acts := [Race(PAIR, map[])], [];
    states, acts := Continue(states, acts, Read(0, forth));
    states, acts := Continue(states, acts, Read(1, back));
    states, acts := Continue(states, acts, Write(0));
    states, acts := Continue(states, acts, Write(1));
    BackAndForth(states[|acts|].ladder.arcs, 1, 2);
  }

  const CHAIN: LadderState := LadderState({1, 2, 3}, {Arc(Rung(1), 2), Arc(Rung(2), 3)})
  const CUT: LadderState := LadderState({1, 2, 3}, {Arc(Rung(2), 3)})

  lemma ChainAcyclic()
    ensures !Cyclic(CHAIN.arcs) && !Cyclic(CUT.arcs)
  {
    var order := [3, 2, 1];
    assert order[..1] == [3] && order[..2] == [3, 2];
    OrderedIsAcyclic(CHAIN.arcs, order);
    OrderedIsAcyclic(CUT.arcs, order);
  }

  lemma BridgeOfMiddle(a: Arc)
    ensures IsBridge(CHAIN.arcs, 2, a) <==> a == Arc(Rung(1), 3)
  {
    if IsBridge(CHAIN.arcs, 2, a) {
      assert a.from == Rung(1) && a.to == 3;
    }
  }

  lemma MiddleBridged()
    ensures AfterRemoval(CHAIN.arcs, 2) == {Arc(Rung(1), 3)} && Untouched(CHAIN.arcs, 2) == {}
  {
    forall a ensures a in AfterRemoval(CHAIN.arcs, 2) <==> a == Arc(Rung(1), 3) {
      AfterRemovalArcs(CHAIN.arcs, 2, a);
      BridgeOfMiddle(a);
    }
  }

  lemma RemovalOfMiddle()
    ensures Planned(CHAIN, DeleteRung(2, 0))
         == Change(DeleteRung(2, 0), CHAIN.arcs, {Arc(Rung(1), 3)}, {Arc(Rung(1), 3)}, {})
  {
    MiddleBridged();
  }

  lemma CutFirst()
    ensures Refused(CHAIN, SetNextRungs(1, [])).None?
    ensures Planned(CHAIN, SetNextRungs(1, [])) == Change(SetNextRungs(1, []), {Arc(Rung(1), 2)}, {}, CUT.arcs, {})
  {
    ChainAcyclic();
    assert NextArcs(CHAIN.arcs, 1, Elements([])) == CUT.arcs;
  }

  lemma LinkBack()
    ensures Refused(CUT, SetNextRungs(3, [1])).None?
    ensures Planned(CUT, SetNextRungs(3, [1]))
         == Change(SetNextRungs(3, [1]), {}, {Arc(Rung(3), 1)}, {Arc(Rung(2), 3), Arc(Rung(3), 1)}, {})
  {
    var order := [1, 3, 2];
    assert order[..1] == [1] && order[..2] == [1, 3];
    assert NextArcs(CUT.arcs, 3, {1}) == {Arc(Rung(2), 3), Arc(Rung(3), 1)};
    ReplacementAllowed(CUT, 3, 1, order);
  }

  /** The deletion of the middle rung, once the edge before it was removed and the last rung was linked to the first. */
  ghost predicate AboutToBridge(s: Race) {
    && s.ladder == LadderState({1, 2, 3}, {Arc(Rung(2), 3), Arc(Rung(3), 1)}) && 0 in s.changes
    && s.changes[0] == Change(DeleteRung(2, 0), CHAIN.arcs, {Arc(Rung(1), 3)}, {Arc(Rung(1), 3)}, {Arc(Rung(3), 1)})
  }

  ghost predicate Unbridged(acts: seq<Act>) {
    forall k | 0 <= k < |acts| && acts[k].Read? :: acts[k].edit.DeleteRung? || acts[k].edit.SetNextRungs?
  }

  lemma CutWhileDeleting() returns (states: seq<Race>, acts: seq<Act>)
    ensures Execution(states, acts) && Unbridged(acts)
    ensures states[|acts|]
         == Race(CUT, map[0 := Change(DeleteRung(2, 0), CHAIN.arcs, {Arc(Rung(1), 3)}, {Arc(Rung(1), 3)}, {})])
  {
    ChainAcyclic();
    RemovalOfMiddle();
    CutFirst();
    states, acts := [Race(CHAIN, map[])], [];
    states, acts := Continue(states, acts, Read(0, DeleteRung(2, 0)));
    states, acts := Continue(states, acts, Read(1, SetNextRungs(1, [])));
    states, acts := Continue(states, acts, Write(1));
    var last := states[|acts|];
    assert last.ladder.arcs == CUT.arcs && last.changes.Keys == {0} && last.changes[0].since == {};
  }

  lemma LinkedWhileDeleting() returns (states: seq<Race>, acts: seq<Act>)
    ensures Execution(states, acts) && Unbridged(acts) && AboutToBridge(states[|acts|])
  {
    LinkBack();
    states, acts := CutWhileDeleting();
    states, acts := Continue(states, acts, Read(1, SetNextRungs(3, [1])));
    states, acts := Continue(states, acts, Write(1));
    assert states[|acts|].ladder.arcs == {Arc(Rung(2), 3), Arc(Rung(3), 1)};
  }

  /** So can a deletion: its bridge stands for a path that was cut after it was read, and led back before it is written. */
  lemma DeletionCanCloseACycle() returns (states: seq<Race>, acts: seq<Act>)
    ensures Execution(states, acts) && Cyclic(states[|acts|].ladder.arcs)
    ensures forall k | 0 <= k < |acts| && acts[k].Read? :: acts[k].edit.DeleteRung? || acts[k].edit.SetNextRungs?
  {
    states, acts := LinkedWhileDeleting();
    states, acts := Continue(states, acts, Write(0));
    BackAndForth(states[|acts|].ladder.arcs, 1, 3);
  }
}
