/** The edits of a career ladder as functions on its graph, and what every run of them keeps. */
module LadderEdits {
  import opened Basics
  import opened LadderGraph

  datatype LadderState = LadderState(live: set<RungId>, arcs: set<Arc>)

  datatype Refusal =
    | NotFound
    | NotFresh
    | InUse
    | SourceNotInLadder
    | PreviousAndNext
    | LinksToItself
    | NotInLadder
    | MakesCycle

  datatype Edit =
    | CreateRung(rung: RungId, fromRungs: seq<RungId>)
    | SetNextRungs(rung: RungId, nexts: seq<RungId>)
    | SaveStage(rung: RungId, isNew: bool, previousInput: Option<seq<RungId>>, nextInput: Option<seq<RungId>>)
    | DeleteRung(rung: RungId, holders: nat)

  ghost predicate Fresh(s: LadderState, r: RungId) {
    r !in s.live && forall a | a in s.arcs :: !Touches(a, r)
  }

  ghost predicate HasLiveEntry(s: LadderState) {
    exists x | x in s.live :: Arc(Entry, x) in s.arcs
  }

  ghost function ArcsFrom(froms: set<RungId>, to: RungId): set<Arc> {
    set f | f in froms :: Arc(Rung(f), to)
  }

  ghost function ArcsTo(from: Node, tos: set<RungId>): set<Arc> {
    set t | t in tos :: Arc(from, t)
  }

  // ----- Creating a rung -----------------------------------------------------------------

  ghost function CreateArcs(s: LadderState, r: RungId, froms: set<RungId>): set<Arc> {
    s.arcs + ArcsFrom(froms, r) + if HasLiveEntry(s) then {} else {Arc(Entry, r)}
  }

  // ----- Replacing the next rungs ---------------------------------------------------------

  ghost function NextArcs(arcs: set<Arc>, r: RungId, nexts: set<RungId>): set<Arc> {
    (set a | a in arcs && a.from != Rung(r)) + ArcsTo(Rung(r), nexts)
  }

  // ----- Saving a stage --------------------------------------------------------------------

  ghost function PreviousIds(s: LadderState, r: RungId, input: Option<seq<RungId>>): set<RungId> {
    match input
    case Some(ids) => Elements(ids)
    case None => set x | x in s.live && Arc(Rung(x), r) in s.arcs
  }

  ghost function NextIds(s: LadderState, r: RungId, input: Option<seq<RungId>>): set<RungId> {
    match input
    case Some(ids) => Elements(ids)
    case None => set x | x in s.live && Arc(Rung(r), x) in s.arcs
  }

  ghost function Proposed(arcs: set<Arc>, r: RungId, previous: set<RungId>, next: set<RungId>): set<Arc> {
    Untouched(arcs, r) + ArcsFrom(previous, r) + ArcsTo(Rung(r), next)
  }

  /** A rung that only the edges being replaced led to. */
  ghost predicate Orphaned(s: LadderState, r: RungId, next: set<RungId>, x: RungId) {
    x in s.live && Arc(Rung(r), x) in s.arcs && x !in next && !HasWayIn(s.live, Untouched(s.arcs, r), x)
  }

  ghost function StageArcs(s: LadderState, r: RungId, previous: set<RungId>, next: set<RungId>): set<Arc> {
    Proposed(s.arcs, r, previous, next)
    + (if previous == {} then {Arc(Entry, r)} else {})
    + ArcsTo(Entry, set x | x in s.live && Orphaned(s, r, next, x))
  }

  ghost function StageRefusal(s: LadderState, r: RungId, previous: set<RungId>, next: set<RungId>): Option<Refusal> {
    if previous * next != {} then Some(PreviousAndNext)
    else if r in previous + next then Some(LinksToItself)
    else if !(previous + next <= s.live) then Some(NotInLadder)
    else if Cyclic(Proposed(s.arcs, r, previous, next)) then Some(MakesCycle)
    else None
  }

  // ----- All edits -------------------------------------------------------------------------

  /** The ladder that a stage is saved into: a new stage's rung is added first. */
  ghost function WithRung(s: LadderState, r: RungId): LadderState {
    s.(live := s.live + {r})
  }

  ghost function Refused(s: LadderState, e: Edit): Option<Refusal> {
    match e
    case CreateRung(r, froms) =>
      if !Fresh(s, r) then Some(NotFresh)
      else if !(Elements(froms) <= s.live) then Some(SourceNotInLadder)
      else None
    case SetNextRungs(r, nexts) =>
      if r !in s.live then Some(NotFound)
      else if !(Distinct(nexts) && Elements(nexts) <= s.live) then Some(NotFound)
      else if r in nexts then Some(LinksToItself)
      else if Cyclic(NextArcs(s.arcs, r, Elements(nexts))) then Some(MakesCycle)
      else None
    case SaveStage(r, isNew, previousInput, nextInput) =>
      if isNew && !Fresh(s, r) then Some(NotFresh)
      else if !isNew && r !in s.live then Some(NotFound)
      else
        var t := WithRung(s, r);
        StageRefusal(t, r, PreviousIds(t, r, previousInput), NextIds(t, r, nextInput))
    case DeleteRung(r, holders) =>
      if r !in s.live then Some(NotFound)
      else if holders > 0 then Some(InUse)
      else None
  }

  ghost function Apply(s: LadderState, e: Edit): LadderState {
    if Refused(s, e).Some? then s else
    match e
    case CreateRung(r, froms) => LadderState(s.live + {r}, CreateArcs(s, r, Elements(froms)))
    case SetNextRungs(r, nexts) => s.(arcs := NextArcs(s.arcs, r, Elements(nexts)))
    case SaveStage(r, _, previousInput, nextInput) =>
      var t := WithRung(s, r);
      t.(arcs := StageArcs(t, r, PreviousIds(t, r, previousInput), NextIds(t, r, nextInput)))
    case DeleteRung(r, _) => LadderState(s.live - {r}, AfterRemoval(s.arcs, r))
  }

  ghost function ApplyAll(s: LadderState, edits: seq<Edit>): LadderState
    decreases |edits|
  {
    if edits == [] then s else ApplyAll(Apply(s, edits[0]), edits[1..])
  }

  // ----- Every run keeps the ladder acyclic ------------------------------------------------

  lemma EditKeepsAcyclic(s: LadderState, e: Edit)
    requires !Cyclic(s.arcs)
    ensures !Cyclic(Apply(s, e).arcs)
  {
    if Refused(s, e).None? {
      match e
      case CreateRung(r, froms) =>
        SinkArcsAddNoCycle(s.arcs, CreateArcs(s, r, Elements(froms)), r);
      case SetNextRungs(r, nexts) =>
      case SaveStage(r, _, previousInput, nextInput) =>
        var t := WithRung(s, r);
        var previous, next := PreviousIds(t, r, previousInput), NextIds(t, r, nextInput);
        EntryArcsAddNoCycle(Proposed(t.arcs, r, previous, next), StageArcs(t, r, previous, next));
      case DeleteRung(r, _) =>
        RemovalKeepsAcyclic(s.arcs, r);
    }
  }

  lemma {:induction false} RunKeepsAcyclic(s: LadderState, edits: seq<Edit>)
    requires !Cyclic(s.arcs)
    ensures !Cyclic(ApplyAll(s, edits).arcs)
    decreases |edits|
  {
    if edits != [] {
      EditKeepsAcyclic(s, edits[0]);
      RunKeepsAcyclic(Apply(s, edits[0]), edits[1..]);
    }
  }

  // ----- Saves and deletions keep every live rung reachable from an entry -------------------

  lemma StageKeepsWayIn(s: LadderState, r: RungId, previous: set<RungId>, next: set<RungId>, x: RungId)
    requires previous <= s.live && r in s.live && x in s.live
    requires x != r ==> HasWayIn(s.live, s.arcs, x)
    ensures HasWayIn(s.live, StageArcs(s, r, previous, next), x)
  {
    var g := StageArcs(s, r, previous, next);
    if x == r {
      if previous == {} {
        assert LiveNode(s.live, Entry) && Arc(Entry, r) in g;
      } else {
        var p :| p in previous;
        assert LiveNode(s.live, Rung(p)) && Arc(Rung(p), r) in g;
      }
    } else if x in next {
      assert LiveNode(s.live, Rung(r)) && Arc(Rung(r), x) in g;
    } else if HasWayIn(s.live, Untouched(s.arcs, r), x) {
      var n :| LiveNode(s.live, n) && Arc(n, x) in Untouched(s.arcs, r);
      assert LiveNode(s.live, n) && Arc(n, x) in g;
    } else {
      var n :| LiveNode(s.live, n) && Arc(n, x) in s.arcs;
      assert Arc(n, x) !in Untouched(s.arcs, r);
      assert Orphaned(s, r, next, x);
      assert LiveNode(s.live, Entry) && Arc(Entry, x) in g;
    }
  }

  lemma BridgeIsWayIn(s: LadderState, r: RungId, x: RungId)
    requires !Cyclic(s.arcs) && x != r && Arc(Rung(r), x) in s.arcs && HasWayIn(s.live, s.arcs, r)
    ensures HasWayIn(s.live - {r}, AfterRemoval(s.arcs, r), x)
  {
    var m :| LiveNode(s.live, m) && Arc(m, r) in s.arcs;
    AcyclicHasNoSelfLoop(s.arcs, r);
    AcyclicHasNoTwoCycle(s.arcs, r, x);
    AfterRemovalArcs(s.arcs, r, Arc(m, x));
    assert LiveNode(s.live - {r}, m) && Arc(m, x) in AfterRemoval(s.arcs, r);
  }

  lemma RemovalKeepsWayIn(s: LadderState, r: RungId, x: RungId)
    requires !Cyclic(s.arcs) && x != r
    requires HasWayIn(s.live, s.arcs, x) && HasWayIn(s.live, s.arcs, r)
    ensures HasWayIn(s.live - {r}, AfterRemoval(s.arcs, r), x)
  {
    var n :| LiveNode(s.live, n) && Arc(n, x) in s.arcs;
    if n == Rung(r) {
      BridgeIsWayIn(s, r, x);
    } else {
      AfterRemovalArcs(s.arcs, r, Arc(n, x));
      assert LiveNode(s.live - {r}, n) && Arc(n, x) in AfterRemoval(s.arcs, r);
    }
  }

  lemma SaveKeepsWayIn(s: LadderState, e: Edit, x: RungId)
    requires e.SaveStage? && Refused(s, e).None? && x in Apply(s, e).live
    requires x in s.live ==> HasWayIn(s.live, s.arcs, x)
    ensures HasWayIn(Apply(s, e).live, Apply(s, e).arcs, x)
  {
    var t := WithRung(s, e.rung);
    if x != e.rung {
      var n :| LiveNode(s.live, n) && Arc(n, x) in s.arcs;
      assert LiveNode(t.live, n) && Arc(n, x) in t.arcs;
    }
    StageKeepsWayIn(t, e.rung, PreviousIds(t, e.rung, e.previousInput), NextIds(t, e.rung, e.nextInput), x);
  }

  lemma EditKeepsWayIn(s: LadderState, e: Edit, x: RungId)
    requires (e.SaveStage? || e.DeleteRung?) && Refused(s, e).None? && x in Apply(s, e).live
    requires !Cyclic(s.arcs) && forall y | y in s.live :: HasWayIn(s.live, s.arcs, y)
    ensures HasWayIn(Apply(s, e).live, Apply(s, e).arcs, x)
  {
    if e.SaveStage? {
      SaveKeepsWayIn(s, e, x);
    } else {
      RemovalKeepsWayIn(s, e.rung, x);
    }
  }

  lemma EditKeepsReachable(s: LadderState, e: Edit)
    requires e.SaveStage? || e.DeleteRung?
    requires !Cyclic(s.arcs) && AllReachable(s.live, s.arcs)
    ensures AllReachable(Apply(s, e).live, Apply(s, e).arcs)
  {
    if Refused(s, e).None? {
      var after := Apply(s, e);
      EditKeepsAcyclic(s, e);
      WayInIsReachable(s.live, s.arcs);
      forall x | x in after.live ensures HasWayIn(after.live, after.arcs, x) {
        EditKeepsWayIn(s, e, x);
      }
      WayInIsReachable(after.live, after.arcs);
    }
  }

  lemma {:induction false} RunKeepsReachable(s: LadderState, edits: seq<Edit>)
    requires forall e | e in edits :: e.SaveStage? || e.DeleteRung?
    requires !Cyclic(s.arcs) && AllReachable(s.live, s.arcs)
    ensures var t := ApplyAll(s, edits); !Cyclic(t.arcs) && AllReachable(t.live, t.arcs)
    decreases |edits|
  {
    if edits != [] {
      EditKeepsAcyclic(s, edits[0]);
      EditKeepsReachable(s, edits[0]);
      RunKeepsReachable(Apply(s, edits[0]), edits[1..]);
    }
  }

  // ----- Exactly when the other two edits keep it -------------------------------------------

  /** A created rung is reachable exactly when it was given a source or the ladder had no live entry. */
  lemma CreateReachableExactly(s: LadderState, e: Edit)
    requires e.CreateRung? && Refused(s, e).None?
    requires !Cyclic(s.arcs) && AllReachable(s.live, s.arcs)
    ensures AllReachable(Apply(s, e).live, Apply(s, e).arcs) <==> e.fromRungs != [] || !HasLiveEntry(s)
  {
    var after, r := Apply(s, e), e.rung;
    EditKeepsAcyclic(s, e);
    WayInIsReachable(s.live, s.arcs);
    WayInIsReachable(after.live, after.arcs);
    forall x | x in s.live ensures HasWayIn(after.live, after.arcs, x) {
      var n :| LiveNode(s.live, n) && Arc(n, x) in s.arcs;
      assert LiveNode(after.live, n) && Arc(n, x) in after.arcs;
    }
    if e.fromRungs != [] {
      assert e.fromRungs[0] in Elements(e.fromRungs);
      assert LiveNode(after.live, Rung(e.fromRungs[0])) && Arc(Rung(e.fromRungs[0]), r) in after.arcs;
    } else if !HasLiveEntry(s) {
      assert LiveNode(after.live, Entry) && Arc(Entry, r) in after.arcs;
    } else {
      forall n ensures Arc(n, r) !in after.arcs {
        assert Touches(Arc(n, r), r);
      }
    }
  }

  /** Replacing the next rungs keeps reachability exactly when each dropped rung has another live way in. */
  lemma SetNextReachableExactly(s: LadderState, e: Edit)
    requires e.SetNextRungs? && Refused(s, e).None?
    requires !Cyclic(s.arcs) && AllReachable(s.live, s.arcs)
    ensures AllReachable(Apply(s, e).live, Apply(s, e).arcs)
       <==> forall x | x in s.live && Arc(Rung(e.rung), x) in s.arcs && x !in e.nexts ::
              exists n :: n != Rung(e.rung) && LiveNode(s.live, n) && Arc(n, x) in s.arcs
  {
    var after, r := Apply(s, e), e.rung;
    EditKeepsAcyclic(s, e);
    WayInIsReachable(s.live, s.arcs);
    WayInIsReachable(after.live, after.arcs);
    forall x | x in s.live
      ensures HasWayIn(after.live, after.arcs, x)
         <==> x in e.nexts || exists n :: n != Rung(r) && LiveNode(s.live, n) && Arc(n, x) in s.arcs
    {
      if x in e.nexts {
        assert x in Elements(e.nexts);
        assert LiveNode(s.live, Rung(r)) && Arc(Rung(r), x) in after.arcs;
      }
      if n :| n != Rung(r) && LiveNode(s.live, n) && Arc(n, x) in s.arcs {
        assert LiveNode(s.live, n) && Arc(n, x) in after.arcs;
      }
      if HasWayIn(after.live, after.arcs, x) {
        var n :| LiveNode(s.live, n) && Arc(n, x) in after.arcs;
        if n == Rung(r) {
          assert Arc(n, x) in ArcsTo(Rung(r), Elements(e.nexts));
        } else {
          assert Arc(n, x) in s.arcs;
        }
      }
    }
  }
}
