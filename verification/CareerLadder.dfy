/**
  The ladder service on its edge table. `PlanRungRemoval` is the nested loop that bridges
  around a rung; the class `Ladder` holds the live rungs and the edge rows, and each of its
  methods is proved to be the edit of the same name.
 */
module CareerLadder {
  import opened Basics
  import opened LadderGraph
  import opened LadderEdits
  import opened LadderEffects
  import opened CycleSearch

  datatype Edge = Edge(id: nat, arc: Arc)

  ghost function ArcsOf(edges: seq<Edge>): set<Arc> {
    set e | e in edges :: e.arc
  }

  lemma ArcsOfAppend(edges: seq<Edge>, e: Edge)
    ensures ArcsOf(edges + [e]) == ArcsOf(edges) + {e.arc}
  {
    assert forall x :: x in edges + [e] <==> x in edges || x == e;
  }

  function ArcList(edges: seq<Edge>): (r: seq<Arc>)
    ensures |r| == |edges| && forall i | 0 <= i < |r| :: r[i] == edges[i].arc
    ensures Elements(r) == ArcsOf(edges)
  {
    var r := seq(|edges|, i requires 0 <= i < |edges| => edges[i].arc);
    assert forall a | a in ArcsOf(edges) :: a in r by {
      forall e | e in edges ensures e.arc in r {
        var i :| 0 <= i < |edges| && edges[i] == e;
        assert r[i] == e.arc;
      }
    }
    r
  }

  // ----- Planning a removal ----------------------------------------------------------------

  function Incoming(edges: seq<Edge>, r: RungId): (es: seq<Edge>)
    ensures forall e :: e in es <==> e in edges && e.arc.to == r
  {
    Filter(edges, (e: Edge) => e.arc.to == r)
  }

  function Outgoing(edges: seq<Edge>, r: RungId): (es: seq<Edge>)
    ensures forall e :: e in es <==> e in edges && e.arc.from == Rung(r) && e.arc.to != r
  {
    Filter(edges, (e: Edge) => e.arc.from == Rung(r) && e.arc.to != r)
  }

  function Kept(edges: seq<Edge>, r: RungId): (es: seq<Edge>)
    ensures forall e :: e in es <==> e in edges && !Touches(e.arc, r)
  {
    Filter(edges, (e: Edge) => !Touches(e.arc, r))
  }

  lemma KeptArcs(edges: seq<Edge>, r: RungId)
    ensures ArcsOf(Kept(edges, r)) == Untouched(ArcsOf(edges), r)
  {
  }

  /** The pairs that the removal plan considers and does not skip. */
  ghost function PairsOf(incoming: seq<Edge>, outgoing: seq<Edge>): set<Arc> {
    set x, y | x in incoming && y in outgoing && x.arc.from != Rung(y.arc.to) :: Arc(x.arc.from, y.arc.to)
  }

  lemma PairsOfAppend(incoming: seq<Edge>, e: Edge, outgoing: seq<Edge>)
    ensures PairsOf(incoming + [e], outgoing) == PairsOf(incoming, outgoing) + PairsOf([e], outgoing)
  {
    assert forall x :: x in incoming + [e] <==> x in incoming || x in [e];
  }

  lemma PairsOfOneMore(e: Edge, outgoing: seq<Edge>, o: Edge)
    ensures PairsOf([e], outgoing + [o])
         == PairsOf([e], outgoing) + if e.arc.from != Rung(o.arc.to) then {Arc(e.arc.from, o.arc.to)} else {}
  {
    assert forall y :: y in outgoing + [o] <==> y in outgoing || y == o;
    assert e in [e];
  }

  lemma PairsAreBridges(edges: seq<Edge>, r: RungId, a: Arc)
    ensures a in PairsOf(Incoming(edges, r), Outgoing(edges, r)) <==> IsBridge(ArcsOf(edges), r, a)
  {
    var incoming, outgoing := Incoming(edges, r), Outgoing(edges, r);
    if IsBridge(ArcsOf(edges), r, a) {
      var x :| x in edges && x.arc == Arc(a.from, r);
      var y :| y in edges && y.arc == Arc(Rung(r), a.to);
      assert x in incoming && y in outgoing;
    }
  }

  lemma PlanIsRemoval(edges: seq<Edge>, r: RungId)
    ensures Untouched(ArcsOf(edges), r) + PairsOf(Incoming(edges, r), Outgoing(edges, r)) == AfterRemoval(ArcsOf(edges), r)
  {
    forall a
      ensures a in AfterRemoval(ArcsOf(edges), r)
         <==> a in Untouched(ArcsOf(edges), r) + PairsOf(Incoming(edges, r), Outgoing(edges, r))
    {
      AfterRemovalArcs(ArcsOf(edges), r, a);
      PairsAreBridges(edges, r, a);
    }
  }

  /** `bridges` adds the pairs to the kept arcs, none of them twice. */
  ghost predicate Bridged(kept: seq<Arc>, bridges: seq<Arc>, pairs: set<Arc>) {
    && Distinct(bridges)
    && (forall b | b in bridges :: b !in kept)
    && Elements(kept) + Elements(bridges) == Elements(kept) + pairs
  }

  lemma BridgedOneMore(kept: seq<Arc>, bridges: seq<Arc>, pairs: set<Arc>, pair: Arc)
    requires Bridged(kept, bridges, pairs)
    ensures Bridged(kept, if pair !in kept && pair !in bridges then bridges + [pair] else bridges, pairs + {pair})
  {
    assert Elements(bridges + [pair]) == Elements(bridges) + {pair};
  }

  /** The inner loop of the plan: one incoming edge against every outgoing edge. */
  method BridgeOver(inEdge: Edge, outgoing: seq<Edge>, kept: seq<Arc>, sofar: seq<Arc>, ghost pairs: set<Arc>)
    returns (bridges: seq<Arc>)
    requires Bridged(kept, sofar, pairs)
    ensures Bridged(kept, bridges, pairs + PairsOf([inEdge], outgoing))
  {
    bridges := sofar;
    ghost var bridged := pairs;
    for j := 0 to |outgoing|
      invariant bridged == pairs + PairsOf([inEdge], outgoing[..j])
      invariant Bridged(kept, bridges, bridged)
    {
      var outEdge := outgoing[j];
      assert outgoing[..j + 1] == outgoing[..j] + [outEdge];
      PairsOfOneMore(inEdge, outgoing[..j], outEdge);
      if inEdge.arc.from == Rung(outEdge.arc.to) {
        continue;
      }
      var pair := Arc(inEdge.arc.from, outEdge.arc.to);
      BridgedOneMore(kept, bridges, bridged, pair);
      if pair !in kept && pair !in bridges {
        bridges := bridges + [pair];
      }
      bridged := bridged + {pair};
    }
    assert outgoing[..|outgoing|] == outgoing;
  }

  /**
    The edges to detach and the bridges to add when a rung is removed. The kept edges with the
    bridges are exactly `AfterRemoval`, and no bridge repeats an edge or another bridge.
   */
  method PlanRungRemoval(edges: seq<Edge>, r: RungId) returns (detached: seq<nat>, bridges: seq<Arc>)
    ensures forall i :: i in detached <==> exists e :: e in edges && e.id == i && Touches(e.arc, r)
    ensures Untouched(ArcsOf(edges), r) + Elements(bridges) == AfterRemoval(ArcsOf(edges), r)
    ensures Distinct(bridges)
    ensures forall b | b in bridges :: b !in Untouched(ArcsOf(edges), r)
  {
    var incoming := Incoming(edges, r);
    var outgoing := Outgoing(edges, r);
    var kept := ArcList(Kept(edges, r));
    KeptArcs(edges, r);
    bridges := [];
    ghost var pairs: set<Arc> := {};
    for i := 0 to |incoming|
      invariant pairs == PairsOf(incoming[..i], outgoing)
      invariant Bridged(kept, bridges, pairs)
    {
      assert incoming[..i + 1] == incoming[..i] + [incoming[i]];
      PairsOfAppend(incoming[..i], incoming[i], outgoing);
      bridges := BridgeOver(incoming[i], outgoing, kept, bridges, pairs);
      pairs := PairsOf(incoming[..i + 1], outgoing);
    }
    assert incoming[..|incoming|] == incoming;
    PlanIsBridged(edges, r, kept, bridges);
    detached := DetachedIds(edges, r);
  }

  lemma PlanIsBridged(edges: seq<Edge>, r: RungId, kept: seq<Arc>, bridges: seq<Arc>)
    requires Bridged(kept, bridges, PairsOf(Incoming(edges, r), Outgoing(edges, r)))
    requires Elements(kept) == Untouched(ArcsOf(edges), r)
    ensures Untouched(ArcsOf(edges), r) + Elements(bridges) == AfterRemoval(ArcsOf(edges), r)
    ensures Distinct(bridges)
    ensures forall b | b in bridges :: b !in Untouched(ArcsOf(edges), r)
  {
    PlanIsRemoval(edges, r);
    assert forall b :: b in kept <==> b in Elements(kept);
  }

  method DetachedIds(edges: seq<Edge>, r: RungId) returns (ids: seq<nat>)
    ensures forall i :: i in ids <==> exists e :: e in edges && e.id == i && Touches(e.arc, r)
  {
    ids := [];
    for k := 0 to |edges|
      invariant forall i :: i in ids <==> exists e :: e in edges[..k] && e.id == i && Touches(e.arc, r)
    {
      if Touches(edges[k].arc, r) {
        ids := ids + [edges[k].id];
      }
      assert edges[..k + 1] == edges[..k] + [edges[k]];
      assert forall e :: e in edges[..k + 1] <==> e in edges[..k] || e == edges[k];
    }
    assert edges[..|edges|] == edges;
  }

  // ----- The edge table ----------------------------------------------------------------------

  /** Edge ids are unique and no arc is stored twice. */
  ghost predicate TableOk(edges: seq<Edge>, nextId: nat) {
    && (forall e | e in edges :: e.id < nextId)
    && (forall i, j | 0 <= i < j < |edges| :: edges[i].id != edges[j].id && edges[i].arc != edges[j].arc)
  }

  /** `DELETE ... WHERE id IN (ids)`. */
  method DeleteByIds(edges: seq<Edge>, ids: seq<nat>, ghost nextId: nat) returns (rest: seq<Edge>)
    requires TableOk(edges, nextId)
    ensures TableOk(rest, nextId)
    ensures forall e :: e in rest <==> e in edges && e.id !in ids
  {
    rest := [];
    for k := 0 to |edges|
      invariant TableOk(rest, nextId)
      invariant forall e :: e in rest <==> e in edges[..k] && e.id !in ids
    {
      var e := edges[k];
      assert forall i | 0 <= i < |rest| :: rest[i] in edges[..k];
      assert e in edges;
      if e.id !in ids {
        rest := rest + [e];
      }
      assert forall x :: x in edges[..k + 1] <==> x in edges[..k] || x == e;
    }
    assert edges[..|edges|] == edges;
  }

  /** Inserts one row per arc, each with a new id. */
  method InsertRows(edges: seq<Edge>, rows: seq<Arc>, nextId: nat) returns (all: seq<Edge>, newNext: nat)
    requires TableOk(edges, nextId) && Distinct(rows)
    requires forall a | a in rows :: a !in ArcsOf(edges)
    ensures TableOk(all, newNext) && ArcsOf(all) == ArcsOf(edges) + Elements(rows)
  {
    all, newNext := edges, nextId;
    for k := 0 to |rows|
      invariant TableOk(all, newNext)
      invariant ArcsOf(all) == ArcsOf(edges) + Elements(rows[..k])
    {
      var e := Edge(newNext, rows[k]);
      assert rows[k] in rows && rows[k] !in rows[..k];
      assert rows[k] !in ArcsOf(all);
      assert forall i | 0 <= i < |all| :: all[i] in all && all[i].arc in ArcsOf(all);
      ArcsOfAppend(all, e);
      all, newNext := all + [e], newNext + 1;
      assert rows[..k + 1] == rows[..k] + [rows[k]];
      assert Elements(rows[..k + 1]) == Elements(rows[..k]) + {rows[k]};
    }
    assert rows[..|rows|] == rows;
  }

  function RowsFrom(froms: seq<RungId>, to: RungId): (rows: seq<Arc>)
    ensures |rows| == |froms| && forall i | 0 <= i < |rows| :: rows[i] == Arc(Rung(froms[i]), to)
    ensures Elements(rows) == ArcsFrom(Elements(froms), to)
    ensures Distinct(froms) ==> Distinct(rows)
  {
    var rows := seq(|froms|, i requires 0 <= i < |froms| => Arc(Rung(froms[i]), to));
    assert forall i | 0 <= i < |froms| :: froms[i] in froms && rows[i] in rows;
    rows
  }

  function RowsTo(from: Node, tos: seq<RungId>): (rows: seq<Arc>)
    ensures |rows| == |tos| && forall i | 0 <= i < |rows| :: rows[i] == Arc(from, tos[i])
    ensures Elements(rows) == ArcsTo(from, Elements(tos))
    ensures Distinct(tos) ==> Distinct(rows)
  {
    var rows := seq(|tos|, i requires 0 <= i < |tos| => Arc(from, tos[i]));
    assert forall i | 0 <= i < |tos| :: tos[i] in tos && rows[i] in rows;
    rows
  }

  lemma DistinctConcat(s: seq<Arc>, t: seq<Arc>)
    requires Distinct(s) && Distinct(t) && Elements(s) !! Elements(t)
    ensures Distinct(s + t) && Elements(s + t) == Elements(s) + Elements(t)
  {
    assert forall i | 0 <= i < |s| :: s[i] in Elements(s);
    assert forall i | 0 <= i < |t| :: t[i] in Elements(t);
  }

  lemma {:induction false} ElementCount(ids: seq<RungId>)
    ensures |Elements(ids)| <= |ids|
    ensures |Elements(ids)| == |ids| <==> Distinct(ids)
  {
    if ids != [] {
      var n := |ids| - 1;
      var front, last := ids[..n], ids[n];
      ElementCount(front);
      assert ids == front + [last];
      assert Elements(ids) == Elements(front) + {last};
      if last in front {
        var k :| 0 <= k < n && front[k] == last;
        assert ids[k] == ids[n];
        assert Elements(ids) == Elements(front);
      } else if Distinct(front) {
        assert forall k | 0 <= k < n :: ids[k] == front[k] && front[k] in front;
      } else {
        var k, m :| 0 <= k < m < n && front[k] == front[m];
        assert ids[k] == ids[m];
      }
    }
  }

  /** A query by a list of ids finds as many rows as the list is long exactly when no id repeats or is missing. */
  lemma FoundAll(ids: seq<RungId>, live: set<RungId>)
    ensures |set x | x in ids && x in live| == |ids| <==> Distinct(ids) && Elements(ids) <= live
  {
    ElementCount(ids);
    var found := set x | x in ids && x in live;
    assert found == Elements(ids) * live;
    assert |Elements(ids)| == |found| + |Elements(ids) - live|;
    if !(Elements(ids) <= live) {
      var x :| x in Elements(ids) && x !in live;
      assert x in Elements(ids) - live;
    } else {
      assert Elements(ids) - live == {};
    }
  }

  // ----- The ladder as an object -----------------------------------------------------------

  class Ladder {
    var live: set<RungId>
    var edges: seq<Edge>
    var nextId: nat

    ghost predicate Valid()
      reads this
    {
      TableOk(edges, nextId) && !Cyclic(ArcsOf(edges))
    }

    ghost function State(): LadderState
      reads this
    {
      LadderState(live, ArcsOf(edges))
    }

    constructor ()
      ensures Valid() && State() == LadderState({}, {})
    {
      live, edges, nextId := {}, [], 0;
      assert ArcsOf([]) == {};
      OrderedIsAcyclic({}, []);
    }

    /** The rung id is one that the database has just generated. */
    method CreateRung(r: RungId, fromInput: seq<RungId>) returns (refusal: Option<Refusal>)
      requires Valid() && Fresh(State(), r)
      modifies this
      ensures Valid()
      ensures refusal == Refused(old(State()), Edit.CreateRung(r, fromInput))
      ensures State() == Apply(old(State()), Edit.CreateRung(r, fromInput))
      ensures refusal.None? ==> CreatedAs(old(State()), Edit.CreateRung(r, fromInput), State())
    {
      ghost var before := State();
      EditKeepsAcyclic(before, Edit.CreateRung(r, fromInput));
      var froms := Dedupe(fromInput);
      assert Elements(froms) == Elements(fromInput);
      if exists f | f in froms :: f !in live {
        return Some(SourceNotInLadder);
      }
      var hadEntry := exists e | e in edges :: e.arc.from == Entry && e.arc.to in live;
      assert hadEntry <==> HasLiveEntry(before) by {
        if x :| x in before.live && Arc(Entry, x) in before.arcs {
          var e :| e in edges && e.arc == Arc(Entry, x);
        }
      }
      live := live + {r};
      var rows := RowsFrom(froms, r);
      if !hadEntry {
        DistinctConcat(rows, [Arc(Entry, r)]);
        rows := rows + [Arc(Entry, r)];
      }
      assert forall a | a in rows :: Touches(a, r);
      edges, nextId := InsertRows(edges, rows, nextId);
      assert State().arcs == CreateArcs(before, r, Elements(fromInput));
      CreatedExactly(before, Edit.CreateRung(r, fromInput));
      return None;
    }

    method SetNextRungs(r: RungId, nexts: seq<RungId>) returns (refusal: Option<Refusal>)
      requires Valid()
      modifies this
      ensures Valid()
      ensures refusal == Refused(old(State()), Edit.SetNextRungs(r, nexts))
      ensures State() == Apply(old(State()), Edit.SetNextRungs(r, nexts))
      ensures refusal.None? ==> ReplacedAs(old(State()), Edit.SetNextRungs(r, nexts), State())
    {
      ghost var before := State();
      if r !in live {
        return Some(NotFound);
      }
      FoundAll(nexts, live);
      var targets := set x | x in nexts && x in live;
      if |targets| != |nexts| {
        return Some(NotFound);
      }
      if r in nexts {
        return Some(LinksToItself);
      }
      var ids, others := [], [];
      for k := 0 to |edges|
        invariant forall a :: a in others <==> exists e :: e in edges[..k] && e.arc == a && a.from != Rung(r)
        invariant forall i :: i in ids <==> exists e :: e in edges[..k] && e.id == i && e.arc.from == Rung(r)
      {
        assert forall e :: e in edges[..k + 1] <==> e in edges[..k] || e == edges[k];
        if edges[k].arc.from == Rung(r) {
          ids := ids + [edges[k].id];
        } else {
          others := others + [edges[k].arc];
        }
      }
      assert edges[..|edges|] == edges;
      var rows := RowsTo(Rung(r), nexts);
      assert Elements(others + rows) == NextArcs(before.arcs, r, Elements(nexts));
      var cycle := HasCycle(others + rows);
      if cycle {
        return Some(MakesCycle);
      }
      var rest := DeleteByIds(edges, ids, nextId);
      ArcsAfterDelete(edges, ids, rest, r);
      edges, nextId := InsertRows(rest, rows, nextId);
      ReplacedExactly(before, Edit.SetNextRungs(r, nexts));
      return None;
    }

    /** `holders` is the number of employees who stand on the rung. */
    method DeleteRung(r: RungId, holders: nat) returns (refusal: Option<Refusal>)
      requires Valid()
      modifies this
      ensures Valid()
      ensures refusal == Refused(old(State()), Edit.DeleteRung(r, holders))
      ensures State() == Apply(old(State()), Edit.DeleteRung(r, holders))
      ensures refusal.None? ==> DeletedAs(old(State()), Edit.DeleteRung(r, holders), State())
    {
      ghost var before := State();
      EditKeepsAcyclic(before, Edit.DeleteRung(r, holders));
      if r !in live {
        return Some(NotFound);
      }
      if holders > 0 {
        return Some(InUse);
      }
      var detached, bridges := PlanRungRemoval(edges, r);
      var rest := DeleteByIds(edges, detached, nextId);
      RestIsUntouched(edges, detached, rest, r);
      edges, nextId := InsertRows(rest, bridges, nextId);
      live := live - {r};
      assert State() == Apply(before, Edit.DeleteRung(r, holders));
      DeletedExactly(before, Edit.DeleteRung(r, holders));
      return None;
    }

    /** With `isNew` the rung id is one that the database has just generated. */
    method SaveStage(r: RungId, isNew: bool, previousInput: Option<seq<RungId>>, nextInput: Option<seq<RungId>>)
      returns (refusal: Option<Refusal>)
      requires Valid() && (isNew ==> Fresh(State(), r))
      modifies this
      ensures Valid()
      ensures refusal == Refused(old(State()), Edit.SaveStage(r, isNew, previousInput, nextInput))
      ensures State() == Apply(old(State()), Edit.SaveStage(r, isNew, previousInput, nextInput))
      ensures refusal.None? ==> SavedAs(old(State()), Edit.SaveStage(r, isNew, previousInput, nextInput), State())
    {
      ghost var before := State();
      EditKeepsAcyclic(before, Edit.SaveStage(r, isNew, previousInput, nextInput));
      if !isNew && r !in live {
        return Some(NotFound);
      }
      var liveIds := live + {r};
      ghost var t := WithRung(before, r);
      var previous := StageSources(edges, liveIds, r, previousInput);
      var next := StageTargets(edges, liveIds, r, nextInput);
      refusal := CheckStage(edges, liveIds, r, previous, next, t);
      if refusal.Some? {
        return;
      }
      AcyclicHasNoSelfLoop(before.arcs, r);
      var rows := StageRows(edges, liveIds, r, previous, next, t);
      var detached := DetachedIds(edges, r);
      var rest := DeleteByIds(edges, detached, nextId);
      RestIsUntouched(edges, detached, rest, r);
      edges, nextId := InsertRows(rest, rows, nextId);
      live := liveIds;
      assert State() == Apply(before, Edit.SaveStage(r, isNew, previousInput, nextInput));
      SavedExactly(before, Edit.SaveStage(r, isNew, previousInput, nextInput));
      return None;
    }
  }

  lemma RestIsUntouched(edges: seq<Edge>, detached: seq<nat>, rest: seq<Edge>, r: RungId)
    requires forall i, j | 0 <= i < j < |edges| :: edges[i].id != edges[j].id
    requires forall i :: i in detached <==> exists e :: e in edges && e.id == i && Touches(e.arc, r)
    requires forall e :: e in rest <==> e in edges && e.id !in detached
    ensures ArcsOf(rest) == Untouched(ArcsOf(edges), r)
  {
    forall e | e in edges ensures e.id in detached <==> Touches(e.arc, r) {
    }
  }

  /** The previous stages: those sent, or else the live sources of the rung's edges. */
  method StageSources(edges: seq<Edge>, liveIds: set<RungId>, r: RungId, input: Option<seq<RungId>>)
    returns (ids: seq<RungId>)
    ensures Distinct(ids)
    ensures Elements(ids) == PreviousIds(LadderState(liveIds, ArcsOf(edges)), r, input)
  {
    match input
    case Some(given) =>
      ids := Dedupe(given);
    case None =>
      ids := [];
      for k := 0 to |edges|
        invariant forall x :: x in ids <==> x in liveIds && Arc(Rung(x), r) in ArcsOf(edges[..k])
      {
        var a := edges[k].arc;
        assert edges[..k + 1] == edges[..k] + [edges[k]];
        ArcsOfAppend(edges[..k], edges[k]);
        if a.to == r && a.from.Rung? && a.from.id in liveIds {
          ids := ids + [a.from.id];
        }
      }
      assert edges[..|edges|] == edges;
      ids := Dedupe(ids);
  }

  /** The next stages: those sent, or else the live targets of the rung's edges. */
  method StageTargets(edges: seq<Edge>, liveIds: set<RungId>, r: RungId, input: Option<seq<RungId>>)
    returns (ids: seq<RungId>)
    ensures Distinct(ids)
    ensures Elements(ids) == NextIds(LadderState(liveIds, ArcsOf(edges)), r, input)
  {
    match input
    case Some(given) =>
      ids := Dedupe(given);
    case None =>
      ids := [];
      for k := 0 to |edges|
        invariant forall x :: x in ids <==> x in liveIds && Arc(Rung(r), x) in ArcsOf(edges[..k])
      {
        var a := edges[k].arc;
        assert edges[..k + 1] == edges[..k] + [edges[k]];
        ArcsOfAppend(edges[..k], edges[k]);
        if a.from == Rung(r) && a.to in liveIds {
          ids := ids + [a.to];
        }
      }
      assert edges[..|edges|] == edges;
      ids := Dedupe(ids);
  }

  /** The checks before a stage is written, in their order. */
  method CheckStage(edges: seq<Edge>, liveIds: set<RungId>, r: RungId, previous: seq<RungId>, next: seq<RungId>,
                    ghost t: LadderState)
    returns (refusal: Option<Refusal>)
    requires t == LadderState(liveIds, ArcsOf(edges))
    ensures refusal == StageRefusal(t, r, Elements(previous), Elements(next))
    ensures refusal.None? ==> r !in previous + next
  {
    assert forall x :: x in previous && x in next <==> x in Elements(previous) * Elements(next);
    assert forall x :: x in Elements(previous) + Elements(next) <==> x in previous + next;
    if exists x | x in previous :: x in next {
      return Some(PreviousAndNext);
    }
    assert Elements(previous) * Elements(next) == {};
    if r in previous + next {
      return Some(LinksToItself);
    }
    if exists x | x in previous + next :: x !in liveIds {
      return Some(NotInLadder);
    }
    KeptArcs(edges, r);
    var kept := ArcList(Kept(edges, r));
    var links := RowsFrom(previous, r) + RowsTo(Rung(r), next);
    assert Elements(kept + links) == Proposed(t.arcs, r, Elements(previous), Elements(next));
    var cycle := HasCycle(kept + links);
    return if cycle then Some(MakesCycle) else None;
  }

  /** The rungs that lose their last way in when the edges of `r` are replaced. */
  method OrphanList(edges: seq<Edge>, liveIds: set<RungId>, r: RungId, next: seq<RungId>) returns (orphans: seq<RungId>)
    ensures Distinct(orphans)
    ensures forall x :: x in orphans <==> Orphaned(LadderState(liveIds, ArcsOf(edges)), r, Elements(next), x)
  {
    var candidates := [];
    for k := 0 to |edges|
      invariant forall x :: x in candidates <==> Arc(Rung(r), x) in ArcsOf(edges[..k]) && x !in next
    {
      var a := edges[k].arc;
      assert edges[..k + 1] == edges[..k] + [edges[k]];
      ArcsOfAppend(edges[..k], edges[k]);
      if a.from == Rung(r) && a.to !in next {
        candidates := candidates + [a.to];
      }
    }
    assert edges[..|edges|] == edges;
    candidates := Dedupe(candidates);
    var kept := Kept(edges, r);
    KeptArcs(edges, r);
    orphans := [];
    for k := 0 to |candidates|
      invariant Distinct(orphans)
      invariant forall x :: x in orphans <==> x in candidates[..k] && x in liveIds && !HasWayIn(liveIds, ArcsOf(kept), x)
    {
      var x := candidates[k];
      assert x !in candidates[..k];
      assert forall y :: y in candidates[..k + 1] <==> y in candidates[..k] || y == x;
      if x in liveIds {
        var reached := exists e | e in kept :: e.arc.to == x && (e.arc.from == Entry || e.arc.from.id in liveIds);
        assert reached <==> HasWayIn(liveIds, ArcsOf(kept), x) by {
          if e :| e in kept && e.arc.to == x && LiveNode(liveIds, e.arc.from) {
            assert LiveNode(liveIds, e.arc.from) && Arc(e.arc.from, x) in ArcsOf(kept);
          }
        }
        if !reached {
          orphans := orphans + [x];
        }
      }
    }
    assert candidates[..|candidates|] == candidates;
  }

  /** The rows that a saved stage inserts, entry and orphan repair included. */
  method StageRows(edges: seq<Edge>, liveIds: set<RungId>, r: RungId, previous: seq<RungId>, next: seq<RungId>,
                   ghost t: LadderState)
    returns (rows: seq<Arc>)
    requires t == LadderState(liveIds, ArcsOf(edges))
    requires Distinct(previous) && Distinct(next) && r !in previous + next && Arc(Rung(r), r) !in t.arcs
    ensures Distinct(rows)
    ensures forall a | a in rows :: a !in Untouched(t.arcs, r)
    ensures Untouched(t.arcs, r) + Elements(rows) == StageArcs(t, r, Elements(previous), Elements(next))
  {
    var into, onward := RowsFrom(previous, r), RowsTo(Rung(r), next);
    DistinctConcat(into, onward);
    rows := into + onward;
    var orphans := OrphanList(edges, liveIds, r, next);
    assert r !in orphans;
    if |previous| == 0 {
      DistinctConcat(rows, [Arc(Entry, r)]);
      rows := rows + [Arc(Entry, r)];
    }
    assert (Elements(previous) == {}) == (|previous| == 0) by {
      assert |previous| > 0 ==> previous[0] in Elements(previous);
    }
    var repaired := RowsTo(Entry, orphans);
    assert forall a | a in repaired :: a in Elements(repaired);
    DistinctConcat(rows, repaired);
    forall x | x in orphans ensures Arc(Entry, x) !in Untouched(t.arcs, r) {
      assert Orphaned(t, r, Elements(next), x) && LiveNode(liveIds, Entry);
    }
    assert Elements(orphans) == set x | x in t.live && Orphaned(t, r, Elements(next), x);
    rows := rows + repaired;
  }

  lemma ArcsAfterDelete(edges: seq<Edge>, ids: seq<nat>, rest: seq<Edge>, r: RungId)
    requires forall i, j | 0 <= i < j < |edges| :: edges[i].id != edges[j].id
    requires forall e :: e in rest <==> e in edges && e.id !in ids
    requires forall i :: i in ids <==> exists e :: e in edges && e.id == i && e.arc.from == Rung(r)
    ensures ArcsOf(rest) == set a | a in ArcsOf(edges) && a.from != Rung(r)
  {
    forall e | e in edges ensures e.id in ids <==> e.arc.from == Rung(r) {
    }
  }
}
