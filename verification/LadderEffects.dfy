/** What each edit of a ladder leaves behind, arc by arc, and exactly when it is refused. */
module LadderEffects {
  import opened Basics
  import opened LadderGraph
  import opened LadderEdits
  import opened LadderRaces

  // ----- Saving a stage ----------------------------------------------------------------------

  /** `x` is to come before the stage: it was sent, or nothing was sent and it is a live rung with an edge there. */
  ghost predicate Precedes(s: LadderState, e: Edit, x: RungId)
    requires e.SaveStage?
  {
    match e.previousInput
    case Some(ids) => x in ids
    case None => (x in s.live || x == e.rung) && Arc(Rung(x), e.rung) in s.arcs
  }

  ghost predicate Succeeds(s: LadderState, e: Edit, x: RungId)
    requires e.SaveStage?
  {
    match e.nextInput
    case Some(ids) => x in ids
    case None => (x in s.live || x == e.rung) && Arc(Rung(e.rung), x) in s.arcs
  }

  /** The stage led to `x`, does so no longer, and neither the entry nor any other live rung does. */
  ghost predicate Stranded(s: LadderState, e: Edit, after: LadderState, x: RungId)
    requires e.SaveStage?
  {
    && x in after.live && Arc(Rung(e.rung), x) in s.arcs && Arc(Rung(e.rung), x) !in after.arcs
    && Arc(Entry, x) !in s.arcs
    && forall y | y in after.live && y != e.rung :: Arc(Rung(y), x) !in s.arcs
  }

  /** Every arc of the ladder after a stage was saved: into it, out of it, and elsewhere with a new entry for a stranded rung. */
  ghost predicate SavedAs(s: LadderState, e: Edit, after: LadderState)
    requires e.SaveStage?
  {
    && after.live == s.live + {e.rung}
    && (forall x :: Arc(Rung(x), e.rung) in after.arcs <==> Precedes(s, e, x))
    && (forall x :: Arc(Rung(e.rung), x) in after.arcs <==> Succeeds(s, e, x))
    && (Arc(Entry, e.rung) in after.arcs <==> forall x :: Arc(Rung(x), e.rung) !in after.arcs)
    && (forall a: Arc | a.from != Rung(e.rung) && a.to != e.rung ::
          a in after.arcs <==> a in s.arcs || (a.from == Entry && Stranded(s, e, after, a.to)))
  }

  lemma ChosenIds(s: LadderState, e: Edit, x: RungId)
    requires e.SaveStage?
    ensures x in PreviousIds(WithRung(s, e.rung), e.rung, e.previousInput) <==> Precedes(s, e, x)
    ensures x in NextIds(WithRung(s, e.rung), e.rung, e.nextInput) <==> Succeeds(s, e, x)
  {
  }

  lemma StrandedIsOrphaned(s: LadderState, e: Edit, x: RungId)
    requires e.SaveStage? && Refused(s, e).None? && x != e.rung
    requires forall y :: Arc(Rung(e.rung), y) in Apply(s, e).arcs <==> Succeeds(s, e, y)
    ensures var t := WithRung(s, e.rung);
            Stranded(s, e, Apply(s, e), x) <==> Orphaned(t, e.rung, NextIds(t, e.rung, e.nextInput), x)
  {
    var t, after := WithRung(s, e.rung), Apply(s, e);
    ChosenIds(s, e, x);
    if Stranded(s, e, after, x) {
      forall n | LiveNode(t.live, n) ensures Arc(n, x) !in Untouched(t.arcs, e.rung) {
        assert n == Entry || n.id in after.live;
      }
    }
    if !HasWayIn(t.live, Untouched(t.arcs, e.rung), x) {
      forall y | y in after.live && y != e.rung ensures Arc(Rung(y), x) !in s.arcs {
        assert LiveNode(t.live, Rung(y));
      }
      assert LiveNode(t.live, Entry);
    }
  }

  lemma StageArcsTouching(s: LadderState, e: Edit, x: RungId)
    requires e.SaveStage? && Refused(s, e).None?
    ensures Arc(Rung(x), e.rung) in Apply(s, e).arcs <==> Precedes(s, e, x)
    ensures Arc(Rung(e.rung), x) in Apply(s, e).arcs <==> Succeeds(s, e, x)
  {
    ChosenIds(s, e, x);
    ChosenIds(s, e, e.rung);
  }

  lemma StageEntry(s: LadderState, e: Edit)
    requires e.SaveStage? && Refused(s, e).None? && !Cyclic(s.arcs)
    ensures Arc(Entry, e.rung) in Apply(s, e).arcs <==> forall x :: !Precedes(s, e, x)
  {
    var r, t := e.rung, WithRung(s, e.rung);
    var previous := PreviousIds(t, r, e.previousInput);
    AcyclicHasNoSelfLoop(s.arcs, r);
    assert !Orphaned(t, r, NextIds(t, r, e.nextInput), r);
    forall x ensures x in previous <==> Precedes(s, e, x) {
      ChosenIds(s, e, x);
    }
  }

  /** A saved stage has the neighbours sent for it, keeps those it had where none were sent, and strands no rung. */
  lemma SavedExactly(s: LadderState, e: Edit)
    requires e.SaveStage? && Refused(s, e).None? && !Cyclic(s.arcs)
    ensures SavedAs(s, e, Apply(s, e))
  {
    var after := Apply(s, e);
    forall x
      ensures Arc(Rung(x), e.rung) in after.arcs <==> Precedes(s, e, x)
      ensures Arc(Rung(e.rung), x) in after.arcs <==> Succeeds(s, e, x)
    {
      StageArcsTouching(s, e, x);
    }
    StageEntry(s, e);
    forall a: Arc | a.from != Rung(e.rung) && a.to != e.rung
      ensures a in after.arcs <==> a in s.arcs || (a.from == Entry && Stranded(s, e, after, a.to))
    {
      StrandedIsOrphaned(s, e, a.to);
    }
  }

  // ----- The other edits -----------------------------------------------------------------------

  /** A created rung has an edge from each source sent, and an entry if no live rung had one. */
  ghost predicate CreatedAs(s: LadderState, e: Edit, after: LadderState)
    requires e.CreateRung?
  {
    && after.live == s.live + {e.rung}
    && (forall x :: Arc(Rung(x), e.rung) in after.arcs <==> x in e.fromRungs)
    && (Arc(Entry, e.rung) in after.arcs <==> forall x | x in s.live :: Arc(Entry, x) !in s.arcs)
    && (forall a: Arc | a.to != e.rung :: a in after.arcs <==> a in s.arcs)
  }

  lemma CreatedExactly(s: LadderState, e: Edit)
    requires e.CreateRung? && Refused(s, e).None?
    ensures CreatedAs(s, e, Apply(s, e))
  {
    forall x ensures Arc(Rung(x), e.rung) in Apply(s, e).arcs <==> x in e.fromRungs {
      assert Touches(Arc(Rung(x), e.rung), e.rung);
    }
    assert Touches(Arc(Entry, e.rung), e.rung);
  }

  /** Replaced next rungs are those sent; every edge out of another node stays. */
  ghost predicate ReplacedAs(s: LadderState, e: Edit, after: LadderState)
    requires e.SetNextRungs?
  {
    && after.live == s.live
    && (forall x :: Arc(Rung(e.rung), x) in after.arcs <==> x in e.nexts)
    && (forall a: Arc | a.from != Rung(e.rung) :: a in after.arcs <==> a in s.arcs)
  }

  lemma ReplacedExactly(s: LadderState, e: Edit)
    requires e.SetNextRungs? && Refused(s, e).None?
    ensures ReplacedAs(s, e, Apply(s, e))
  {
    forall x ensures Arc(Rung(e.rung), x) in Apply(s, e).arcs <==> x in e.nexts {
      assert x in Elements(e.nexts) <==> x in e.nexts;
    }
  }

  /** A deleted rung leaves the other edges, and each of its predecessors joined to each of its successors. */
  ghost predicate DeletedAs(s: LadderState, e: Edit, after: LadderState)
    requires e.DeleteRung?
  {
    && after.live == s.live - {e.rung}
    && (forall a :: a in after.arcs <==>
          || (a in s.arcs && a.from != Rung(e.rung) && a.to != e.rung)
          || (Arc(a.from, e.rung) in s.arcs && Arc(Rung(e.rung), a.to) in s.arcs))
  }

  lemma DeletedExactly(s: LadderState, e: Edit)
    requires e.DeleteRung? && Refused(s, e).None? && !Cyclic(s.arcs)
    ensures DeletedAs(s, e, Apply(s, e))
  {
    var r := e.rung;
    AcyclicHasNoSelfLoop(s.arcs, r);
    forall a
      ensures a in Apply(s, e).arcs <==>
                || (a in s.arcs && a.from != Rung(r) && a.to != r)
                || (Arc(a.from, r) in s.arcs && Arc(Rung(r), a.to) in s.arcs)
    {
      AfterRemovalArcs(s.arcs, r, a);
      if Arc(Rung(r), a.to) in s.arcs {
        AcyclicHasNoTwoCycle(s.arcs, r, a.to);
      }
    }
  }

  // ----- Exactly when an edit is refused ---------------------------------------------------------

  /** A creation is refused only for a source that is not in the ladder, a deletion only for a rung that is missing or in use. */
  lemma CreateAndDeleteRefused(s: LadderState, e: Edit)
    requires (e.CreateRung? && Fresh(s, e.rung)) || e.DeleteRung?
    ensures e.CreateRung? ==> (Refused(s, e) == None <==> forall x | x in e.fromRungs :: x in s.live)
    ensures e.CreateRung? ==> Refused(s, e) in {None, Some(SourceNotInLadder)}
    ensures e.DeleteRung? ==> (Refused(s, e) == None <==> e.rung in s.live && e.holders == 0)
    ensures e.DeleteRung? ==> (Refused(s, e) == Some(InUse) <==> e.rung in s.live && e.holders != 0)
    ensures e.DeleteRung? ==> Refused(s, e) in {None, Some(InUse), Some(NotFound)}
    ensures Refused(s, e).Some? ==> Apply(s, e) == s
  {
    if e.CreateRung? {
      assert Elements(e.fromRungs) <= s.live <==> forall x | x in e.fromRungs :: x in s.live;
    }
  }

  ghost predicate LeadsHome(s: LadderState, r: RungId, x: RungId) {
    var others := set a | a in s.arcs && a.from != Rung(r);
    Reaches(others, Rung(x), Rung(r))
  }

  /** A replacement closes a cycle exactly when a next rung leads back to the rung over the edges of the others. */
  lemma SetNextRefused(s: LadderState, e: Edit)
    requires e.SetNextRungs? && !Cyclic(s.arcs)
    ensures Refused(s, e)
         == if e.rung !in s.live || !Distinct(e.nexts) || (exists x | x in e.nexts :: x !in s.live) then Some(NotFound)
            else if e.rung in e.nexts then Some(LinksToItself)
            else if exists x | x in e.nexts :: LeadsHome(s, e.rung, x) then Some(MakesCycle)
            else None
  {
    assert (set a | a in s.arcs && a.from != Rung(e.rung)) == Rest(s.arcs, e.rung);
    ReplacedCyclesExactly(s.arcs, e.rung, Elements(e.nexts));
    assert forall x :: x in Elements(e.nexts) <==> x in e.nexts;
  }

  // ----- Exactly when a stage is refused -----------------------------------------------------------

  lemma StartsInto(arcs: set<Arc>, r: RungId, froms: set<RungId>, p: seq<Node>)
    requires r !in froms && Walk(Untouched(arcs, r) + ArcsFrom(froms, r), p) && |p| >= 2 && p[0] != Rung(r) && p[|p| - 1] == Rung(r)
    ensures exists f :: f in froms && Reaches(Untouched(arcs, r), p[0], Rung(f))
  {
    var g, n := Untouched(arcs, r) + ArcsFrom(froms, r), |p| - 1;
    assert Linked(g, p[n - 1], p[n]);
    var q := p[..n];
    forall i | 0 <= i < |q| - 1 ensures Linked(Untouched(arcs, r), q[i], q[i + 1]) {
      assert Linked(g, p[i], p[i + 1]) && Linked(g, p[i + 1], p[i + 2]);
    }
    assert WalkBetween(Untouched(arcs, r), q, p[0], p[n - 1]);
  }

  lemma ReachesMonotone(g: set<Arc>, h: set<Arc>, a: Node, b: Node)
    requires Reaches(g, a, b) && g <= h
    ensures Reaches(h, a, b)
  {
    var p :| WalkBetween(g, p, a, b);
    WalkMonotone(g, h, p);
    assert WalkBetween(h, p, a, b);
  }

  /** Over the untouched edges and those from `froms`, a node leads to `r` exactly when it leads to one of them. */
  lemma ReachesThrough(arcs: set<Arc>, r: RungId, froms: set<RungId>, x: RungId)
    requires x != r && r !in froms
    ensures Reaches(Untouched(arcs, r) + ArcsFrom(froms, r), Rung(x), Rung(r))
       <==> exists f :: f in froms && Reaches(Untouched(arcs, r), Rung(x), Rung(f))
  {
    var g := Untouched(arcs, r) + ArcsFrom(froms, r);
    if Reaches(g, Rung(x), Rung(r)) {
      var p :| WalkBetween(g, p, Rung(x), Rung(r));
      StartsInto(arcs, r, froms, p);
    }
    if f :| f in froms && Reaches(Untouched(arcs, r), Rung(x), Rung(f)) {
      ReachesMonotone(Untouched(arcs, r), g, Rung(x), Rung(f));
      ReachesArc(g, Rung(f), Rung(r));
      ReachesTransitive(g, Rung(x), Rung(f), Rung(r));
    }
  }

  /** The proposed stage closes a cycle exactly when a next rung leads to a previous one without it. */
  lemma ProposedCyclesExactly(arcs: set<Arc>, r: RungId, previous: set<RungId>, next: set<RungId>)
    requires !Cyclic(arcs) && r !in previous + next
    ensures Cyclic(Proposed(arcs, r, previous, next))
       <==> exists x, y :: x in next && y in previous && Reaches(Untouched(arcs, r), Rung(x), Rung(y))
  {
    var base := Untouched(arcs, r) + ArcsFrom(previous, r);
    assert !Cyclic(base) by {
      SinkArcsAddNoCycle(arcs, base, r);
    }
    assert Rest(base, r) == base;
    assert NextArcs(base, r, next) == Proposed(arcs, r, previous, next);
    ReplacedCyclesExactly(base, r, next);
    forall x | x in next
      ensures Reaches(base, Rung(x), Rung(r)) <==> exists y :: y in previous && Reaches(Untouched(arcs, r), Rung(x), Rung(y))
    {
      ReachesThrough(arcs, r, previous, x);
    }
  }

  ghost predicate LeadsBack(s: LadderState, e: Edit, x: RungId, y: RungId)
    requires e.SaveStage?
  {
    var others := set a | a in s.arcs && a.from != Rung(e.rung) && a.to != e.rung;
    Succeeds(s, e, x) && Precedes(s, e, y) && Reaches(others, Rung(x), Rung(y))
  }

  /** The refusals of a stage in their order: a cycle is what a next rung that leads to a previous one without the stage closes. */
  lemma StageRefused(s: LadderState, e: Edit)
    requires e.SaveStage? && (e.isNew ==> Fresh(s, e.rung)) && !Cyclic(s.arcs)
    ensures Refused(s, e)
         == if !e.isNew && e.rung !in s.live then Some(NotFound)
            else if exists x :: Precedes(s, e, x) && Succeeds(s, e, x) then Some(PreviousAndNext)
            else if Precedes(s, e, e.rung) || Succeeds(s, e, e.rung) then Some(LinksToItself)
            else if exists x :: (Precedes(s, e, x) || Succeeds(s, e, x)) && x !in s.live then Some(NotInLadder)
            else if exists x, y :: LeadsBack(s, e, x, y) then Some(MakesCycle)
            else None
  {
    if e.isNew || e.rung in s.live {
      var t := WithRung(s, e.rung);
      var previous, next := PreviousIds(t, e.rung, e.previousInput), NextIds(t, e.rung, e.nextInput);
      forall x ensures (x in previous <==> Precedes(s, e, x)) && (x in next <==> Succeeds(s, e, x)) {
        ChosenIds(s, e, x);
      }
      StageRefusedBy(s, e, t, previous, next);
    }
  }

  lemma StageRefusedBy(s: LadderState, e: Edit, t: LadderState, previous: set<RungId>, next: set<RungId>)
    requires e.SaveStage? && !Cyclic(s.arcs) && t == WithRung(s, e.rung)
    requires forall x :: (x in previous <==> Precedes(s, e, x)) && (x in next <==> Succeeds(s, e, x))
    ensures StageRefusal(t, e.rung, previous, next)
         == if exists x :: Precedes(s, e, x) && Succeeds(s, e, x) then Some(PreviousAndNext)
            else if Precedes(s, e, e.rung) || Succeeds(s, e, e.rung) then Some(LinksToItself)
            else if exists x :: (Precedes(s, e, x) || Succeeds(s, e, x)) && x !in s.live then Some(NotInLadder)
            else if exists x, y :: LeadsBack(s, e, x, y) then Some(MakesCycle)
            else None
  {
    var r := e.rung;
    assert previous * next != {} <==> exists x :: Precedes(s, e, x) && Succeeds(s, e, x) by {
      if x :| Precedes(s, e, x) && Succeeds(s, e, x) {
        assert x in previous * next;
      }
      if previous * next != {} {
        var x :| x in previous * next;
        assert Precedes(s, e, x) && Succeeds(s, e, x);
      }
    }
    if r !in previous + next {
      assert previous + next <= t.live <==> !exists x :: (Precedes(s, e, x) || Succeeds(s, e, x)) && x !in s.live;
      ProposedCyclesExactly(s.arcs, r, previous, next);
      assert Untouched(s.arcs, r) == set a | a in s.arcs && a.from != Rung(r) && a.to != r;
      assert forall x, y :: LeadsBack(s, e, x, y) <==> x in next && y in previous && Reaches(Untouched(s.arcs, r), Rung(x), Rung(y));
    }
  }
}
