/** Career ladders as graphs: walks, reachability, cycles, and what removing a rung with bridging keeps. */
module LadderGraph {
  import opened Basics

  type RungId = nat

  /** The entry is the null source of an edge. No arc leads into it, so reachability from it is ordinary reachability. */
  datatype Node = Entry | Rung(id: RungId)

  datatype Arc = Arc(from: Node, to: RungId)

  predicate Linked(g: set<Arc>, a: Node, b: Node) {
    b.Rung? && Arc(a, b.id) in g
  }

  ghost predicate Walk(g: set<Arc>, p: seq<Node>) {
    |p| >= 1 && forall i | 0 <= i < |p| - 1 :: Linked(g, p[i], p[i + 1])
  }

  ghost predicate WalkBetween(g: set<Arc>, p: seq<Node>, a: Node, b: Node) {
    Walk(g, p) && p[0] == a && p[|p| - 1] == b
  }

  ghost predicate Reaches(g: set<Arc>, a: Node, b: Node) {
    exists p :: WalkBetween(g, p, a, b)
  }

  ghost predicate IsCycle(g: set<Arc>, p: seq<Node>) {
    Walk(g, p) && |p| >= 2 && p[0] == p[|p| - 1]
  }

  ghost predicate Cyclic(g: set<Arc>) {
    exists p :: IsCycle(g, p)
  }

  predicate Touches(a: Arc, r: RungId) {
    a.from == Rung(r) || a.to == r
  }

  function Untouched(g: set<Arc>, r: RungId): set<Arc> {
    set a | a in g && !Touches(a, r)
  }

  /** Every predecessor of `r` joined to every successor of `r` other than itself. */
  ghost predicate IsBridge(g: set<Arc>, r: RungId, a: Arc) {
    Arc(a.from, r) in g && Arc(Rung(r), a.to) in g && a.to != r && a.from != Rung(a.to)
  }

  ghost function AfterRemoval(g: set<Arc>, r: RungId): set<Arc> {
    Untouched(g, r) + set x, y | x in g && y in g && IsBridge(g, r, Arc(x.from, y.to)) :: Arc(x.from, y.to)
  }

  lemma AfterRemovalArcs(g: set<Arc>, r: RungId, a: Arc)
    ensures a in AfterRemoval(g, r) <==> (a in g && !Touches(a, r)) || IsBridge(g, r, a)
  {
    if IsBridge(g, r, a) {
      var x, y := Arc(a.from, r), Arc(Rung(r), a.to);
      assert x in g && y in g && Arc(x.from, y.to) == a;
    }
  }

  // ----- Walks ---------------------------------------------------------------------------

  lemma WalkConcat(g: set<Arc>, p: seq<Node>, q: seq<Node>)
    requires Walk(g, p) && Walk(g, q) && p[|p| - 1] == q[0]
    ensures WalkBetween(g, p + q[1..], p[0], q[|q| - 1])
  {
    var w := p + q[1..];
    forall i | 0 <= i < |w| - 1 ensures Linked(g, w[i], w[i + 1]) {
      if i >= |p| - 1 {
        assert w[i + 1] == q[i - |p| + 2];
        assert w[i] == q[i - |p| + 1];
      }
    }
  }

  lemma ReachesTransitive(g: set<Arc>, a: Node, b: Node, c: Node)
    requires Reaches(g, a, b) && Reaches(g, b, c)
    ensures Reaches(g, a, c)
  {
    var p :| WalkBetween(g, p, a, b);
    var q :| WalkBetween(g, q, b, c);
    WalkConcat(g, p, q);
    assert WalkBetween(g, p + q[1..], a, c);
  }

  lemma ReachesArc(g: set<Arc>, a: Node, b: Node)
    requires Linked(g, a, b)
    ensures Reaches(g, a, b)
  {
    assert WalkBetween(g, [a, b], a, b);
  }

  lemma ReachesSelf(g: set<Arc>, a: Node)
    ensures Reaches(g, a, a)
  {
    assert WalkBetween(g, [a], a, a);
  }

  lemma WalkMonotone(g: set<Arc>, h: set<Arc>, p: seq<Node>)
    requires Walk(g, p) && g <= h
    ensures Walk(h, p)
  {
    forall i | 0 <= i < |p| - 1 ensures Linked(h, p[i], p[i + 1]) {
      assert Linked(g, p[i], p[i + 1]);
    }
  }

  /** Arcs out of the entry lie on no cycle. */
  lemma EntryArcsAddNoCycle(g: set<Arc>, h: set<Arc>)
    requires !Cyclic(g)
    requires forall a | a in h :: a in g || a.from == Entry
    ensures !Cyclic(h)
  {
    forall p: seq<Node> | IsCycle(h, p) ensures false {
      assert Linked(h, p[|p| - 2], p[|p| - 1]);
      forall i | 0 <= i < |p| - 1 ensures Linked(g, p[i], p[i + 1]) {
        assert Linked(h, p[i], p[i + 1]);
        assert i > 0 ==> Linked(h, p[i - 1], p[i]);
      }
      assert IsCycle(g, p);
    }
  }

  /** Arcs into a rung with no way out lie on no cycle. */
  lemma SinkArcsAddNoCycle(g: set<Arc>, h: set<Arc>, sink: RungId)
    requires !Cyclic(g)
    requires forall a | a in h :: a in g || a.to == sink
    requires forall a | a in h :: a.from != Rung(sink)
    ensures !Cyclic(h)
  {
    forall p: seq<Node> | IsCycle(h, p) ensures false {
      forall i | 0 <= i < |p| - 1 ensures Linked(g, p[i], p[i + 1]) {
        assert Linked(h, p[i], p[i + 1]);
        if i + 1 < |p| - 1 {
          assert Linked(h, p[i + 1], p[i + 2]);
        } else {
          assert Linked(h, p[0], p[1]);
        }
      }
      assert IsCycle(g, p);
    }
  }

  // ----- A topological order certifies that there is no cycle ------------------------------

  ghost predicate Ordered(g: set<Arc>, order: seq<RungId>) {
    && Distinct(order)
    && forall i, y | 0 <= i < |order| && Arc(Rung(order[i]), y) in g :: y in order[..i]
  }

  lemma {:induction false} WalkDescends(g: set<Arc>, order: seq<RungId>, p: seq<Node>, i: nat)
    requires Ordered(g, order) && Walk(g, p) && |p| >= 2
    requires i < |order| && p[0] == Rung(order[i])
    ensures p[|p| - 1].Rung? && p[|p| - 1].id in order[..i]
    decreases |p|
  {
    assert Linked(g, p[0], p[1]);
    assert p[1].id in order[..i];
    if |p| > 2 {
      var j :| 0 <= j < i && order[j] == p[1].id;
      forall k | 0 <= k < |p| - 2 ensures Linked(g, p[1..][k], p[1..][k + 1]) {
        assert Linked(g, p[k + 1], p[k + 2]);
      }
      WalkDescends(g, order, p[1..], j);
      assert order[..j] <= order[..i];
    }
  }

  lemma OrderedIsAcyclic(g: set<Arc>, order: seq<RungId>)
    requires Ordered(g, order)
    requires forall a | a in g && a.from.Rung? :: a.from.id in order
    ensures !Cyclic(g)
  {
    forall p: seq<Node> | IsCycle(g, p) ensures false {
      assert Linked(g, p[0], p[1]);
      assert Linked(g, p[|p| - 2], p[|p| - 1]);
      var source: Node := p[0];
      var i :| 0 <= i < |order| && order[i] == source.id;
      WalkDescends(g, order, p, i);
    }
  }

  // ----- Removing a rung keeps reachability exactly ---------------------------------------

  /** Each walk after the removal expands to a walk before it that is at least as long. */
  lemma {:induction false} ExpandWalk(g: set<Arc>, r: RungId, p: seq<Node>) returns (q: seq<Node>)
    requires Walk(AfterRemoval(g, r), p)
    ensures WalkBetween(g, q, p[0], p[|p| - 1]) && |q| >= |p|
    decreases |p|
  {
    if |p| == 1 {
      q := p;
    } else {
      var h := AfterRemoval(g, r);
      assert Linked(h, p[0], p[1]);
      AfterRemovalArcs(g, r, Arc(p[0], p[1].id));
      forall k | 0 <= k < |p| - 2 ensures Linked(h, p[1..][k], p[1..][k + 1]) {
        assert Linked(h, p[k + 1], p[k + 2]);
      }
      var tail := ExpandWalk(g, r, p[1..]);
      var head := if Arc(p[0], p[1].id) in g then [p[0], p[1]] else [p[0], Rung(r), p[1]];
      assert Walk(g, head);
      WalkConcat(g, head, tail);
      q := head + tail[1..];
    }
  }

  /** Each walk before the removal between other nodes is shortened to one that avoids `r`. */
  lemma {:induction false} ShortcutWalk(g: set<Arc>, r: RungId, p: seq<Node>)
    requires Walk(g, p) && p[0] != Rung(r) && p[|p| - 1] != Rung(r)
    ensures Reaches(AfterRemoval(g, r), p[0], p[|p| - 1])
    decreases |p|
  {
    var h, b := AfterRemoval(g, r), p[|p| - 1];
    if |p| == 1 {
      ReachesSelf(h, b);
    } else {
      assert Linked(g, p[0], p[1]);
      if p[1] != Rung(r) {
        AfterRemovalArcs(g, r, Arc(p[0], p[1].id));
        WalkSuffix(g, p, 1);
        ShortcutWalk(g, r, p[1..]);
        ReachesArc(h, p[0], p[1]);
        ReachesTransitive(h, p[0], p[1], b);
      } else {
        assert Linked(g, p[1], p[2]);
        WalkSuffix(g, p, 2);
        if p[2] == Rung(r) {
          var shorter := [p[0]] + p[2..];
          WalkConcat(g, [p[0], p[2]], p[2..]);
          assert [p[0], p[2]] + p[2..][1..] == shorter;
          ShortcutWalk(g, r, shorter);
        } else {
          ShortcutWalk(g, r, p[2..]);
          if p[0] != p[2] {
            AfterRemovalArcs(g, r, Arc(p[0], p[2].id));
            ReachesArc(h, p[0], p[2]);
            ReachesTransitive(h, p[0], p[2], b);
          }
        }
      }
    }
  }

  lemma WalkSuffix(g: set<Arc>, p: seq<Node>, n: nat)
    requires Walk(g, p) && n < |p|
    ensures Walk(g, p[n..])
  {
    forall k | 0 <= k < |p| - n - 1 ensures Linked(g, p[n..][k], p[n..][k + 1]) {
      assert Linked(g, p[n + k], p[n + k + 1]);
    }
  }

  /** No reachability among the other nodes, the entry included, is lost or gained. */
  lemma RemovalKeepsReachability(g: set<Arc>, r: RungId, a: Node, b: Node)
    requires a != Rung(r) && b != Rung(r)
    ensures Reaches(AfterRemoval(g, r), a, b) <==> Reaches(g, a, b)
  {
    if Reaches(g, a, b) {
      var p :| WalkBetween(g, p, a, b);
      ShortcutWalk(g, r, p);
    }
    if Reaches(AfterRemoval(g, r), a, b) {
      var p :| WalkBetween(AfterRemoval(g, r), p, a, b);
      var q := ExpandWalk(g, r, p);
    }
  }

  /** Bridging creates no cycle. */
  lemma RemovalKeepsAcyclic(g: set<Arc>, r: RungId)
    requires !Cyclic(g)
    ensures !Cyclic(AfterRemoval(g, r))
  {
    forall p | IsCycle(AfterRemoval(g, r), p) ensures false {
      var q := ExpandWalk(g, r, p);
      assert IsCycle(g, q);
    }
  }

  /**
    The removed rung is left without an edge, except when it has a self-loop and another
    successor: then its own self-loop is bridged onwards from it.
   */
  lemma RemovalDetachesRung(g: set<Arc>, r: RungId)
    ensures (forall a | a in AfterRemoval(g, r) :: !Touches(a, r))
       <==> !(Arc(Rung(r), r) in g && exists y :: y != r && Arc(Rung(r), y) in g)
  {
    forall a ensures a in AfterRemoval(g, r) <==> (a in g && !Touches(a, r)) || IsBridge(g, r, a) {
      AfterRemovalArcs(g, r, a);
    }
    if y :| Arc(Rung(r), r) in g && y != r && Arc(Rung(r), y) in g {
      assert IsBridge(g, r, Arc(Rung(r), y));
      assert Arc(Rung(r), y) in AfterRemoval(g, r) && Touches(Arc(Rung(r), y), r);
    }
  }

  lemma AcyclicHasNoSelfLoop(g: set<Arc>, r: RungId)
    requires !Cyclic(g)
    ensures Arc(Rung(r), r) !in g
  {
    if Arc(Rung(r), r) in g {
      assert IsCycle(g, [Rung(r), Rung(r)]);
    }
  }

  lemma AcyclicHasNoTwoCycle(g: set<Arc>, r: RungId, x: RungId)
    requires !Cyclic(g) && Arc(Rung(r), x) in g
    ensures Arc(Rung(x), r) !in g
  {
    if Arc(Rung(x), r) in g {
      var c := [Rung(r), Rung(x), Rung(r)];
      assert Linked(g, c[0], c[1]) && Linked(g, c[1], c[2]);
      assert IsCycle(g, c);
    }
  }

  // ----- Reachability of every live rung, locally -----------------------------------------

  predicate LiveNode(live: set<RungId>, n: Node) {
    n == Entry || n.id in live
  }

  /** A walk from the entry whose rungs are all live. */
  ghost predicate LiveWalk(live: set<RungId>, g: set<Arc>, p: seq<Node>, x: RungId) {
    WalkBetween(g, p, Entry, Rung(x)) && forall n | n in p :: LiveNode(live, n)
  }

  ghost predicate AllReachable(live: set<RungId>, g: set<Arc>) {
    forall x | x in live :: exists p :: LiveWalk(live, g, p, x)
  }

  ghost predicate HasWayIn(live: set<RungId>, g: set<Arc>, x: RungId) {
    exists n :: LiveNode(live, n) && Arc(n, x) in g
  }

  lemma ReachableHasWayIn(live: set<RungId>, g: set<Arc>)
    requires AllReachable(live, g)
    ensures forall x | x in live :: HasWayIn(live, g, x)
  {
    forall x | x in live ensures HasWayIn(live, g, x) {
      var p :| LiveWalk(live, g, p, x);
      assert Linked(g, p[|p| - 2], p[|p| - 1]);
      assert p[|p| - 2] in p;
      assert LiveNode(live, p[|p| - 2]) && Arc(p[|p| - 2], x) in g;
    }
  }

  lemma LivePathBound(live: set<RungId>, p: seq<Node>)
    requires Distinct(p) && forall n | n in p :: n.Rung? && n.id in live
    ensures |p| <= |live|
  {
    var ids := seq(|p|, i requires 0 <= i < |p| => if p[i].Rung? then p[i].id else 0);
    assert forall i | 0 <= i < |p| :: p[i] in p && p[i] == Rung(ids[i]);
    DistinctBound(ids, live);
  }

  lemma PrependArc(g: set<Arc>, n: Node, p: seq<Node>)
    requires Walk(g, p) && Linked(g, n, p[0])
    ensures Walk(g, [n] + p)
  {
    WalkConcat(g, [n, p[0]], p);
    assert [n, p[0]] + p[1..] == [n] + p;
  }

  lemma BackEdgeCloses(g: set<Arc>, n: Node, p: seq<Node>)
    requires Walk(g, [n] + p) && n in p
    ensures Cyclic(g)
  {
    var q := [n] + p;
    var k :| 0 <= k < |p| && p[k] == n;
    var c := q[..k + 2];
    forall i | 0 <= i < |c| - 1 ensures Linked(g, c[i], c[i + 1]) {
      assert Linked(g, q[i], q[i + 1]);
    }
    assert IsCycle(g, c);
  }

  ghost predicate LivePath(live: set<RungId>, p: seq<Node>) {
    Distinct(p) && forall n | n in p :: n.Rung? && n.id in live
  }

  lemma PrependLive(live: set<RungId>, n: Node, p: seq<Node>)
    requires LivePath(live, p) && n.Rung? && n.id in live && n !in p
    ensures LivePath(live, [n] + p) && |[n] + p| <= |live|
  {
    var q := [n] + p;
    assert forall i | 0 < i < |q| :: q[i] == p[i - 1] && p[i - 1] in p;
    LivePathBound(live, q);
  }

  lemma FromEntry(live: set<RungId>, g: set<Arc>, p: seq<Node>, x: RungId)
    requires Walk(g, [Entry] + p) && LivePath(live, p) && p != [] && p[|p| - 1] == Rung(x)
    ensures LiveWalk(live, g, [Entry] + p, x)
  {
  }

  lemma WayInBefore(live: set<RungId>, g: set<Arc>, p: seq<Node>) returns (n: Node)
    requires forall y | y in live :: HasWayIn(live, g, y)
    requires Walk(g, p) && LivePath(live, p)
    ensures LiveNode(live, n) && Walk(g, [n] + p)
  {
    assert p[0] in p && HasWayIn(live, g, p[0].id);
    n :| LiveNode(live, n) && Arc(n, p[0].id) in g;
    PrependArc(g, n, p);
  }

  /** Walking backwards over live rungs must end at the entry, or close a cycle. */
  lemma {:induction false} WalkBack(live: set<RungId>, g: set<Arc>, p: seq<Node>, x: RungId)
    requires !Cyclic(g)
    requires forall y | y in live :: HasWayIn(live, g, y)
    requires Walk(g, p) && LivePath(live, p) && p[|p| - 1] == Rung(x)
    ensures exists q :: LiveWalk(live, g, q, x)
    decreases |live| + 1 - |p|
  {
    var n := WayInBefore(live, g, p);
    if n == Entry {
      FromEntry(live, g, p, x);
    } else if n in p {
      BackEdgeCloses(g, n, p);
    } else {
      PrependLive(live, n, p);
      WalkBack(live, g, [n] + p, x);
    }
  }

  /** On an acyclic ladder "reachable from an entry" is a local property. */
  lemma WayInIsReachable(live: set<RungId>, g: set<Arc>)
    requires !Cyclic(g)
    ensures AllReachable(live, g) <==> forall x | x in live :: HasWayIn(live, g, x)
  {
    if AllReachable(live, g) {
      ReachableHasWayIn(live, g);
    }
    if forall x | x in live :: HasWayIn(live, g, x) {
      forall x | x in live ensures exists p :: LiveWalk(live, g, p, x) {
        WalkBack(live, g, [Rung(x)], x);
      }
    }
  }
}
