/** Three-colour depth-first search for a directed cycle among the edges that have a rung as their source. */
module CycleSearch {
  import opened Basics
  import opened LadderGraph

  datatype Colour = Visiting | Done

  type Adjacency = map<RungId, seq<RungId>>

  function Successors(adjacency: Adjacency, node: RungId): seq<RungId> {
    if node in adjacency then adjacency[node] else []
  }

  /** The arcs that an adjacency map stands for. */
  ghost predicate Represents(adjacency: Adjacency, g: set<Arc>) {
    forall x, y :: y in Successors(adjacency, x) <==> Arc(Rung(x), y) in g
  }

  /** How the colours, the stack of nodes being visited and the finishing order agree. */
  ghost predicate Consistent(g: set<Arc>, colours: map<RungId, Colour>, stack: seq<RungId>, finished: seq<RungId>) {
    && (forall x :: x in stack <==> x in colours && colours[x] == Visiting)
    && (forall x :: x in finished <==> x in colours && colours[x] == Done)
    && Distinct(stack)
    && (forall i | 0 <= i < |stack| - 1 :: Arc(Rung(stack[i]), stack[i + 1]) in g)
    && Ordered(g, finished)
  }

  lemma EnterNode(g: set<Arc>, colours: map<RungId, Colour>, stack: seq<RungId>, finished: seq<RungId>, node: RungId)
    requires Consistent(g, colours, stack, finished) && node !in colours
    requires stack == [] || Arc(Rung(stack[|stack| - 1]), node) in g
    ensures Consistent(g, colours[node := Visiting], stack + [node], finished)
  {
  }

  lemma LeaveNode(g: set<Arc>, colours: map<RungId, Colour>, stack: seq<RungId>, finished: seq<RungId>, node: RungId)
    requires Consistent(g, colours, stack + [node], finished)
    requires forall y | Arc(Rung(node), y) in g :: y in finished
    ensures Consistent(g, colours[node := Done], stack, finished + [node])
  {
    var before, after := stack + [node], finished + [node];
    assert node in before && node !in finished;
    forall i | 0 <= i < |stack| - 1 ensures Arc(Rung(stack[i]), stack[i + 1]) in g {
      assert stack[i] == before[i] && stack[i + 1] == before[i + 1];
    }
    assert Distinct(stack) by {
      assert forall i | 0 <= i < |stack| :: stack[i] == before[i];
    }
    assert before[|stack|] == node;
    forall i | 0 <= i < |stack| ensures stack[i] != node {
      assert stack[i] == before[i];
    }
    assert forall x :: x in before <==> x in stack || x == node;
    forall i, y | 0 <= i < |after| && Arc(Rung(after[i]), y) in g ensures y in after[..i] {
      if i < |finished| {
        assert after[..i] == finished[..i];
      } else {
        assert after[..i] == finished;
      }
    }
  }

  /** Meeting a node that is still being visited closes a cycle. */
  lemma StackCloses(g: set<Arc>, colours: map<RungId, Colour>, stack: seq<RungId>, finished: seq<RungId>, node: RungId)
    requires Consistent(g, colours, stack, finished)
    requires node in stack && Arc(Rung(stack[|stack| - 1]), node) in g
    ensures Cyclic(g)
  {
    var k :| 0 <= k < |stack| && stack[k] == node;
    var n := |stack| - k;
    var c := seq(n + 1, i requires 0 <= i <= n => Rung(if i < n then stack[k + i] else node));
    forall i | 0 <= i < n ensures Linked(g, c[i], c[i + 1]) {
      assert c[i] == Rung(stack[k + i]);
      if i + 1 < n {
        assert c[i + 1] == Rung(stack[k + i + 1]);
      }
    }
    assert IsCycle(g, c);
  }

  ghost predicate AllIn(nodes: seq<RungId>, finished: seq<RungId>) {
    forall x | x in nodes :: x in finished
  }

  lemma OneMoreIn(nodes: seq<RungId>, i: nat, before: seq<RungId>, finished: seq<RungId>)
    requires i < |nodes| && AllIn(nodes[..i], before) && Elements(before) <= Elements(finished) && nodes[i] in finished
    ensures AllIn(nodes[..i + 1], finished)
  {
    forall x | x in nodes[..i + 1] ensures x in finished {
      if x in nodes[..i] {
        assert x in Elements(before);
      }
    }
  }

  lemma SuccessorsFinished(adjacency: Adjacency, g: set<Arc>, finished: seq<RungId>, node: RungId)
    requires Represents(adjacency, g) && AllIn(Successors(adjacency, node), finished)
    ensures forall y | Arc(Rung(node), y) in g :: y in finished
  {
    forall y | Arc(Rung(node), y) in g ensures y in finished {
      assert y in Successors(adjacency, node);
    }
  }

  class Search {
    const adjacency: Adjacency
    var state: map<RungId, Colour>

    ghost const graph: set<Arc>
    ghost const universe: set<RungId>
    /** The nodes being visited, outermost first. */
    ghost var stack: seq<RungId>
    /** The nodes that are done, in the order in which they were finished. */
    ghost var finished: seq<RungId>

    constructor (adjacency: Adjacency, ghost graph: set<Arc>, ghost universe: set<RungId>)
      requires Represents(adjacency, graph)
      requires forall x, y | y in Successors(adjacency, x) :: y in universe
      ensures Valid() && stack == [] && state == map[]
      ensures this.adjacency == adjacency && this.graph == graph && this.universe == universe
    {
      this.adjacency := adjacency;
      this.graph := graph;
      this.universe := universe;
      state := map[];
      stack, finished := [], [];
    }

    ghost predicate Valid()
      reads this
    {
      && Represents(adjacency, graph)
      && (forall x, y | y in Successors(adjacency, x) :: y in universe)
      && state.Keys <= universe
      && Consistent(graph, state, stack, finished)
    }

    /** Explores everything reachable from `node`; true as soon as a cycle is met. */
    method Walk(node: RungId) returns (found: bool)
      requires Valid() && node in universe
      requires stack == [] || Arc(Rung(stack[|stack| - 1]), node) in graph
      modifies this
      ensures found ==> Cyclic(graph)
      ensures !found ==> Valid() && stack == old(stack) && node in finished
      ensures !found ==> old(state.Keys) <= state.Keys && Elements(old(finished)) <= Elements(finished)
      decreases universe - state.Keys, 1
    {
      if node in state && state[node] == Visiting {
        StackCloses(graph, state, stack, finished, node);
        return true;
      }
      if node in state && state[node] == Done {
        return false;
      }
      EnterNode(graph, state, stack, finished, node);
      state := state[node := Visiting];
      stack := stack + [node];
      found := WalkAll(node);
      if !found {
        SuccessorsFinished(adjacency, graph, finished, node);
        LeaveNode(graph, state, old(stack), finished, node);
        state := state[node := Done];
        stack := stack[..|stack| - 1];
        finished := finished + [node];
      }
    }

    /** Explores every successor of the node that was entered last. */
    method WalkAll(node: RungId) returns (found: bool)
      requires Valid() && stack != [] && stack[|stack| - 1] == node
      modifies this
      ensures found ==> Cyclic(graph)
      ensures !found ==> Valid() && stack == old(stack) && AllIn(Successors(adjacency, node), finished)
      ensures !found ==> old(state.Keys) <= state.Keys && Elements(old(finished)) <= Elements(finished)
      decreases universe - state.Keys, 2
    {
      var nexts := Successors(adjacency, node);
      for i := 0 to |nexts|
        invariant Valid() && stack == old(stack)
        invariant old(state.Keys) <= state.Keys
        invariant Elements(old(finished)) <= Elements(finished)
        invariant AllIn(nexts[..i], finished)
      {
        assert nexts[i] in Successors(adjacency, node);
        ghost var before := finished;
        var below := Walk(nexts[i]);
        if below {
          return true;
        }
        OneMoreIn(nexts, i, before, finished);
      }
      assert nexts[..|nexts|] == nexts;
      return false;
    }
  }

  /** The adjacency map of an edge list; edges out of the entry are skipped. */
  method BuildAdjacency(edges: seq<Arc>) returns (adjacency: Adjacency, keys: seq<RungId>)
    ensures Represents(adjacency, Elements(edges))
    ensures forall x :: x in keys <==> x in adjacency
  {
    adjacency, keys := map[], [];
    for i := 0 to |edges|
      invariant Represents(adjacency, Elements(edges[..i]))
      invariant forall x :: x in keys <==> x in adjacency
    {
      var e := edges[i];
      assert edges[..i + 1] == edges[..i] + [e];
      ghost var before := adjacency;
      if e.from.Rung? {
        var from := e.from.id;
        if from !in adjacency {
          keys := keys + [from];
        }
        adjacency := adjacency[from := Successors(adjacency, from) + [e.to]];
        assert forall x, y :: y in Successors(adjacency, x) <==> y in Successors(before, x) || (x == from && y == e.to);
      }
      assert forall a :: a in edges[..i + 1] <==> a in edges[..i] || a == e;
    }
    assert edges[..|edges|] == edges;
  }

  lemma FinishedIsAcyclic(g: set<Arc>, adjacency: Adjacency, finished: seq<RungId>)
    requires Represents(adjacency, g) && Ordered(g, finished)
    requires forall x | x in adjacency :: x in finished
    ensures !Cyclic(g)
  {
    forall a | a in g && a.from.Rung? ensures a.from.id in finished {
      assert a == Arc(Rung(a.from.id), a.to);
      assert a.to in Successors(adjacency, a.from.id);
    }
    OrderedIsAcyclic(g, finished);
  }

  /** True exactly when the edges contain a directed cycle. */
  method HasCycle(edges: seq<Arc>) returns (found: bool)
    ensures found <==> Cyclic(Elements(edges))
  {
    var adjacency, keys := BuildAdjacency(edges);
    ghost var g := Elements(edges);
    ghost var universe := adjacency.Keys + set a | a in g :: a.to;
    forall x, y | y in Successors(adjacency, x) ensures y in universe {
      assert Arc(Rung(x), y) in g && Arc(Rung(x), y).to == y;
    }
    var search := new Search(adjacency, g, universe);
    for i := 0 to |keys|
      invariant search.Valid() && search.stack == []
      invariant forall j | 0 <= j < i :: keys[j] in search.finished
    {
      var below := search.Walk(keys[i]);
      if below {
        return true;
      }
    }
    FinishedIsAcyclic(g, adjacency, search.finished);
    return false;
  }
}
