/**
 * Small concrete graphs, worked through the definitions of module
 * GraphState: the library's documented behaviours and the consequences of
 * filing the very same edge record under both endpoints of an undirected
 * edge.
 */
module Scenarios {
  import opened Wrappers
  import opened Elements
  import opened GraphState

  /**
   * Undirected edge A-B of weight 5: both lists hold the one record
   * Edge("A", "B", 5), so the list under B names B as its destination and
   * a lookup from B towards A finds nothing.
   */
  lemma UndirectedEdgeFiledTwice()
    ensures var edges := AddEdge(map[], false, "A", "B", Some(5));
      && ListOf(edges, "A") == [Edge("A", "B", Some(5))]
      && ListOf(edges, "B") == [Edge("A", "B", Some(5))]
      && Destinations(ListOf(edges, "A")) == ["B"]
      && Destinations(ListOf(edges, "B")) == ["B"]
      && !HasEdge(ListOf(edges, "B"), "B", "A", Some(5), true)
      && !HasEdge(ListOf(edges, "B"), "B", "A", Some(5), false)
  {
    var edges := AddEdge(map[], false, "A", "B", Some(5));
    var l := ListOf(edges, "B");
    assert l[0].source == "A";
  }

  /** Directed edge A-B: only A's list grows. */
  lemma DirectedEdgeFiledOnce()
    ensures var edges := AddEdge(map[], true, "A", "B", Some(5));
      && |ListOf(edges, "A")| == 1
      && |ListOf(edges, "B")| == 0
  {
  }

  /** The weight takes part in edge lookup in a weighted graph only. */
  lemma WeightedLookup()
    ensures var list := ListOf(AddEdge(map[], false, "A", "B", Some(5)), "A");
      && HasEdge(list, "A", "B", Some(5), true)
      && !HasEdge(list, "A", "B", Some(6), true)
      && HasEdge(list, "A", "B", Some(6), false)
  {
    var list := ListOf(AddEdge(map[], false, "A", "B", Some(5)), "A");
    assert Matches(list[0], "A", "B", Some(5), true);
    assert Matches(list[0], "A", "B", Some(6), false);
  }

  /**
   * An undirected self-loop lands twice in its vertex's list; any self-loop
   * makes the graph fail the simplicity test.
   */
  lemma SelfLoopNotSimple(directed: bool)
    ensures var edges := AddEdge(map[], directed, "A", "A", None);
      && ListOf(edges, "A") == (if directed then [Edge("A", "A", None)] else [Edge("A", "A", None), Edge("A", "A", None)])
      && !IsSimple([Vertex("A")], edges)
  {
    var edges := AddEdge(map[], directed, "A", "A", None);
    assert [Vertex("A")][0].name == "A";
    var list := ListOf(edges, "A");
    assert list[0].source == list[0].destination;
  }

  /** Two directed edges A-B make a parallel edge, which fails simplicity. */
  lemma ParallelEdgeNotSimple()
    ensures !IsSimple([Vertex("A"), Vertex("B")], AddEdge(AddEdge(map[], true, "A", "B", None), true, "A", "B", None))
  {
    var edges := AddEdge(AddEdge(map[], true, "A", "B", None), true, "A", "B", None);
    var list := ListOf(edges, [Vertex("A"), Vertex("B")][0].name);
    assert list[0].destination == list[1].destination;
  }

  /**
   * The undirected triangle inserted in the order A-B, A-C, B-C fails the
   * simplicity test, and so is not complete: both records filed under C
   * name C as destination.
   */
  lemma UndirectedTriangleNotComplete()
    ensures var edges := AddEdge(AddEdge(AddEdge(map[], false, "A", "B", None), false, "A", "C", None), false, "B", "C", None);
      && ListOf(edges, "C") == [Edge("A", "C", None), Edge("B", "C", None)]
      && !IsSimple([Vertex("A"), Vertex("B"), Vertex("C")], edges)
      && !IsComplete([Vertex("A"), Vertex("B"), Vertex("C")], edges)
  {
    var edges := AddEdge(AddEdge(AddEdge(map[], false, "A", "B", None), false, "A", "C", None), false, "B", "C", None);
    var list := ListOf(edges, [Vertex("A"), Vertex("B"), Vertex("C")][2].name);
    assert list[0].destination == list[1].destination;
  }

  /**
   * A single undirected edge A-B makes a complete graph on two vertices:
   * each list holds one record, with no self-loop and no repeated
   * destination.
   */
  lemma UndirectedPairComplete()
    ensures IsComplete([Vertex("A"), Vertex("B")], AddEdge(map[], false, "A", "B", None))
  {
    var e := Edge("A", "B", None);
    var edges := AddEdge(map[], false, "A", "B", None);
    assert ListOf(edges, "A") == [e] && ListOf(edges, "B") == [e];
    var vs := [Vertex("A"), Vertex("B")];
    assert SimpleList([e]);
    forall k | 0 <= k < |vs|
      ensures ListOf(edges, vs[k].name) == [e]
    {
      assert vs[k].name == "A" || vs[k].name == "B";
    }
  }

  /** The edge lists of the undirected triangle inserted in the order A-B, B-C, C-A. */
  lemma UndirectedCycleLists()
    ensures var edges := AddEdge(AddEdge(AddEdge(map[], false, "A", "B", None), false, "B", "C", None), false, "C", "A", None);
      && ListOf(edges, "A") == [Edge("A", "B", None), Edge("C", "A", None)]
      && ListOf(edges, "B") == [Edge("A", "B", None), Edge("B", "C", None)]
      && ListOf(edges, "C") == [Edge("B", "C", None), Edge("C", "A", None)]
  {
    var ab, bc, ca := Edge("A", "B", None), Edge("B", "C", None), Edge("C", "A", None);
    var e1 := AddEdge(map[], false, "A", "B", None);
    assert ListOf(e1, "A") == [ab] && ListOf(e1, "B") == [ab] && ListOf(e1, "C") == [];
    var e2 := AddEdge(e1, false, "B", "C", None);
    assert ListOf(e2, "A") == [ab] && ListOf(e2, "B") == [ab, bc] && ListOf(e2, "C") == [bc];
  }

  /**
   * The same undirected triangle inserted in the cyclic order A-B, B-C, C-A
   * is complete: each list holds one record filed as source and one filed
   * as destination, with two different destinations.
   */
  lemma UndirectedCycleComplete()
    ensures IsComplete([Vertex("A"), Vertex("B"), Vertex("C")],
                       AddEdge(AddEdge(AddEdge(map[], false, "A", "B", None), false, "B", "C", None), false, "C", "A", None))
  {
    var edges := AddEdge(AddEdge(AddEdge(map[], false, "A", "B", None), false, "B", "C", None), false, "C", "A", None);
    UndirectedCycleLists();
    var ab, bc, ca := Edge("A", "B", None), Edge("B", "C", None), Edge("C", "A", None);
    assert SimpleList([ab, ca]) && SimpleList([ab, bc]) && SimpleList([bc, ca]);
    var vs := [Vertex("A"), Vertex("B"), Vertex("C")];
    forall k | 0 <= k < |vs|
      ensures SimpleList(ListOf(edges, vs[k].name)) && |ListOf(edges, vs[k].name)| == 2
    {
      assert vs[k].name == "A" || vs[k].name == "B" || vs[k].name == "C";
    }
  }

  /**
   * The completeness test only counts: in the directed graph on A and B with
   * edges A-Z and B-Y no edge joins A and B, yet every list is simple and one
   * shorter than the number of vertices.
   */
  lemma CompleteWithoutAdjacency()
    ensures var edges := AddEdge(AddEdge(map[], true, "A", "Z", None), true, "B", "Y", None);
      && IsComplete([Vertex("A"), Vertex("B")], edges)
      && "B" !in Destinations(ListOf(edges, "A"))
      && "A" !in Destinations(ListOf(edges, "B"))
  {
    var aToZ, bToY := Edge("A", "Z", None), Edge("B", "Y", None);
    var e1 := AddEdge(map[], true, "A", "Z", None);
    assert ListOf(e1, "A") == [aToZ] && ListOf(e1, "B") == [];
    var edges := AddEdge(e1, true, "B", "Y", None);
    assert ListOf(edges, "A") == [aToZ] && ListOf(edges, "B") == [bToY];
    assert Destinations([aToZ]) == ["Z"] && Destinations([bToY]) == ["Y"];
    var vs := [Vertex("A"), Vertex("B")];
    assert SimpleList([aToZ]) && SimpleList([bToY]);
    forall k | 0 <= k < |vs|
      ensures SimpleList(ListOf(edges, vs[k].name)) && |ListOf(edges, vs[k].name)| == 1
    {
      assert vs[k].name == "A" || vs[k].name == "B";
    }
  }
}
