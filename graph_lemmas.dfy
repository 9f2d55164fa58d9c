/**
 * What the graph promises across operations, stated on the values of
 * module GraphState: how edge insertion moves the total degree, that edge
 * lookup finds the edge just inserted, how vertex insertion keeps labels
 * unique, and what completeness and connectedness say about degrees.
 */
module GraphLemmas {
  import opened Wrappers
  import opened Search
  import opened Elements
  import opened GraphState

  /**
   * The step of the simplicity scan: one more edge keeps a list simple
   * exactly when it is no self-loop and its destination was not seen yet.
   */
  lemma {:induction false} SimpleListSnoc(es: seq<Edge>, e: Edge)
    ensures SimpleList(es + [e]) <==>
      SimpleList(es) && e.source != e.destination && e.destination !in Destinations(es)
  {
    var es' := es + [e];
    assert forall i :: 0 <= i < |es| ==> es'[i] == es[i];
    assert es'[|es|] == e;
    if e.destination in Destinations(es) {
      var i :| 0 <= i < |es| && Destinations(es)[i] == e.destination;
      assert es'[i].destination == es'[|es|].destination;
    } else if SimpleList(es) && e.source != e.destination {
      forall i, j | 0 <= i < j < |es'|
        ensures es'[i].destination != es'[j].destination
      {
        if j == |es| {
          assert Destinations(es)[i] == es'[i].destination;
        }
      }
    }
  }

  /** The step of the edge scan: one more edge is found exactly when it passes the edge test. */
  lemma HasEdgeSnoc(es: seq<Edge>, e: Edge, source: string, dest: string, weight: Option<int>, weighted: bool)
    ensures HasEdge(es + [e], source, dest, weight, weighted) <==>
      HasEdge(es, source, dest, weight, weighted) || Matches(e, source, dest, weight, weighted)
  {
    var es' := es + [e];
    assert es'[|es|] == e;
    if HasEdge(es, source, dest, weight, weighted) {
      var i :| 0 <= i < |es| && Matches(es[i], source, dest, weight, weighted);
      assert es'[i] == es[i];
    }
    if HasEdge(es', source, dest, weight, weighted) && !Matches(e, source, dest, weight, weighted) {
      var i :| 0 <= i < |es'| && Matches(es'[i], source, dest, weight, weighted);
      assert es[i] == es'[i];
    }
  }

  /** A label is counted exactly when some vertex carries it. */
  lemma {:induction false} NameCountPositive(vertices: seq<Vertex>, name: string)
    ensures NameCount(vertices, name) > 0 <==> HasName(vertices, name)
    decreases |vertices|
  {
    if vertices != [] {
      var front := vertices[..|vertices| - 1];
      NameCountPositive(front, name);
      if HasName(front, name) {
        var i :| 0 <= i < |front| && front[i].name == name;
        assert vertices[i].name == name;
      }
      if HasName(vertices, name) && vertices[|vertices| - 1].name != name {
        var i :| 0 <= i < |vertices| && vertices[i].name == name;
        assert front[i].name == name;
      }
    }
  }

  /** With unique labels, a label is carried by at most one vertex. */
  lemma {:induction false} NameCountUnique(vertices: seq<Vertex>, name: string)
    requires UniqueNames(vertices)
    ensures NameCount(vertices, name) == if HasName(vertices, name) then 1 else 0
    decreases |vertices|
  {
    NameCountPositive(vertices, name);
    if vertices != [] {
      var front := vertices[..|vertices| - 1];
      assert UniqueNames(front);
      NameCountUnique(front, name);
      NameCountPositive(front, name);
    }
  }

  /**
   * Edge insertion adds one to the total degree for every vertex carrying
   * the source label and, in an undirected graph, one more for every vertex
   * carrying the destination label.
   */
  lemma {:induction false} AddEdgeTotalDegreeCount(
    vertices: seq<Vertex>, edges: EdgeMap, directed: bool, source: string, dest: string, weight: Option<int>)
    ensures TotalDegree(vertices, AddEdge(edges, directed, source, dest, weight))
         == TotalDegree(vertices, edges) + NameCount(vertices, source)
            + (if directed then 0 else NameCount(vertices, dest))
    decreases |vertices|
  {
    if vertices != [] {
      AddEdgeTotalDegreeCount(vertices[..|vertices| - 1], edges, directed, source, dest, weight);
    }
  }

  /**
   * In a graph with unique labels, inserting an edge between two of its
   * vertices adds one to the total degree when the graph is directed and two
   * when it is undirected (a self-loop included).
   */
  lemma AddEdgeTotalDegree(
    vertices: seq<Vertex>, edges: EdgeMap, directed: bool, source: string, dest: string, weight: Option<int>)
    requires UniqueNames(vertices)
    requires HasName(vertices, source) && (!directed ==> HasName(vertices, dest))
    ensures TotalDegree(vertices, AddEdge(edges, directed, source, dest, weight))
         == TotalDegree(vertices, edges) + (if directed then 1 else 2)
  {
    AddEdgeTotalDegreeCount(vertices, edges, directed, source, dest, weight);
    NameCountUnique(vertices, source);
    NameCountUnique(vertices, dest);
  }

  /** Inserting the edges of `es` one after the other, in order. */
  function AddEdges(edges: EdgeMap, directed: bool, es: seq<Edge>): EdgeMap
  {
    if es == [] then edges
    else
      var e := es[|es| - 1];
      AddEdge(AddEdges(edges, directed, es[..|es| - 1]), directed, e.source, e.destination, e.weight)
  }

  /**
   * Starting from no edges and inserting m edges whose sources are vertices
   * of a graph with unique labels gives total degree m when the graph is
   * directed (a destination need not be a vertex); in an undirected graph,
   * where the destinations must be vertices too, it gives 2 * m.
   */
  lemma {:induction false} AddEdgesTotalDegree(vertices: seq<Vertex>, directed: bool, es: seq<Edge>)
    requires UniqueNames(vertices)
    requires forall i :: 0 <= i < |es| ==>
      HasName(vertices, es[i].source) && (!directed ==> HasName(vertices, es[i].destination))
    ensures TotalDegree(vertices, AddEdges(map[], directed, es)) == (if directed then 1 else 2) * |es|
    decreases |es|
  {
    if es == [] {
      NoEdgesTotalDegree(vertices);
    } else {
      var front := es[..|es| - 1];
      var e := es[|es| - 1];
      assert forall i :: 0 <= i < |front| ==> front[i] == es[i];
      AddEdgesTotalDegree(vertices, directed, front);
      AddEdgeTotalDegree(vertices, AddEdges(map[], directed, front), directed, e.source, e.destination, e.weight);
    }
  }

  /** With no edges at all the total degree is zero. */
  lemma {:induction false} NoEdgesTotalDegree(vertices: seq<Vertex>)
    ensures TotalDegree(vertices, map[]) == 0
    decreases |vertices|
  {
    if vertices != [] {
      NoEdgesTotalDegree(vertices[..|vertices| - 1]);
    }
  }

  /**
   * After inserting an edge, looking it up from its source finds exactly
   * that edge, whether or not the graph is weighted or directed and
   * whatever the source's list held before.
   */
  lemma FindEdgeAfterAddEdge(
    edges: EdgeMap, directed: bool, weighted: bool, source: string, dest: string, weight: Option<int>)
    ensures FindEdge(ListOf(AddEdge(edges, directed, source, dest, weight), source), source, dest, weight, weighted)
         == Some(Edge(source, dest, weight))
    ensures HasEdge(ListOf(AddEdge(edges, directed, source, dest, weight), source), source, dest, weight, weighted)
  {
    var e := Edge(source, dest, weight);
    var p := EdgeIs(source, dest, weight, weighted);
    var before := ListOf(edges, source);
    if !directed && source == dest {
      assert ListOf(AddEdge(edges, directed, source, dest, weight), source) == (before + [e]) + [e];
      LastSnoc(before + [e], e, p);
    } else {
      assert ListOf(AddEdge(edges, directed, source, dest, weight), source) == before + [e];
      LastSnoc(before, e, p);
    }
  }

  /**
   * Inserting a vertex under a label not yet taken keeps labels unique, and
   * the new vertex is then the only one carrying that label.
   */
  lemma AddVertexKeepsNamesUnique(vertices: seq<Vertex>, name: string)
    requires UniqueNames(vertices)
    requires FindVertex(vertices, name) == None
    ensures UniqueNames(vertices + [Vertex(name)])
    ensures FindVertex(vertices + [Vertex(name)], name) == Some(Vertex(name))
    ensures NameCount(vertices + [Vertex(name)], name) == 1
  {
    var vs := vertices + [Vertex(name)];
    assert vs[..|vertices|] == vertices;
    assert vs[|vertices|].name == name;
    assert !HasName(vertices, name);
    assert HasName(vs, name);
    NameCountUnique(vs, name);
  }

  /** A graph on n vertices that passes the completeness test has total degree n * (n - 1). */
  lemma CompleteTotalDegree(vertices: seq<Vertex>, edges: EdgeMap)
    requires IsComplete(vertices, edges)
    ensures TotalDegree(vertices, edges) == |vertices| * (|vertices| - 1)
  {
    CompletePrefixDegree(vertices, edges, |vertices|);
    assert vertices[..|vertices|] == vertices;
  }

  lemma {:induction false} CompletePrefixDegree(vertices: seq<Vertex>, edges: EdgeMap, k: nat)
    requires k <= |vertices|
    requires forall i :: 0 <= i < |vertices| ==> |ListOf(edges, vertices[i].name)| == |vertices| - 1
    ensures TotalDegree(vertices[..k], edges) == k * (|vertices| - 1)
  {
    if k > 0 {
      CompletePrefixDegree(vertices, edges, k - 1);
      assert vertices[..k][..k - 1] == vertices[..k - 1];
      calc {
        TotalDegree(vertices[..k], edges);
        (k - 1) * (|vertices| - 1) + (|vertices| - 1);
        k * (|vertices| - 1);
      }
    }
  }

  /** In a connected graph every vertex contributes at least one to the total degree. */
  lemma {:induction false} ConnectedTotalDegree(vertices: seq<Vertex>, edges: EdgeMap)
    requires IsConnected(vertices, edges)
    ensures TotalDegree(vertices, edges) >= |vertices|
    decreases |vertices|
  {
    if vertices != [] {
      var front := vertices[..|vertices| - 1];
      assert forall k :: 0 <= k < |front| ==> front[k] == vertices[k];
      ConnectedTotalDegree(front, edges);
    }
  }

  /** Passing the completeness test on at least two vertices implies passing the connectedness test. */
  lemma CompleteIsConnected(vertices: seq<Vertex>, edges: EdgeMap)
    requires IsComplete(vertices, edges) && |vertices| >= 2
    ensures IsConnected(vertices, edges)
  {
  }

  /** Edge insertion never fails the connectedness test of a graph that passed it. */
  lemma AddEdgeKeepsConnected(
    vertices: seq<Vertex>, edges: EdgeMap, directed: bool, source: string, dest: string, weight: Option<int>)
    requires IsConnected(vertices, edges)
    ensures IsConnected(vertices, AddEdge(edges, directed, source, dest, weight))
  {
  }
}
