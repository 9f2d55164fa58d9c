/**
 * The graph object: an append-only vertex list and a map from vertex label
 * to the edges filed under it, with two flags fixed at construction.  Every
 * query is the forward scan of the library, proved against the meaning given
 * in module GraphState.
 */
module Graphs {
  import opened Wrappers
  import opened Elements
  import opened GraphState
  import GraphLemmas

  class Graph {
    const directed: bool
    const weighted: bool
    var vertices: seq<Vertex>
    var edges: EdgeMap

    /** The invariant that the duplicate guard of `AddVertex` keeps. */
    predicate Valid()
      reads this
    {
      UniqueNames(vertices)
    }

    constructor (directed: bool := false, weighted: bool := true)
      ensures this.directed == directed && this.weighted == weighted
      ensures vertices == [] && edges == map[]
      ensures Valid()
    {
      this.directed := directed;
      this.weighted := weighted;
      vertices := [];
      edges := map[];
    }

    /** The vertex carrying `name`, the last one should there be several. */
    method GetVertex(name: string) returns (found: Option<Vertex>)
      ensures found == FindVertex(vertices, name)
      ensures found.Some? <==> HasName(vertices, name)
      ensures found.Some? ==> found.value == Vertex(name)
    {
      found := None;
      for i := 0 to |vertices|
        invariant found == FindVertex(vertices[..i], name)
      {
        Search.LastSnoc(vertices[..i], vertices[i], NameIs(name));
        assert vertices[..i + 1] == vertices[..i] + [vertices[i]];
        if vertices[i].name == name {
          found := Some(vertices[i]);
        }
      }
      assert vertices[..|vertices|] == vertices;
    }

    method ContainsVertex(name: string) returns (found: bool)
      ensures found <==> HasName(vertices, name)
    {
      found := false;
      var vertex := GetVertex(name);
      if vertex.Some? {
        found := true;
      }
    }

    /**
     * Fails with DuplicateVertex when the label is taken; otherwise appends
     * one vertex.  The edge map is never touched.
     */
    method AddVertex(name: string) returns (r: Outcome)
      modifies this
      ensures old(HasName(vertices, name)) ==> r == Fail(DuplicateVertex) && vertices == old(vertices)
      ensures !old(HasName(vertices, name)) ==> r == Pass && vertices == old(vertices) + [Vertex(name)]
      ensures edges == old(edges)
      ensures old(Valid()) ==> Valid()
    {
      var taken := ContainsVertex(name);
      if taken {
        return Fail(DuplicateVertex);
      }
      vertices := vertices + [Vertex(name)];
      r := Pass;
    }

    /**
     * Appends `Edge(source, dest, weight)` to the source's list and, in an
     * undirected graph, the same record to the destination's list.  Neither
     * endpoint needs to be a vertex.
     */
    method AddEdge(source: string, dest: string, weight: Option<int> := None)
      modifies this
      ensures forall x ::
                ListOf(edges, x) == ListOf(old(edges), x)
                                    + (if x == source then [Edge(source, dest, weight)] else [])
                                    + (if !directed && x == dest then [Edge(source, dest, weight)] else [])
      ensures vertices == old(vertices)
      ensures Valid() == old(Valid())
      ensures old(Valid()) && HasName(vertices, source) && (!directed ==> HasName(vertices, dest)) ==>
        GraphState.TotalDegree(vertices, edges) == old(GraphState.TotalDegree(vertices, edges)) + (if directed then 1 else 2)
    {
      var newEdge := Edge(source, dest, weight);
      edges := edges[source := ListOf(edges, source) + [newEdge]];
      if !directed {
        edges := edges[dest := ListOf(edges, dest) + [newEdge]];
      }
      assert edges == GraphState.AddEdge(old(edges), directed, source, dest, weight);
      if old(Valid()) && HasName(vertices, source) && (!directed ==> HasName(vertices, dest)) {
        GraphLemmas.AddEdgeTotalDegree(vertices, old(edges), directed, source, dest, weight);
      }
    }

    /** The number of edges filed under `name`; VertexNotFound for an absent vertex. */
    method Degree(name: string) returns (r: Result<nat>)
      ensures !HasName(vertices, name) ==> r == Err(VertexNotFound)
      ensures HasName(vertices, name) ==> r == Ok(|ListOf(edges, name)|)
    {
      var vertex := GetVertex(name);
      if vertex.Some? {
        r := Ok(|ListOf(edges, vertex.value.name)|);
      } else {
        r := Err(VertexNotFound);
      }
    }

    /**
     * Whether the source's list holds an edge with this source, destination
     * and (in a weighted graph) weight; VertexNotFound for an absent source.
     */
    method ContainsEdge(source: string, dest: string, weight: Option<int>) returns (r: Result<bool>)
      ensures !HasName(vertices, source) ==> r == Err(VertexNotFound)
      ensures HasName(vertices, source) ==>
        r == Ok(HasEdge(ListOf(edges, source), source, dest, weight, weighted))
    {
      var vertex := GetVertex(source);
      if vertex.None? {
        return Err(VertexNotFound);
      }
      var list := ListOf(edges, vertex.value.name);
      var found := false;
      for i := 0 to |list|
        invariant found <==> HasEdge(list[..i], source, dest, weight, weighted)
      {
        var edge := list[i];
        if weighted {
          if edge.source == source && edge.destination == dest && edge.weight == weight {
            found := true;
          }
        } else {
          if edge.source == source && edge.destination == dest {
            found := true;
          }
        }
        assert list[..i + 1] == list[..i] + [edge];
        GraphLemmas.HasEdgeSnoc(list[..i], edge, source, dest, weight, weighted);
      }
      assert list[..|list|] == list;
      r := Ok(found);
    }

    /**
     * The last edge of the source's list that `ContainsEdge` would accept, or
     * None; VertexNotFound for an absent source.
     */
    method GetEdge(source: string, dest: string, weight: Option<int> := None) returns (r: Result<Option<Edge>>)
      ensures !HasName(vertices, source) ==> r == Err(VertexNotFound)
      ensures HasName(vertices, source) ==>
        r == Ok(FindEdge(ListOf(edges, source), source, dest, weight, weighted))
      ensures r.Ok? ==> (r.value.Some? <==> HasEdge(ListOf(edges, source), source, dest, weight, weighted))
    {
      var vertex := GetVertex(source);
      if vertex.None? {
        return Err(VertexNotFound);
      }
      var list := ListOf(edges, vertex.value.name);
      var found: Option<Edge> := None;
      for i := 0 to |list|
        invariant found == FindEdge(list[..i], source, dest, weight, weighted)
      {
        var edge := list[i];
        Search.LastSnoc(list[..i], edge, EdgeIs(source, dest, weight, weighted));
        assert list[..i + 1] == list[..i] + [edge];
        if weighted {
          if edge.source == source && edge.destination == dest && edge.weight == weight {
            found := Some(edge);
          }
        } else {
          if edge.source == source && edge.destination == dest {
            found := Some(edge);
          }
        }
      }
      assert list[..|list|] == list;
      r := Ok(found);
    }

    /**
     * The destinations of the edges filed under `name`, in filing order;
     * VertexNotFound for an absent vertex.
     */
    method Adjacent(name: string) returns (r: Result<seq<string>>)
      ensures !HasName(vertices, name) ==> r == Err(VertexNotFound)
      ensures HasName(vertices, name) ==> r == Ok(Destinations(ListOf(edges, name)))
      ensures r.Ok? ==>
        && |r.value| == |ListOf(edges, name)|
        && forall i :: 0 <= i < |r.value| ==> r.value[i] == ListOf(edges, name)[i].destination
    {
      var vertex := GetVertex(name);
      if vertex.None? {
        return Err(VertexNotFound);
      }
      var list := ListOf(edges, vertex.value.name);
      var adjacentVertices: seq<string> := [];
      for i := 0 to |list|
        invariant adjacentVertices == Destinations(list[..i])
      {
        assert list[..i + 1][..i] == list[..i];
        adjacentVertices := adjacentVertices + [list[i].destination];
      }
      assert list[..|list|] == list;
      r := Ok(adjacentVertices);
    }

    /** The sum over the vertices of the lengths of their edge lists. */
    method TotalDegree() returns (degree: nat)
      ensures degree == GraphState.TotalDegree(vertices, edges)
    {
      degree := 0;
      for i := 0 to |vertices|
        invariant degree == GraphState.TotalDegree(vertices[..i], edges)
      {
        assert vertices[..i + 1][..i] == vertices[..i];
        degree := degree + |ListOf(edges, vertices[i].name)|;
      }
      assert vertices[..|vertices|] == vertices;
    }

    /** True when no vertex has an empty edge list. */
    method IsConnected() returns (isConnected: bool)
      ensures isConnected <==> GraphState.IsConnected(vertices, edges)
    {
      isConnected := true;
      for i := 0 to |vertices|
        invariant isConnected <==> forall k :: 0 <= k < i ==> |ListOf(edges, vertices[k].name)| > 0
      {
        if |ListOf(edges, vertices[i].name)| == 0 {
          isConnected := false;
        }
      }
    }

    /**
     * False exactly when some vertex's list holds a self-loop or a destination
     * seen earlier in the same list.
     */
    method IsSimple() returns (simple: bool)
      ensures simple <==> GraphState.IsSimple(vertices, edges)
    {
      simple := true;
      for i := 0 to |vertices|
        invariant simple <==> forall k :: 0 <= k < i ==> SimpleList(ListOf(edges, vertices[k].name))
      {
        var list := ListOf(edges, vertices[i].name);
        var destinations: seq<string> := [];
        ghost var before := simple;
        for j := 0 to |list|
          invariant destinations == Destinations(list[..j])
          invariant simple <==> before && SimpleList(list[..j])
        {
          var edge := list[j];
          GraphLemmas.SimpleListSnoc(list[..j], edge);
          assert list[..j + 1] == list[..j] + [edge];
          if edge.source == edge.destination {
            simple := false;
          }
          if edge.destination in destinations {
            simple := false;
          }
          destinations := destinations + [edge.destination];
        }
        assert list[..|list|] == list;
      }
    }

    /**
     * True exactly when the graph is simple and every vertex's list is one
     * shorter than the number of vertices (a count test, see
     * `GraphState.IsComplete`).
     */
    method IsComplete() returns (complete: bool)
      ensures complete <==> GraphState.IsComplete(vertices, edges)
    {
      complete := true;
      var simple := IsSimple();
      if simple {
        for i := 0 to |vertices|
          invariant complete <==> forall k :: 0 <= k < i ==> |ListOf(edges, vertices[k].name)| == |vertices| - 1
        {
          if |ListOf(edges, vertices[i].name)| != |vertices| - 1 {
            complete := false;
          }
        }
      } else {
        complete := false;
      }
    }
  }
}
