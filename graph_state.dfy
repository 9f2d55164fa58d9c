/**
 * The graph's state as values -- the vertex list and the map from a vertex
 * label to the list of edges filed under it -- and the meaning of every
 * query and structural predicate, stated on those values.  The class in
 * module Graphs is proved against these definitions.
 *
 * The edge map is keyed by label throughout.  A label that has no entry in
 * the map has the empty edge list (`ListOf`).
 */
module GraphState {
  import opened Wrappers
  import opened Search
  import opened Elements

  type EdgeMap = map<string, seq<Edge>>

  /** The edges filed under `name`; empty when the map has no entry for it. */
  function ListOf(edges: EdgeMap, name: string): seq<Edge>
  {
    if name in edges then edges[name] else []
  }

  /** Some vertex of `vertices` carries `name`. */
  predicate HasName(vertices: seq<Vertex>, name: string)
  {
    exists i :: 0 <= i < |vertices| && vertices[i].name == name
  }

  /** No two vertices share a label: what the duplicate guard of vertex insertion keeps. */
  predicate UniqueNames(vertices: seq<Vertex>)
  {
    forall i, j :: 0 <= i < j < |vertices| ==> vertices[i].name != vertices[j].name
  }

  function NameIs(name: string): Vertex -> bool
  {
    (v: Vertex) => v.name == name
  }

  /**
   * Vertex lookup: the last vertex carrying `name`.  It exists exactly when
   * some vertex carries the name, and it is then the vertex `Vertex(name)`.
   */
  function FindVertex(vertices: seq<Vertex>, name: string): (r: Option<Vertex>)
    ensures r.Some? <==> HasName(vertices, name)
    ensures r.Some? ==> r.value == Vertex(name)
    ensures r.Some? ==>
      exists i :: 0 <= i < |vertices| && vertices[i] == r.value &&
        forall j :: i < j < |vertices| ==> vertices[j].name != name
  {
    var r := Last(vertices, NameIs(name));
    assert r.None? <==> forall i :: 0 <= i < |vertices| ==> vertices[i].name != name;
    r
  }

  /**
   * The edge test of edge lookup: same source, same destination and, in a
   * weighted graph only, the same weight.
   */
  predicate Matches(e: Edge, source: string, dest: string, weight: Option<int>, weighted: bool)
  {
    e.source == source && e.destination == dest && (weighted ==> e.weight == weight)
  }

  function EdgeIs(source: string, dest: string, weight: Option<int>, weighted: bool): Edge -> bool
  {
    (e: Edge) => Matches(e, source, dest, weight, weighted)
  }

  /** Some edge of `es` passes the edge test. */
  predicate HasEdge(es: seq<Edge>, source: string, dest: string, weight: Option<int>, weighted: bool)
  {
    exists i :: 0 <= i < |es| && Matches(es[i], source, dest, weight, weighted)
  }

  /**
   * Edge lookup: the last edge of `es` that passes the edge test.  It exists
   * exactly when `HasEdge` holds.
   */
  function FindEdge(es: seq<Edge>, source: string, dest: string, weight: Option<int>, weighted: bool)
    : (r: Option<Edge>)
    ensures r.Some? <==> HasEdge(es, source, dest, weight, weighted)
    ensures r.Some? ==> Matches(r.value, source, dest, weight, weighted)
    ensures r.Some? ==>
      exists i :: 0 <= i < |es| && es[i] == r.value &&
        forall j :: i < j < |es| ==> !Matches(es[j], source, dest, weight, weighted)
  {
    var p := EdgeIs(source, dest, weight, weighted);
    var r := Last(es, p);
    assert forall i :: 0 <= i < |es| ==> (p(es[i]) <==> Matches(es[i], source, dest, weight, weighted));
    r
  }

  /** The destination labels of `es`, in order. */
  function Destinations(es: seq<Edge>): (r: seq<string>)
    ensures |r| == |es|
    ensures forall i :: 0 <= i < |es| ==> r[i] == es[i].destination
  {
    if es == [] then [] else Destinations(es[..|es| - 1]) + [es[|es| - 1].destination]
  }

  /** The sum of the lengths of the vertices' edge lists. */
  function TotalDegree(vertices: seq<Vertex>, edges: EdgeMap): nat
  {
    if vertices == [] then 0
    else TotalDegree(vertices[..|vertices| - 1], edges) + |ListOf(edges, vertices[|vertices| - 1].name)|
  }

  /** How many vertices carry `name`. */
  function NameCount(vertices: seq<Vertex>, name: string): nat
  {
    if vertices == [] then 0
    else NameCount(vertices[..|vertices| - 1], name) + (if vertices[|vertices| - 1].name == name then 1 else 0)
  }

  /**
   * The "connected" test of the library: every vertex has at least one edge
   * filed under it.  It is a degree test, not reachability.
   */
  predicate IsConnected(vertices: seq<Vertex>, edges: EdgeMap)
  {
    forall k :: 0 <= k < |vertices| ==> |ListOf(edges, vertices[k].name)| > 0
  }

  /**
   * One edge list is simple when it holds no self-loop and no destination
   * twice.
   */
  predicate SimpleList(es: seq<Edge>)
  {
    && (forall i :: 0 <= i < |es| ==> es[i].source != es[i].destination)
    && (forall i, j :: 0 <= i < j < |es| ==> es[i].destination != es[j].destination)
  }

  /** Every vertex's edge list is simple. */
  predicate IsSimple(vertices: seq<Vertex>, edges: EdgeMap)
  {
    forall k :: 0 <= k < |vertices| ==> SimpleList(ListOf(edges, vertices[k].name))
  }

  /**
   * The "complete" test of the library: the graph is simple and every
   * vertex's list is one shorter than the number of vertices.  It is a
   * count test: nothing checks that the destinations are the other vertices.
   */
  predicate IsComplete(vertices: seq<Vertex>, edges: EdgeMap)
  {
    && IsSimple(vertices, edges)
    && forall k :: 0 <= k < |vertices| ==> |ListOf(edges, vertices[k].name)| == |vertices| - 1
  }

  /**
   * Edge insertion: the edge is appended to the source's list and, in an
   * undirected graph, the very same record is appended to the destination's
   * list as well (twice into one list for a self-loop).  No other list
   * changes, and no endpoint is checked for being a vertex.
   */
  function AddEdge(edges: EdgeMap, directed: bool, source: string, dest: string, weight: Option<int>)
    : (r: EdgeMap)
    ensures r.Keys == edges.Keys + {source} + (if directed then {} else {dest})
    ensures forall x ::
              ListOf(r, x) == ListOf(edges, x)
                              + (if x == source then [Edge(source, dest, weight)] else [])
                              + (if !directed && x == dest then [Edge(source, dest, weight)] else [])
  {
    var e := Edge(source, dest, weight);
    var once := edges[source := ListOf(edges, source) + [e]];
    if directed then once else once[dest := ListOf(once, dest) + [e]]
  }
}
