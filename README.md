# Graph: an append-only in-memory graph, modelled in Dafny

This project models the `Graph` class of a small Python graph library. A graph
holds a list of vertices and a map from a vertex label to the list of edges
filed under that label. Two flags are fixed when the graph is built: `directed`
(default false) and `weighted` (default true). Vertices and edges are only ever
appended. The class offers:

- two mutators: vertex insertion, which rejects a label already taken, and edge insertion;
- lookups: vertex, vertex membership, edge, edge membership, degree, adjacency;
- whole-graph tests: total degree, "connected", simple and complete.

Layout:

- `wrappers.dfy` (`Wrappers`): `Option`, the model's `None`.
- `search.dfy` (`Search`): a last-match-wins linear search. It is what the forward scans of vertex lookup and edge lookup compute.
- `elements.dfy` (`Elements`): the `Vertex` and `Edge` records, the error kinds, and `Result`/`Outcome` for operations that may raise.
- `graph_state.dfy` (`GraphState`): the graph's state as values. It gives the meaning of every query and test, and of edge insertion, as functions and predicates.
- `graph.dfy` (`Graphs`): the `Graph` class. It has the two fields and the two constant flags. Its methods loop the way the library does, and each is proved against `GraphState`.
- `graph_lemmas.dfy` (`GraphLemmas`): properties that relate several operations.
- `scenarios.dfy` (`Scenarios`): small concrete graphs worked through the definitions.

Decisions the source leaves open, resolved here:

- The library keys its edge map by the label string in edge insertion and in the whole-graph tests (graph.py:94, 99, 202, 216, 232, 258). It keys it by the `Vertex` object in edge lookup, degree and adjacency (graph.py:52, 114, 153, 184). The model keys everything by label.
- Vertex insertion never creates the new vertex's edge list. A label with no entry in the map reads as the empty list (`GraphState.ListOf`). Edge insertion stores the old list with the new edge appended.
- In an undirected graph the very same record `Edge(source, dest, weight)` is filed under both endpoints (graph.py:91-100). The model keeps this literally, with these consequences:
  - The list under `dest` names `dest` as its own destination, so `adjacent(dest)` yields `dest`. For an undirected edge A-B one would expect `adjacent("B") == ["A"]`; the code gives `["B"]`, and the model follows the code (`Scenarios.UndirectedEdgeFiledTwice`).
  - Edge lookup from `dest` towards `source` finds nothing.
  - An undirected self-loop lands twice in one list.
  - Whether an undirected triangle passes the simplicity test depends on the order the edges are inserted. Inserted as A-B, A-C, B-C, it files two edges with destination C under C, so it is neither simple nor complete (`Scenarios.UndirectedTriangleNotComplete`). Inserted as A-B, B-C, C-A, it is simple and complete (`Scenarios.UndirectedCycleComplete`).
- The docstring of `is_complete` (graph.py:248) says each vertex connects to every other vertex. The code only counts (graph.py:254-259): the graph must be simple and every list one shorter than the number of vertices. The model follows the code. A directed graph on A and B with edges A-Z and B-Y passes the test although no edge joins A and B (`Scenarios.CompleteWithoutAdjacency`).
- `label` is a reserved word in Dafny. The vertex field and the label parameters are therefore called `name`.
- The three exceptions become the variants of `GraphError`. A raising query returns `Result<T>`; vertex insertion returns `Outcome`.
- Weights are `Option<int>`; `None` stands for Python's default `None`.

## Model

| member | source | states |
|---|---|---|
| `Search.Last` | graph.py:127-136 | the result is None exactly when no element passes the test; otherwise it passes the test, occurs in the list, and no later element passes |
| `Search.LastSnoc` | graph.py:130-134 | one more scanned element replaces the answer exactly when it passes the test |
| `GraphState.FindVertex` | graph.py:121-136 | vertex lookup finds a vertex exactly when some vertex carries the label; it is then `Vertex(label)`, and the last vertex with that label |
| `GraphState.FindEdge` | graph.py:152-164 | edge lookup finds an edge exactly when some edge matches source, destination and (if weighted) weight; the edge found matches and no later edge does |
| `GraphState.Destinations` | graph.py:184-187 | the adjacency list has one entry per edge, the i-th being the i-th edge's destination |
| `GraphState.AddEdge` | graph.py:83-100 | edge insertion appends the edge to the source's list and, when undirected, the same edge to the destination's list; every other list is unchanged |
| `Graphs.Graph.constructor` | graph.py:13-21 | a new graph has the given flags (defaults: undirected, weighted), no vertices and no edges |
| `Graphs.Graph.GetVertex` | graph.py:121-136 | the scan returns `FindVertex`: some vertex exactly when the label is present, and then `Vertex(label)` |
| `Graphs.Graph.ContainsVertex` | graph.py:23-35 | true exactly when some vertex carries the label |
| `Graphs.Graph.AddVertex` | graph.py:70-81 | a label already present fails with DuplicateVertex and changes nothing; otherwise exactly `Vertex(label)` is appended; edges never change; unique labels are kept |
| `Graphs.Graph.AddEdge` | graph.py:83-100 | the source's list and (undirected) the destination's list each gain the edge at the end, a self-loop twice; every other list, the vertices and unique labels are unchanged; with unique labels and the endpoints present, the total degree grows by 1 (directed) or 2 (undirected) |
| `Graphs.Graph.Degree` | graph.py:102-119 | VertexNotFound exactly when the label is absent; otherwise the length of the label's edge list |
| `Graphs.Graph.ContainsEdge` | graph.py:37-68 | VertexNotFound exactly when the source is absent; otherwise true iff some edge in the source's list has that source, destination and, when weighted, weight |
| `Graphs.Graph.GetEdge` | graph.py:138-168 | VertexNotFound exactly when the source is absent; otherwise the last matching edge of the source's list, present exactly when `ContainsEdge` answers true |
| `Graphs.Graph.Adjacent` | graph.py:170-192 | VertexNotFound exactly when the label is absent; otherwise as many labels as the degree, the i-th being the destination of the i-th edge |
| `Graphs.Graph.TotalDegree` | graph.py:194-204 | the sum over the vertices of their edge-list lengths |
| `Graphs.Graph.IsConnected` | graph.py:206-219 | true exactly when no vertex has an empty edge list (a degree test, not reachability) |
| `Graphs.Graph.IsSimple` | graph.py:221-244 | false exactly when some vertex's list holds a self-loop or a destination twice |
| `Graphs.Graph.IsComplete` | graph.py:246-263 | true exactly when the graph is simple and every vertex's list is one shorter than the number of vertices (a count test, not adjacency to every other vertex) |
| `GraphLemmas.SimpleListSnoc` | graph.py:232-242 | one more edge keeps a list simple exactly when it is no self-loop and its destination is not among those already seen |
| `GraphLemmas.HasEdgeSnoc` | graph.py:54-63 | one more edge makes the membership answer true exactly when it matches or an earlier edge did |
| `GraphLemmas.NameCountPositive` | graph.py:121-136 | a label is counted at least once exactly when some vertex carries it |
| `GraphLemmas.NameCountUnique` | graph.py:70-81 | with unique labels, a label is carried by one vertex if present and by none otherwise |
| `GraphLemmas.AddEdgeTotalDegreeCount` | graph.py:83-100 | edge insertion raises the total degree by the number of vertices carrying the source label plus, when undirected, the number carrying the destination label |
| `GraphLemmas.AddEdgeTotalDegree` | graph.py:194-204 | with unique labels and both endpoints present, one edge insertion raises the total degree by 1 (directed) or 2 (undirected, self-loops included) |
| `GraphLemmas.AddEdgesTotalDegree` | graph.py:194-204 | inserting m edges whose sources are present vertices into an empty edge map gives total degree m when directed; when undirected, with the destinations present too, 2m |
| `GraphLemmas.NoEdgesTotalDegree` | graph.py:194-204 | with no edges the total degree is 0 |
| `GraphLemmas.FindEdgeAfterAddEdge` | graph.py:138-168 | right after inserting an edge, looking it up from its source finds exactly that edge, whatever the flags and earlier edges |
| `GraphLemmas.AddVertexKeepsNamesUnique` | graph.py:70-81 | appending an absent label keeps labels unique, and lookup then finds that vertex, carried by a single vertex |
| `GraphLemmas.CompleteTotalDegree` | graph.py:246-263 | a graph on n vertices that passes the completeness test has total degree n * (n - 1) |
| `GraphLemmas.CompletePrefixDegree` | graph.py:256-259 | when every list has length n - 1, the first k vertices contribute k * (n - 1) |
| `GraphLemmas.ConnectedTotalDegree` | graph.py:206-219 | a graph passing the connectedness test has total degree at least its number of vertices |
| `GraphLemmas.CompleteIsConnected` | graph.py:246-263 | a graph on two or more vertices that passes the completeness test also passes the connectedness test |
| `GraphLemmas.AddEdgeKeepsConnected` | graph.py:83-100 | edge insertion never makes a graph fail the connectedness test |
| `Scenarios.UndirectedEdgeFiledTwice` | graph.py:91-100 | an undirected edge A-B puts Edge(A, B) in both lists, so adjacency of B is [B] and lookup from B to A fails |
| `Scenarios.DirectedEdgeFiledOnce` | graph.py:97-100 | a directed edge A-B gives A degree 1 and B degree 0 |
| `Scenarios.WeightedLookup` | graph.py:56-63 | with weights compared, A-B of weight 5 is found with weight 5 and not 6; unweighted, it is found with weight 6 too |
| `Scenarios.SelfLoopNotSimple` | graph.py:233-235 | a self-loop is filed once (directed) or twice (undirected) and makes the graph not simple |
| `Scenarios.ParallelEdgeNotSimple` | graph.py:237-239 | the same directed edge inserted twice makes the graph not simple |
| `Scenarios.UndirectedTriangleNotComplete` | graph.py:246-263 | the undirected triangle inserted as A-B, A-C, B-C files two edges with destination C under C, so it is neither simple nor complete |
| `Scenarios.UndirectedCycleLists` | graph.py:91-100 | the undirected triangle inserted as A-B, B-C, C-A gives each vertex one edge it is the source of and one it is the destination of |
| `Scenarios.UndirectedCycleComplete` | graph.py:246-263 | the undirected triangle inserted as A-B, B-C, C-A is simple and complete |
| `Scenarios.CompleteWithoutAdjacency` | graph.py:246-263 | a directed graph on A and B with edges A-Z and B-Y passes the completeness test, though no edge joins A and B |
| `Scenarios.UndirectedPairComplete` | graph.py:246-263 | one undirected edge between two vertices makes a complete graph |

## Left out

- The error classes' message text and their string conversion: each error is a bare variant of `GraphError`.
- The modules defining DuplicateVertexError and EdgeNotFoundError are not part of this model. `EdgeNotFound` is kept as a variant, but no operation produces it, as in the library.
- The KeyError the library raises when it reads an edge list that was never created (always on a first edge insertion, since vertex insertion creates no list). The model reads a missing list as empty instead.
- The lookup of edge lists by `Vertex` object in edge lookup, degree and adjacency. In the library those lookups can never hit a label key; the model keys by label throughout.
- Object identity: the single `Edge` object shared by two lists, and `Vertex` objects as map keys. Edges and vertices are values here.
- Weights of arbitrary Python type (floats, strings) and Python's equality on them: weights are `Option<int>`.
- The trivial getters of the `Vertex` and `Edge` records: datatype field selection covers them.
- Concurrent use: the library is single-threaded.
- An invariant on every graph: the unique-labels predicate `Valid` is established by the constructor and kept by vertex insertion when it held before. The library's fields are public, so a caller can break it directly; no query requires it.
