/**
 * The plain records of the graph library: vertices, edges and the error
 * kinds the graph signals.
 */
module Elements {
  import opened Wrappers

  /** A vertex is nothing but its label (`label` is a keyword in Dafny, hence `name`). */
  datatype Vertex = Vertex(name: string)

  /**
   * An edge names its endpoints by label and may carry a weight
   * (`None` when the caller gave none).
   */
  datatype Edge = Edge(source: string, destination: string, weight: Option<int>)

  /**
   * The graph's exceptions.  `EdgeNotFound` belongs to the library's error
   * taxonomy, but no operation of the graph produces it.
   */
  datatype GraphError = VertexNotFound | DuplicateVertex | EdgeNotFound

  /** A query that either answers or raises one of the graph's errors. */
  datatype Result<+T> = Ok(value: T) | Err(error: GraphError)

  /** A mutation that either succeeds or raises one of the graph's errors. */
  datatype Outcome = Pass | Fail(error: GraphError)
}
