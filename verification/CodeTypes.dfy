/** The nodes and edges of the code graph. */
module CodeTypes {

  datatype EdgeKind = Import | Call | Extends | Implements | References | Contains | Exports

  datatype CodeEdge = CodeEdge(from: string, to: string, kind: EdgeKind, weight: real)

  /** A code entity; `details` stands for the fields that the graph only stores. */
  datatype CodeNode = CodeNode(id: string, filePath: string, details: string)

  /** The edges as pairs of node ids. */
  ghost function EdgePairs(edges: seq<CodeEdge>): set<(string, string)> {
    set e | e in edges :: (e.from, e.to)
  }
}
