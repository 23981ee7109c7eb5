/** The shape of a workflow graph (app/workflow/dsl.py), as far as structural validation reads it. */
module DslSchema {
  import opened Wrappers

  datatype NodeId = NodeId(text: string)

  datatype EdgeDef = EdgeDef(id: Option<string>, source: NodeId, target: NodeId, sourceHandle: Option<string>)

  // Compound nodes carry a sub-graph in blocks and blockEdges; data stands for the polymorphic config.
  datatype NodeDef = NodeDef(
    id: NodeId,
    nodeType: string,
    data: string,
    blocks: Option<seq<NodeDef>>,
    blockEdges: Option<seq<EdgeDef>>)

  datatype GraphDef = GraphDef(nodes: seq<NodeDef>, edges: seq<EdgeDef>)

  datatype WorkflowDsl = WorkflowDsl(graph: GraphDef, variables: seq<string>)

  /** A stored JSON value: null, the empty object, an object the schema refuses, or one it accepts. */
  datatype RawDsl = Null | EmptyObject | Misshapen(text: string) | Shaped(dsl: WorkflowDsl)

  datatype DslError =
    | ShapeError
    | DuplicateNodeIds
    | EdgeSourceNotFound(id: NodeId)
    | EdgeTargetNotFound(id: NodeId)
    | NoStartNode
    | MultipleStartNodes
    | CycleFound
    | BlockEdgeUnknown(nodeId: NodeId)
    | TooFewNodes

  const EMPTY_DSL := WorkflowDsl(GraphDef([], []), [])

  function NodeIds(nodes: seq<NodeDef>): (ids: seq<NodeId>)
    ensures |ids| == |nodes|
    ensures forall i :: 0 <= i < |nodes| ==> ids[i] == nodes[i].id
  {
    seq(|nodes|, i requires 0 <= i < |nodes| => nodes[i].id)
  }
}
