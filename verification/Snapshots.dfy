/** The normalized view of a surface, `domain/snapshot.py`: a flat list of nodes
    in document order, linked by ids. */
module Snapshots {
  import opened Outcomes

  datatype NodeScope = NodeScope(frame: Option<string>, region: Option<string>)

  datatype UiNode = UiNode(
    nodeId: string,
    role: string,
    name: Option<string>,
    value: Option<string>,
    states: set<string>,
    scope: NodeScope,
    parentId: Option<string>,
    childIds: seq<string>,
    hints: map<string, string>,
    fingerprint: string)

  datatype UiSnapshot = UiSnapshot(url: string, nodes: seq<UiNode>, httpStatus: Option<int>)
}
