/**
 * The node records the React components exchange (`src/types.ts`), in the
 * shape the loader in `src/App.tsx` builds them.
 */
module Types {
  import opened Wrappers

  datatype Link = Link(caption: string, url: string)

  datatype Position = Position(x: int, y: int)

  /**
   * The `data` object of a graph node.  `isFav` and `nodeStatus` are the two
   * fields the flow overlay adds; `None` means the field is absent.
   */
  datatype NodeData = NodeData(
    title: string,  // `label` in the source, a reserved word here
    description: string,
    category: string,
    tags: seq<string>,
    links: seq<Link>,
    inputs: seq<string>,
    outputs: seq<string>,
    next: seq<string>,
    isFav: Option<bool>,
    nodeStatus: Option<string>)

  /** A node as the graph view receives it. */
  datatype FlowNode = FlowNode(
    id: string,
    position: Position,
    data: NodeData,
    nodeType: string,
    width: int,
    height: int)

  const JUNCTION: string := "junction"

  predicate IsJunction(n: FlowNode) {
    n.data.category == JUNCTION
  }

  /** `nodes.filter(n => n.data.category !== 'junction')`. */
  function NonJunction(nodes: seq<FlowNode>): (r: seq<FlowNode>)
    ensures |r| <= |nodes|
    ensures forall i :: 0 <= i < |r| ==> !IsJunction(r[i])
    ensures forall n :: n in r <==> n in nodes && !IsJunction(n)
  {
    if nodes == [] then []
    else if IsJunction(nodes[0]) then NonJunction(nodes[1..])
    else [nodes[0]] + NonJunction(nodes[1..])
  }

  /** The number of non-junction nodes. */
  function CountNonJunction(nodes: seq<FlowNode>): nat {
    if nodes == [] then 0
    else (if IsJunction(nodes[0]) then 0 else 1) + CountNonJunction(nodes[1..])
  }

  lemma {:induction false} NonJunctionLength(nodes: seq<FlowNode>)
    ensures |NonJunction(nodes)| == CountNonJunction(nodes)
  {
    if nodes != [] {
      NonJunctionLength(nodes[1..]);
    }
  }
}
