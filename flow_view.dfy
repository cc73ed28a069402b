/**
 * `src/components/FlowView.tsx`: the overlay that decorates every node with
 * its favourite flag and its status before the graph renders it, and the
 * click guard that keeps junction nodes from opening the detail panel.
 */
module FlowView {
  import opened Wrappers
  import opened Constants
  import opened Types

  const CUSTOM: string := "custom"

  /** One node of `nodesWithState`: its render type chosen, `isFav` and `nodeStatus` spread over its data. */
  function WithState(n: FlowNode, favorites: seq<string>, statusMap: map<string, string>): (r: FlowNode)
    ensures r.id == n.id && r.position == n.position && r.width == n.width && r.height == n.height
    ensures r.nodeType == JUNCTION <==> IsJunction(n)
    ensures r.nodeType == JUNCTION || r.nodeType == CUSTOM
    ensures r.data.isFav == Some(n.id in favorites)
    ensures r.data.nodeStatus == Some(StatusOrPending(statusMap, n.id))
    ensures r.data.(isFav := n.data.isFav, nodeStatus := n.data.nodeStatus) == n.data
  {
    n.(nodeType := if n.data.category == JUNCTION then JUNCTION else CUSTOM,
       data := n.data.(isFav := Some(n.id in favorites), nodeStatus := Some(StatusOrPending(statusMap, n.id))))
  }

  /** `nodesWithState`: the overlay applied to every node, in order. */
  function NodesWithState(nodes: seq<FlowNode>, favorites: seq<string>, statusMap: map<string, string>): (r: seq<FlowNode>)
    ensures |r| == |nodes|
    ensures forall i :: 0 <= i < |nodes| ==> r[i].id == nodes[i].id && IsJunction(r[i]) == IsJunction(nodes[i])
    ensures forall i :: 0 <= i < |nodes| ==> r[i] == WithState(nodes[i], favorites, statusMap)
  {
    seq(|nodes|, i requires 0 <= i < |nodes| => WithState(nodes[i], favorites, statusMap))
  }

  /** The graph's `onNodeClick`: the clicked node is handed on unless it renders as a junction. */
  function ForwardedClick(node: FlowNode): (r: Option<FlowNode>)
    ensures r.Some? <==> node.nodeType != JUNCTION
    ensures r.Some? ==> r.value == node
  {
    if node.nodeType != JUNCTION then Some(node) else None
  }

  /**
   * Decorating an already decorated node changes nothing: the overlay reads
   * only the id and the category, and it keeps both.
   */
  lemma OverlayIdempotent(n: FlowNode, favorites: seq<string>, statusMap: map<string, string>)
    ensures WithState(WithState(n, favorites, statusMap), favorites, statusMap) == WithState(n, favorites, statusMap)
  {
    var once := WithState(n, favorites, statusMap);
    assert once.data.category == n.data.category;
  }

  /** The overlay keeps which nodes are tasks, so every task count is the same before and after it. */
  lemma {:induction false} OverlayKeepsTaskCount(nodes: seq<FlowNode>, favorites: seq<string>, statusMap: map<string, string>)
    ensures CountNonJunction(NodesWithState(nodes, favorites, statusMap)) == CountNonJunction(nodes)
  {
    if nodes != [] {
      var r := NodesWithState(nodes, favorites, statusMap);
      assert r[1..] == NodesWithState(nodes[1..], favorites, statusMap);
      OverlayKeepsTaskCount(nodes[1..], favorites, statusMap);
    }
  }

  /**
   * A click on the `i`-th rendered node reaches the page exactly when the
   * source node is not a junction, and it carries that node's id.
   */
  lemma ClickReachesPage(nodes: seq<FlowNode>, favorites: seq<string>, statusMap: map<string, string>, i: nat)
    requires i < |nodes|
    ensures var c := ForwardedClick(NodesWithState(nodes, favorites, statusMap)[i]);
      && (c.Some? <==> !IsJunction(nodes[i]))
      && (c.Some? ==> c.value.id == nodes[i].id)
  {
  }
}
