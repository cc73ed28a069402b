/**
 * `src/components/CustomNode.tsx`: how a task card derives its look from the
 * data the flow overlay gave it: whether it is grayed out, whether it is in
 * progress, which status badge it shows and whether its star is filled.  The
 * colour and the category label are `Constants.CategoryColor` and
 * `Constants.CategoryCaption` of the node's category.
 */
module CustomNode {
  import opened Wrappers
  import opened Constants
  import opened Types
  import FlowView

  /** `isGrayed`: the node's status is `completed` or `notApplicable`. */
  predicate IsGrayed(data: NodeData) {
    data.nodeStatus == Some(COMPLETED) || data.nodeStatus == Some(NOT_APPLICABLE)
  }

  /** `statusKey`: `nodeStatus`, or `pending` when it is absent or empty. */
  function StatusKey(data: NodeData): (k: string)
    ensures data.nodeStatus.Some? && data.nodeStatus.value != "" ==> k == data.nodeStatus.value
    ensures data.nodeStatus.None? || data.nodeStatus.value == "" ==> k == PENDING
    ensures k != ""
  {
    if data.nodeStatus.Some? && data.nodeStatus.value != "" then data.nodeStatus.value else PENDING
  }

  /** `status`: the badge of `statusKey`, or `pending`'s badge for a key the table does not know. */
  function Status(data: NodeData): (s: StatusInfo)
    ensures IsStatusKey(StatusKey(data)) ==> s == NODE_STATUSES[StatusKey(data)]
    ensures !IsStatusKey(StatusKey(data)) ==> s == NODE_STATUSES[PENDING]
    ensures s in NODE_STATUSES.Values
  {
    var k := StatusKey(data);
    if k in NODE_STATUSES then NODE_STATUSES[k] else NODE_STATUSES[PENDING]
  }

  /** `isInProgress`. */
  predicate IsInProgress(data: NodeData) {
    StatusKey(data) == IN_PROGRESS
  }

  /** The star is filled when `isFav` is truthy; an absent flag is falsy. */
  predicate StarFilled(data: NodeData) {
    data.isFav == Some(true)
  }

  /** A card is never both grayed out and animated as in progress. */
  lemma GrayedExcludesInProgress(data: NodeData)
    ensures IsGrayed(data) ==> !IsInProgress(data)
    ensures IsInProgress(data) ==> !IsGrayed(data)
  {
  }

  /** A grayed card shows the badge of its own status, never `pending`'s. */
  lemma GrayedBadge(data: NodeData)
    requires IsGrayed(data)
    ensures Status(data) == NODE_STATUSES[data.nodeStatus.value]
    ensures Status(data) != NODE_STATUSES[PENDING]
  {
    StatusKeys();
    StatusLabelsDistinct();
  }

  /**
   * On a node the flow overlay decorated, the card's state follows the
   * annotation store: the status key is `statusMap[id] || 'pending'`, the card
   * is grayed exactly when that is `completed` or `notApplicable`, and the
   * star is filled exactly when the id is a favourite.
   */
  lemma CardOfOverlay(n: FlowNode, favorites: seq<string>, statusMap: map<string, string>)
    ensures var data := FlowView.WithState(n, favorites, statusMap).data;
      && StatusKey(data) == StatusOrPending(statusMap, n.id)
      && (IsGrayed(data) <==> StatusOrPending(statusMap, n.id) in {COMPLETED, NOT_APPLICABLE})
      && (IsInProgress(data) <==> StatusOrPending(statusMap, n.id) == IN_PROGRESS)
      && (StarFilled(data) <==> n.id in favorites)
  {
  }
}
