/**
 * `src/pages/ListView.tsx`: the task table.  The heading counts the
 * non-junction nodes; the body renders one row per non-junction node, in
 * order.  A row looks its status up in `NODE_STATUSES` with no fallback, so
 * a node whose recorded status is not a key of the table makes the render
 * fail (`st` is `undefined` and reading `st.bgColor` throws); the model
 * reports that as `None`.
 */
module ListView {
  import opened Wrappers
  import opened Constants
  import opened Types

  /** What one table row shows. */
  datatype Row = Row(
    starred: bool,
    id: string,
    title: string,
    description: string,
    color: string,
    categoryCaption: string,
    status: StatusInfo,
    tags: seq<string>)

  /** The `(n 件)` count in the heading. */
  function TaskCount(nodes: seq<FlowNode>): (c: nat)
    ensures c == CountNonJunction(nodes)
    ensures c <= |nodes|
  {
    NonJunctionLength(nodes);
    |NonJunction(nodes)|
  }

  /** A node whose row can be rendered: a junction (no row) or a task whose status is a key of the table. */
  predicate Renders(n: FlowNode, statusMap: map<string, string>) {
    IsJunction(n) || IsStatusKey(StatusOrPending(statusMap, n.id))
  }

  /** `data.tags?.slice(0, 2)`. */
  function FirstTwo(tags: seq<string>): (r: seq<string>)
    ensures r <= tags
    ensures |r| == if |tags| < 2 then |tags| else 2
  {
    if |tags| < 2 then tags else tags[..2]
  }

  /** The row of a task node. */
  function RowOf(n: FlowNode, favorites: seq<string>, statusMap: map<string, string>): (r: Row)
    requires IsStatusKey(StatusOrPending(statusMap, n.id))
    ensures r.starred <==> n.id in favorites
    ensures r.id == n.id && r.title == n.data.title && r.description == n.data.description
    ensures r.color == CategoryColor(n.data.category) && r.categoryCaption == CategoryCaption(n.data.category)
    ensures r.status == NODE_STATUSES[StatusOrPending(statusMap, n.id)]
    ensures r.tags == FirstTwo(n.data.tags)
  {
    Row(n.id in favorites, n.id, n.data.title, n.data.description, CategoryColor(n.data.category),
        CategoryCaption(n.data.category), NODE_STATUSES[StatusOrPending(statusMap, n.id)], FirstTwo(n.data.tags))
  }

  /** Every task of `tasks` has a status the table knows. */
  predicate AllKnown(tasks: seq<FlowNode>, statusMap: map<string, string>) {
    forall i :: 0 <= i < |tasks| ==> IsStatusKey(StatusOrPending(statusMap, tasks[i].id))
  }

  /**
   * The table body: `None` when some task's status is unknown to the table,
   * otherwise the row of each task node, in input order; junctions give none.
   */
  function Rows(nodes: seq<FlowNode>, favorites: seq<string>, statusMap: map<string, string>): (r: Option<seq<Row>>)
    ensures r.Some? <==> forall i :: 0 <= i < |nodes| ==> Renders(nodes[i], statusMap)
    ensures r.Some? ==> |r.value| == CountNonJunction(nodes) == |NonJunction(nodes)|
    ensures r.Some? ==> AllKnown(NonJunction(nodes), statusMap)
    ensures r.Some? ==> forall i :: 0 <= i < |r.value| ==> r.value[i] == RowOf(NonJunction(nodes)[i], favorites, statusMap)
  {
    var tasks := NonJunction(nodes);
    NonJunctionLength(nodes);
    if forall i :: 0 <= i < |nodes| ==> Renders(nodes[i], statusMap) then
      RendersGivesKnown(nodes, statusMap);
      Some(seq(|tasks|, i requires 0 <= i < |tasks| && AllKnown(tasks, statusMap) => RowOf(tasks[i], favorites, statusMap)))
    else None
  }

  /** When every node renders, every task's status is known. */
  lemma RendersGivesKnown(nodes: seq<FlowNode>, statusMap: map<string, string>)
    ensures (forall i :: 0 <= i < |nodes| ==> Renders(nodes[i], statusMap)) ==> AllKnown(NonJunction(nodes), statusMap)
  {
    var tasks := NonJunction(nodes);
    if forall i :: 0 <= i < |nodes| ==> Renders(nodes[i], statusMap) {
      forall i | 0 <= i < |tasks|
        ensures IsStatusKey(StatusOrPending(statusMap, tasks[i].id))
      {
        assert tasks[i] in nodes;
        var j :| 0 <= j < |nodes| && nodes[j] == tasks[i];
        assert Renders(nodes[j], statusMap);
      }
    }
  }

  /** The heading's count is the number of rows the body renders. */
  lemma CountMatchesRows(nodes: seq<FlowNode>, favorites: seq<string>, statusMap: map<string, string>)
    requires Rows(nodes, favorites, statusMap).Some?
    ensures TaskCount(nodes) == |Rows(nodes, favorites, statusMap).value|
  {
  }

  /** When every status in the map is a key of the table, the body always renders. */
  lemma KnownStatusesRender(nodes: seq<FlowNode>, favorites: seq<string>, statusMap: map<string, string>)
    requires forall id :: id in statusMap && statusMap[id] != "" ==> IsStatusKey(statusMap[id])
    ensures Rows(nodes, favorites, statusMap).Some?
  {
    StatusKeys();
  }
}
