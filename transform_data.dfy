/**
 * `transform_data.py`: the offline script that turns the node definition
 * table into the graph file the web application loads.  Each source node
 * becomes one web node, classified into a category from its phase or, failing
 * that, its type; each node whose `nextMain` names a known node contributes
 * one edge, and an edge id already produced is not produced again.
 *
 * Reading and writing the JSON files, the console messages and the
 * coordinate normalisation are not part of this model; a field read with
 * `n.get(key, '')` is the empty string when the key is absent.
 */
module TransformData {
  import opened Wrappers
  import opened JsString
  import opened Constants

  /** One entry of the source table's `nodes`. */
  datatype SourceNode = SourceNode(
    id: string,
    title: Option<string>,    // `None` for a JSON `null`
    phase: string,
    nodeType: string,         // the source's `type`
    notes: string,
    nextMain: Option<string>) // `None` when absent or `null`

  /** One entry of the output's `nodes` (the position is not modelled). */
  datatype WebNode = WebNode(
    id: string,
    title: string,
    description: string,
    role: string,
    category: string,
    status: string,
    tags: seq<string>,
    links: seq<string>,
    inputs: seq<string>,
    outputs: seq<string>,
    next: seq<string>)

  /** One entry of the output's `edges`. */
  datatype WebEdge = WebEdge(id: string, source: string, target: string, caption: string, condition: string,
                             animated: bool)

  /** The output document: its `meta` block, nodes, edges and (always empty) groups. */
  datatype Output = Output(version: string, lastUpdated: string, coordinateSystem: string,
                           nodes: seq<WebNode>, edges: seq<WebEdge>, groups: seq<string>)

  const UNTITLED: string := "Untitled"
  const DEFAULT: string := "default"

  /** The phase to category table. */
  const CATEGORY_MAP: map<string, string> := map[
    "契約" := "contract",
    "契約/土地" := "contract",
    "法令/許認可" := "legal",
    "法令/保安" := "legal",
    "工事準備" := "procurement",
    "工事" := "construction",
    "工事/契約金" := "milestone",
    "工事/調達" := "procurement",
    "工事/品質" := "inspection",
    "工事/設備" := "equipment",
    "付帯設備" := "equipment",
    "監視/通信" := "communication",
    "試験/完工" := "inspection",
    "運開" := "power",
    "引渡" := "handover",
    "登記/書類" := "registration",
    "登記/法務" := "registration",
    "工事/産廃" := "waste",
    "電力/名義" := "power",
    "電力/運開" := "power"
  ]

  // ---------------------------------------------------------------------
  // classification
  // ---------------------------------------------------------------------

  /** The type cascade: the first of 契約, 手配, 検査, 届出 that occurs in the type decides. */
  function TypeCategory(t: string): (cat: string)
    ensures Contains(t, "契約") ==> cat == "contract"
    ensures !Contains(t, "契約") && Contains(t, "手配") ==> cat == "equipment"
    ensures !Contains(t, "契約") && !Contains(t, "手配") && Contains(t, "検査") ==> cat == "inspection"
    ensures !Contains(t, "契約") && !Contains(t, "手配") && !Contains(t, "検査") && Contains(t, "届出") ==>
      cat == "legal"
    ensures !Contains(t, "契約") && !Contains(t, "手配") && !Contains(t, "検査") && !Contains(t, "届出") ==>
      cat == DEFAULT
  {
    if Contains(t, "契約") then "contract"
    else if Contains(t, "手配") then "equipment"
    else if Contains(t, "検査") then "inspection"
    else if Contains(t, "届出") then "legal"
    else DEFAULT
  }

  /** No phase of the table maps to `default`, so a listed phase is never re-classified by type. */
  lemma CategoryMapValues()
    ensures forall p :: p in CATEGORY_MAP ==> CATEGORY_MAP[p] != DEFAULT && CATEGORY_MAP[p] in CATEGORY_COLORS
  {
  }

  /** The category of a node: the table's entry for its phase, or else the type cascade. */
  function CategoryOf(phase: string, t: string): (cat: string)
    ensures phase in CATEGORY_MAP ==> cat == CATEGORY_MAP[phase]
    ensures phase !in CATEGORY_MAP ==> cat == TypeCategory(t)
  {
    CategoryMapValues();
    var fromPhase := if phase in CATEGORY_MAP then CATEGORY_MAP[phase] else DEFAULT;
    if fromPhase == DEFAULT then TypeCategory(t) else fromPhase
  }

  /**
   * Every category the script produces has a colour and a label in the web
   * application's tables, and none is `junction`.
   */
  lemma CategoryIsKnown(phase: string, t: string)
    ensures CategoryOf(phase, t) in CATEGORY_COLORS && CategoryOf(phase, t) in CATEGORY_LABELS
    ensures CategoryOf(phase, t) != "junction"
  {
    CategoryMapValues();
    CategoryTables();
  }

  /** `n['title'] or "Untitled"`. */
  function TitleOf(title: Option<string>): (r: string)
    ensures title.Some? && title.value != "" ==> r == title.value
    ensures title.None? || title.value == "" ==> r == UNTITLED
    ensures r != ""
  {
    if title.Some? && title.value != "" then title.value else UNTITLED
  }

  /** The web node built for `n` before any edge is recorded on it. */
  function WebNodeOf(n: SourceNode): (w: WebNode)
    ensures w.id == n.id && w.title == TitleOf(n.title) && w.description == n.notes
    ensures w.category == CategoryOf(n.phase, n.nodeType)
    ensures w.tags == [n.nodeType, n.phase] && w.next == []
  {
    WebNode(n.id, TitleOf(n.title), n.notes, "", CategoryOf(n.phase, n.nodeType), "active", [n.nodeType, n.phase],
            [], [], [], [])
  }

  // ---------------------------------------------------------------------
  // edges
  // ---------------------------------------------------------------------

  /** `f"e-{source}-{target}"`. */
  function EdgeId(source: string, target: string): (id: string)
    ensures |id| == 3 + |source| + |target|
    ensures id[..2] == "e-" && id[2..2 + |source|] == source && id[|id| - |target|..] == target
  {
    "e-" + source + "-" + target
  }

  /**
   * The edge id does not determine its end points when ids contain `-`.  On
   * the table `x -> x-x`, `x-x -> x` both links have the id `e-x-x-x`, so
   * the script writes the first edge only and the second node gets no
   * `next`, although its link is valid.
   */
  lemma EdgeIdsCanCollide()
    ensures EdgeId("x", "x-x") == EdgeId("x-x", "x")
    ensures var nodes := [SourceNode("x", None, "", "", "", Some("x-x")), SourceNode("x-x", None, "", "", "", Some("x"))];
      && Linked(nodes[0], IdsOf(nodes)) && Linked(nodes[1], IdsOf(nodes))
      && Transform(nodes).value.edges == [WebEdge(EdgeId("x", "x-x"), "x", "x-x", "", "", false)]
      && Transform(nodes).value.nodes[1].next == []
  {
    var nodes := [SourceNode("x", None, "", "", "", Some("x-x")), SourceNode("x-x", None, "", "", "", Some("x"))];
    assert IdsOf(nodes) == {"x", "x-x"} by {
      assert nodes[0] in nodes && nodes[1] in nodes;
    }
    var ids := IdsOf(nodes);
    var e := WebEdge(EdgeId("x", "x-x"), "x", "x-x", "", "", false);
    var one := [nodes[0]];
    assert nodes[..1] == one && one[..|one| - 1] == [];
    var first := Build(one, ids);
    assert first == Step(Build([], ids), nodes[0], ids);
    assert Linked(nodes[0], ids);
    assert first.edges == [e] && first.edgeIds == {e.id};
    assert nodes[..|nodes| - 1] == nodes[..1];
    var all := Build(nodes, ids);
    assert all == Step(first, nodes[1], ids);
    assert EdgeId("x-x", "x") == "e-x-x-x" == EdgeId("x", "x-x");
    assert EdgeId(nodes[1].id, nodes[1].nextMain.value) in first.edgeIds;
    assert all.edges == [e];
    assert all.nodes[1] == WebNodeOf(nodes[1]);
  }

  /** `next_id and next_id in node_map`. */
  predicate Linked(n: SourceNode, ids: set<string>) {
    n.nextMain.Some? && n.nextMain.value != "" && n.nextMain.value in ids
  }

  function IdsOf(nodes: seq<SourceNode>): set<string> {
    set n | n in nodes :: n.id
  }

  // ---------------------------------------------------------------------
  // the loop, as a fold
  // ---------------------------------------------------------------------

  /** What the loop has accumulated: `web_nodes`, `web_edges` and `existing_edge_ids`. */
  datatype Acc = Acc(nodes: seq<WebNode>, edges: seq<WebEdge>, edgeIds: set<string>)

  /** One iteration of the loop on node `n`, `ids` being the keys of `node_map`. */
  function Step(acc: Acc, n: SourceNode, ids: set<string>): Acc {
    var w := WebNodeOf(n);
    if Linked(n, ids) && EdgeId(n.id, n.nextMain.value) !in acc.edgeIds then
      var e := WebEdge(EdgeId(n.id, n.nextMain.value), n.id, n.nextMain.value, "", "", false);
      Acc(acc.nodes + [w.(next := w.next + [n.nextMain.value])], acc.edges + [e], acc.edgeIds + {e.id})
    else
      Acc(acc.nodes + [w], acc.edges, acc.edgeIds)
  }

  /** The loop run over `nodes` from the empty accumulator. */
  function Build(nodes: seq<SourceNode>, ids: set<string>): Acc {
    if nodes == [] then Acc([], [], {})
    else Step(Build(nodes[..|nodes| - 1], ids), nodes[|nodes| - 1], ids)
  }

  /** Whether the iteration on `nodes[i]` adds an edge. */
  predicate Added(nodes: seq<SourceNode>, i: nat, ids: set<string>)
    requires i < |nodes|
  {
    Linked(nodes[i], ids) && EdgeId(nodes[i].id, nodes[i].nextMain.value) !in Build(nodes[..i], ids).edgeIds
  }

  /** The web node the iteration on `nodes[i]` appends. */
  function Emitted(nodes: seq<SourceNode>, i: nat, ids: set<string>): WebNode
    requires i < |nodes|
  {
    WebNodeOf(nodes[i]).(next := if Added(nodes, i, ids) then [nodes[i].nextMain.value] else [])
  }

  /** The whole script on the table's node list: nothing is written when there are no nodes. */
  function Transform(nodes: seq<SourceNode>): (r: Option<Output>)
    ensures r.None? <==> nodes == []
  {
    if nodes == [] then None
    else
      var acc := Build(nodes, IdsOf(nodes));
      Some(Output("1.0.0", "2026-02-16T11:00:00Z", "normalized_scaled", acc.nodes, acc.edges, []))
  }

  /** `transform_nodes_to_graph_data` on the parsed table; the result is what it writes. */
  method TransformNodesToGraphData(nodes: seq<SourceNode>) returns (out: Option<Output>)
    ensures out == Transform(nodes)
  {
    if |nodes| == 0 {
      return None;
    }
    var nodeIds := set n | n in nodes :: n.id;
    var webNodes: seq<WebNode> := [];
    var webEdges: seq<WebEdge> := [];
    var existingEdgeIds: set<string> := {};
    var k := 0;
    while k < |nodes|
      invariant 0 <= k <= |nodes|
      invariant Acc(webNodes, webEdges, existingEdgeIds) == Build(nodes[..k], nodeIds)
    {
      ghost var before := Acc(webNodes, webEdges, existingEdgeIds);
      var n := nodes[k];
      var webNode := WebNodeOf(n);
      if n.nextMain.Some? && n.nextMain.value != "" && n.nextMain.value in nodeIds {
        var nextId := n.nextMain.value;
        var edgeId := EdgeId(n.id, nextId);
        if edgeId !in existingEdgeIds {
          webEdges := webEdges + [WebEdge(edgeId, n.id, nextId, "", "", false)];
          existingEdgeIds := existingEdgeIds + {edgeId};
          webNode := webNode.(next := webNode.next + [nextId]);
        }
      }
      webNodes := webNodes + [webNode];
      assert Acc(webNodes, webEdges, existingEdgeIds) == Step(before, n, nodeIds);
      BuildSnoc(nodes, nodeIds, k);
      k := k + 1;
    }
    assert nodes[..k] == nodes;
    out := Some(Output("1.0.0", "2026-02-16T11:00:00Z", "normalized_scaled", webNodes, webEdges, []));
  }

  // ---------------------------------------------------------------------
  // properties of the fold
  // ---------------------------------------------------------------------

  /** One web node per source node, in order: the `i`-th is the one the `i`-th iteration appends. */
  lemma BuildNodes(nodes: seq<SourceNode>, ids: set<string>, i: nat)
    requires i < |nodes|
    ensures |Build(nodes, ids).nodes| == |nodes|
    ensures Build(nodes, ids).nodes[i] == Emitted(nodes, i, ids)
  {
    BuildLength(nodes, ids);
    BuildPrefix(nodes, ids, i + 1);
    var pre := nodes[..i + 1];
    assert pre[..|pre| - 1] == nodes[..i] && pre[|pre| - 1] == nodes[i];
    var b := Build(nodes[..i], ids);
    StepNodes(b, nodes[i], ids, Emitted(nodes, i, ids));
    assert Build(pre, ids).nodes == b.nodes + [Emitted(nodes, i, ids)];
    BuildLength(nodes[..i], ids);
    assert Build(nodes, ids).nodes[i] == Build(pre, ids).nodes[i];
  }

  /** The loop's first `k` web nodes are those of the first `k` table nodes. */
  lemma {:induction false} BuildPrefix(nodes: seq<SourceNode>, ids: set<string>, k: nat)
    requires k <= |nodes|
    ensures |Build(nodes[..k], ids).nodes| == k <= |Build(nodes, ids).nodes|
    ensures Build(nodes, ids).nodes[..k] == Build(nodes[..k], ids).nodes
    decreases |nodes|
  {
    BuildLength(nodes, ids);
    BuildLength(nodes[..k], ids);
    if k < |nodes| {
      var init := nodes[..|nodes| - 1];
      var last := nodes[|nodes| - 1];
      var b := Build(init, ids);
      BuildPrefix(init, ids, k);
      assert init[..k] == nodes[..k];
      var w := WebNodeOf(last).(next := if Linked(last, ids) && EdgeId(last.id, last.nextMain.value) !in b.edgeIds
                                        then [last.nextMain.value] else []);
      StepNodes(b, last, ids, w);
      assert Build(nodes, ids).nodes == b.nodes + [w];
    } else {
      assert nodes[..k] == nodes;
    }
  }

  /** Running the loop one node further is one more iteration. */
  lemma BuildSnoc(nodes: seq<SourceNode>, ids: set<string>, k: nat)
    requires k < |nodes|
    ensures Build(nodes[..k + 1], ids) == Step(Build(nodes[..k], ids), nodes[k], ids)
  {
    assert nodes[..k + 1][..k] == nodes[..k];
  }

  /** One iteration appends exactly the node it builds. */
  lemma StepNodes(acc: Acc, n: SourceNode, ids: set<string>, w: WebNode)
    requires w == WebNodeOf(n).(next := if Linked(n, ids) && EdgeId(n.id, n.nextMain.value) !in acc.edgeIds
                                        then [n.nextMain.value] else [])
    ensures Step(acc, n, ids).nodes == acc.nodes + [w]
  {
    if Linked(n, ids) {
      assert WebNodeOf(n).next + [n.nextMain.value] == [n.nextMain.value];
    }
  }

  lemma {:induction false} BuildLength(nodes: seq<SourceNode>, ids: set<string>)
    ensures |Build(nodes, ids).nodes| == |nodes|
  {
    if nodes != [] {
      BuildLength(nodes[..|nodes| - 1], ids);
    }
  }

  /** The ids of a list of edges. */
  function EdgeIds(edges: seq<WebEdge>): set<string> {
    set e | e in edges :: e.id
  }

  /** Pairwise distinct edge ids. */
  predicate DistinctEdgeIds(edges: seq<WebEdge>) {
    forall i, j :: 0 <= i < j < |edges| ==> edges[i].id != edges[j].id
  }

  /** The edge ids in the output are pairwise distinct, and they are exactly the ids recorded as existing. */
  lemma {:induction false} BuildEdgesDistinct(nodes: seq<SourceNode>, ids: set<string>)
    ensures DistinctEdgeIds(Build(nodes, ids).edges)
    ensures Build(nodes, ids).edgeIds == EdgeIds(Build(nodes, ids).edges)
  {
    if nodes != [] {
      var init := Build(nodes[..|nodes| - 1], ids);
      BuildEdgesDistinct(nodes[..|nodes| - 1], ids);
      var n := nodes[|nodes| - 1];
      assert Build(nodes, ids) == Step(init, n, ids);
      if Linked(n, ids) && EdgeId(n.id, n.nextMain.value) !in init.edgeIds {
        var e := WebEdge(EdgeId(n.id, n.nextMain.value), n.id, n.nextMain.value, "", "", false);
        assert Build(nodes, ids).edges == init.edges + [e];
        AppendFreshEdge(init.edges, e);
      }
    }
  }

  /** Appending an edge whose id is new keeps the ids distinct and adds that id. */
  lemma AppendFreshEdge(edges: seq<WebEdge>, e: WebEdge)
    requires DistinctEdgeIds(edges) && e.id !in EdgeIds(edges)
    ensures DistinctEdgeIds(edges + [e])
    ensures EdgeIds(edges + [e]) == EdgeIds(edges) + {e.id}
  {
    var r := edges + [e];
    assert forall i :: 0 <= i < |edges| ==> r[i] == edges[i] && edges[i] in edges;
    assert r[|edges|] == e;
    forall x | x in EdgeIds(r)
      ensures x in EdgeIds(edges) + {e.id}
    {
      var f :| f in r && f.id == x;
      if f != e {
        assert f in edges;
      }
    }
  }

  /**
   * Every edge runs from a node of the table to a node of `ids`, and its id
   * is built from those two ids.
   */
  lemma {:induction false} BuildEdgesWellFormed(nodes: seq<SourceNode>, ids: set<string>)
    ensures forall e :: e in Build(nodes, ids).edges ==>
      e.source in IdsOf(nodes) && e.target in ids && e.id == EdgeId(e.source, e.target)
      && e.caption == "" && e.condition == "" && !e.animated
  {
    if nodes != [] {
      var init := nodes[..|nodes| - 1];
      BuildEdgesWellFormed(init, ids);
      assert forall n :: n in init ==> n in nodes;
      assert nodes[|nodes| - 1] in nodes;
    }
  }

  /** The edge the iteration on `nodes[i]` adds is in the output. */
  lemma {:induction false} AddedEdgeKept(nodes: seq<SourceNode>, ids: set<string>, i: nat)
    requires i < |nodes| && Added(nodes, i, ids)
    ensures WebEdge(EdgeId(nodes[i].id, nodes[i].nextMain.value), nodes[i].id, nodes[i].nextMain.value, "", "", false)
      in Build(nodes, ids).edges
  {
    var init := nodes[..|nodes| - 1];
    if i < |nodes| - 1 {
      assert init[i] == nodes[i] && init[..i] == nodes[..i];
      AddedEdgeKept(init, ids, i);
    } else {
      assert init == nodes[..i];
    }
  }

  /** Every edge in the output is the one some iteration added: none comes from anywhere else. */
  lemma {:induction false} EdgesComeFromAdded(nodes: seq<SourceNode>, ids: set<string>)
    ensures forall e :: e in Build(nodes, ids).edges ==>
      exists i :: 0 <= i < |nodes| && Added(nodes, i, ids)
        && e == WebEdge(EdgeId(nodes[i].id, nodes[i].nextMain.value), nodes[i].id, nodes[i].nextMain.value, "", "", false)
  {
    if nodes != [] {
      var k := |nodes| - 1;
      var init := nodes[..k];
      EdgesComeFromAdded(init, ids);
      forall e | e in Build(nodes, ids).edges
        ensures exists i :: 0 <= i < |nodes| && Added(nodes, i, ids)
                  && e == WebEdge(EdgeId(nodes[i].id, nodes[i].nextMain.value), nodes[i].id, nodes[i].nextMain.value, "", "", false)
      {
        if e in Build(init, ids).edges {
          var i :| 0 <= i < |init| && Added(init, i, ids)
            && e == WebEdge(EdgeId(init[i].id, init[i].nextMain.value), init[i].id, init[i].nextMain.value, "", "", false);
          assert init[i] == nodes[i] && init[..i] == nodes[..i];
          assert Added(nodes, i, ids);
        } else {
          assert Added(nodes, k, ids);
        }
      }
    }
  }

  // ---------------------------------------------------------------------
  // properties of the output
  // ---------------------------------------------------------------------

  /**
   * The output has one node per source node, in order, with the source's id,
   * its title or `Untitled`, its category and the tags `[type, phase]`.
   */
  lemma TransformNodes(nodes: seq<SourceNode>, i: nat)
    requires i < |nodes|
    ensures var out := Transform(nodes).value;
      && |out.nodes| == |nodes|
      && out.nodes[i].id == nodes[i].id
      && out.nodes[i].title == TitleOf(nodes[i].title)
      && out.nodes[i].category == CategoryOf(nodes[i].phase, nodes[i].nodeType)
      && out.nodes[i].tags == [nodes[i].nodeType, nodes[i].phase]
  {
    BuildNodes(nodes, IdsOf(nodes), i);
  }

  /**
   * A node's `next` holds its `nextMain` exactly when its iteration added an
   * edge, and is empty otherwise; an added edge is in the output.
   */
  lemma TransformNextIffEdge(nodes: seq<SourceNode>, i: nat)
    requires i < |nodes|
    ensures var out := Transform(nodes).value;
      && i < |out.nodes|
      && (Added(nodes, i, IdsOf(nodes)) ==>
            && out.nodes[i].next == [nodes[i].nextMain.value]
            && WebEdge(EdgeId(nodes[i].id, nodes[i].nextMain.value), nodes[i].id, nodes[i].nextMain.value,
                       "", "", false) in out.edges)
      && (!Added(nodes, i, IdsOf(nodes)) ==> out.nodes[i].next == [])
  {
    BuildNodes(nodes, IdsOf(nodes), i);
    if Added(nodes, i, IdsOf(nodes)) {
      AddedEdgeKept(nodes, IdsOf(nodes), i);
    }
  }

  /**
   * The output's edge ids are pairwise distinct, every edge joins two nodes of
   * the table, and every edge is the `nextMain` link of an iteration that added it.
   */
  lemma TransformEdges(nodes: seq<SourceNode>)
    requires nodes != []
    ensures var out := Transform(nodes).value;
      && DistinctEdgeIds(out.edges)
      && (forall e :: e in out.edges ==> e.source in IdsOf(nodes) && e.target in IdsOf(nodes))
      && (forall e :: e in out.edges ==>
            exists j :: 0 <= j < |nodes| && Added(nodes, j, IdsOf(nodes))
              && e == WebEdge(EdgeId(nodes[j].id, nodes[j].nextMain.value), nodes[j].id, nodes[j].nextMain.value,
                              "", "", false))
  {
    BuildEdgesDistinct(nodes, IdsOf(nodes));
    BuildEdgesWellFormed(nodes, IdsOf(nodes));
    EdgesComeFromAdded(nodes, IdsOf(nodes));
  }

  /**
   * A node whose `nextMain` is missing, empty or unknown gets an empty `next`
   * and no edge: every edge of the output was added by another iteration.
   */
  lemma UnlinkedGetsNoEdge(nodes: seq<SourceNode>, i: nat)
    requires i < |nodes| && !Linked(nodes[i], IdsOf(nodes))
    ensures i < |Transform(nodes).value.nodes| && Transform(nodes).value.nodes[i].next == []
    ensures forall e :: e in Transform(nodes).value.edges ==>
      exists j :: 0 <= j < |nodes| && j != i && Added(nodes, j, IdsOf(nodes))
        && e == WebEdge(EdgeId(nodes[j].id, nodes[j].nextMain.value), nodes[j].id, nodes[j].nextMain.value,
                        "", "", false)
  {
    BuildNodes(nodes, IdsOf(nodes), i);
    EdgesComeFromAdded(nodes, IdsOf(nodes));
  }
}
