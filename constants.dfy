/** The constant lookup tables of `src/constants.ts`. */
module Constants {

  /** One entry of `NODE_STATUSES`: display label (`caption`), colour pair and icon glyph. */
  datatype StatusInfo = StatusInfo(caption: string, color: string, bgColor: string, icon: string)

  const PENDING: string := "pending"
  const IN_PROGRESS: string := "inProgress"
  const COMPLETED: string := "completed"
  const NOT_APPLICABLE: string := "notApplicable"

  /** The keys of `NODE_STATUSES` in declaration order, the order `Object.entries` yields. */
  const STATUS_ORDER: seq<string> := [PENDING, IN_PROGRESS, COMPLETED, NOT_APPLICABLE]

  const NODE_STATUSES: map<string, StatusInfo> := map[
    PENDING := StatusInfo("未着手", "#94a3b8", "rgba(148, 163, 184, 0.12)", "○"),
    IN_PROGRESS := StatusInfo("進行中", "#6366f1", "rgba(99, 102, 241, 0.12)", "◐"),
    COMPLETED := StatusInfo("完了", "#22c55e", "rgba(34, 197, 94, 0.12)", "●"),
    NOT_APPLICABLE := StatusInfo("対象外", "#64748b", "rgba(100, 116, 139, 0.12)", "—")
  ]

  const CATEGORY_COLORS: map<string, string> := map[
    "contract" := "#6366f1",
    "legal" := "#f59e0b",
    "milestone" := "#ef4444",
    "procurement" := "#a78bfa",
    "equipment" := "#22d3ee",
    "inspection" := "#fb923c",
    "registration" := "#34d399",
    "handover" := "#f472b6",
    "power" := "#facc15",
    "waste" := "#a1a1aa",
    "communication" := "#38bdf8",
    "construction" := "#c084fc",
    "default" := "#94a3b8"
  ]

  const CATEGORY_LABELS: map<string, string> := map[
    "contract" := "契約",
    "legal" := "法令",
    "milestone" := "マイルストーン",
    "procurement" := "調達",
    "equipment" := "設備",
    "inspection" := "検査",
    "registration" := "登記",
    "handover" := "引渡",
    "power" := "受電・運開",
    "waste" := "廃棄物",
    "communication" := "通信・監視",
    "construction" := "工事",
    "junction" := "分岐点",
    "default" := "その他"
  ]

  const ASSIGNEES: seq<string> := ["宮崎", "若林", "猪又", "堀", "その他"]

  /** A key of `NODE_STATUSES`. */
  predicate IsStatusKey(k: string) {
    k in NODE_STATUSES
  }

  /** `NODE_STATUSES` has exactly the four keys, listed once each in `STATUS_ORDER`. */
  lemma StatusKeys()
    ensures NODE_STATUSES.Keys == {PENDING, IN_PROGRESS, COMPLETED, NOT_APPLICABLE}
    ensures forall k :: k in NODE_STATUSES <==> k in STATUS_ORDER
    ensures forall i, j :: 0 <= i < j < |STATUS_ORDER| ==> STATUS_ORDER[i] != STATUS_ORDER[j]
  {
  }

  /** Distinct statuses have distinct, non-empty labels. */
  lemma StatusLabelsDistinct()
    ensures forall k :: k in NODE_STATUSES ==> NODE_STATUSES[k].caption != ""
    ensures forall k1, k2 :: k1 in NODE_STATUSES && k2 in NODE_STATUSES && k1 != k2 ==>
      NODE_STATUSES[k1].caption != NODE_STATUSES[k2].caption
  {
  }

  /** `pending`'s label is the literal the spreadsheet export falls back to. */
  lemma PendingLabel()
    ensures PENDING in NODE_STATUSES && NODE_STATUSES[PENDING].caption == "未着手"
  {
  }

  /** Every coloured category is labelled; `junction` is labelled but has no colour. */
  lemma CategoryTables()
    ensures CATEGORY_COLORS.Keys <= CATEGORY_LABELS.Keys
    ensures "junction" in CATEGORY_LABELS && "junction" !in CATEGORY_COLORS
    ensures forall k :: k in CATEGORY_LABELS && k !in CATEGORY_COLORS ==> k == "junction"
    ensures "default" in CATEGORY_COLORS
    ensures forall k :: k in CATEGORY_LABELS ==> CATEGORY_LABELS[k] != ""
  {
  }

  /** The assignee suggestions are distinct, non-empty and comma-free. */
  lemma AssigneesWellFormed()
    ensures forall i :: 0 <= i < |ASSIGNEES| ==> ASSIGNEES[i] != "" && ',' !in ASSIGNEES[i]
    ensures forall i, j :: 0 <= i < j < |ASSIGNEES| ==> ASSIGNEES[i] != ASSIGNEES[j]
  {
  }

  /** `CATEGORY_LABELS[cat] || cat`: the category's label, or the raw category when it has none. */
  function CategoryCaption(category: string): (r: string)
    ensures category in CATEGORY_LABELS ==> r == CATEGORY_LABELS[category]
    ensures category !in CATEGORY_LABELS ==> r == category
  {
    CategoryTables();
    if category in CATEGORY_LABELS && CATEGORY_LABELS[category] != "" then CATEGORY_LABELS[category]
    else category
  }

  /** `CATEGORY_COLORS[cat] || CATEGORY_COLORS.default`: the category's colour, or the default one. */
  function CategoryColor(category: string): (r: string)
    ensures category in CATEGORY_COLORS ==> r == CATEGORY_COLORS[category]
    ensures category !in CATEGORY_COLORS ==> r == CATEGORY_COLORS["default"]
    ensures r != ""
  {
    if category in CATEGORY_COLORS && CATEGORY_COLORS[category] != "" then CATEGORY_COLORS[category]
    else CATEGORY_COLORS["default"]
  }

  /** `statusMap[id] || 'pending'`: the node's recorded status, or `pending` when none is recorded. */
  function StatusOrPending(statusMap: map<string, string>, id: string): (r: string)
    ensures id in statusMap && statusMap[id] != "" ==> r == statusMap[id]
    ensures id !in statusMap || statusMap[id] == "" ==> r == PENDING
    ensures r != ""
  {
    if id in statusMap && statusMap[id] != "" then statusMap[id] else PENDING
  }
}
