/**
 * `src/utils/excelStatus.ts`: persistence of the annotation maps in
 * `localStorage`, and the status spreadsheet codec over a matrix of string
 * cells (the XLSX library that turns the matrix into a file and back is the
 * boundary of the model).
 */
module ExcelStatus {
  import opened Wrappers
  import opened JsString
  import opened Storage
  import opened Constants

  /** `StatusMap`, `AssigneeMap`, `DueDateMap` and `MemoMap`: node id to string. */
  type StringMap = map<string, string>

  /** A sheet as `sheet_to_json(ws, { header: 1 })` returns it: rows of cells. */
  type Sheet = seq<seq<string>>

  // ---------------------------------------------------------------------
  // localStorage persistence
  // ---------------------------------------------------------------------

  const STATUS_KEY: string := "heliosflow_status"
  // The loaders for these three maps are not in this version of the file;
  // their keys are assumed to follow the status key's naming.
  const ASSIGNEE_KEY: string := "heliosflow_assignee"
  const DUE_DATE_KEY: string := "heliosflow_duedate"
  const MEMO_KEY: string := "heliosflow_memo"

  /**
   * `loadStatusFromStorage` for the map stored under `key`: the stored map, or
   * `{}` when the key is missing, empty or does not parse as a JSON object.
   */
  function LoadMap(items: map<string, Entry>, key: string): (m: StringMap)
    ensures key !in items || !Truthy(items[key]) ==> m == map[]
    ensures key in items && ParseObject(items[key]).None? ==> m == map[]
    ensures key in items && ParseObject(items[key]).Some? ==> m == ParseObject(items[key]).value
  {
    if key in items && Truthy(items[key]) then ParseObject(items[key]).GetOr(map[]) else map[]
  }

  /** `saveStatusToStorage(m)` for the map stored under `key`. */
  method SaveMap(store: LocalStorage, key: string, m: StringMap)
    modifies store
    ensures store.items == old(store.items)[key := StringifyObject(m)]
    ensures LoadMap(store.items, key) == m
  {
    store.SetItem(key, StringifyObject(m));
  }

  /** Saving and then loading gives back the saved map, and no other key's map changes. */
  lemma SaveThenLoad(items: map<string, Entry>, key: string, other: string, m: StringMap)
    ensures LoadMap(items[key := StringifyObject(m)], key) == m
    ensures other != key ==> LoadMap(items[key := StringifyObject(m)], other) == LoadMap(items, other)
  {
  }

  // ---------------------------------------------------------------------
  // status label -> status key
  // ---------------------------------------------------------------------

  /** `Object.entries(NODE_STATUSES).find(([, v]) => v.label === text)`, over `keys` in order. */
  function FindKeyByLabel(keys: seq<string>, text: string): (r: Option<string>)
    requires forall i :: 0 <= i < |keys| ==> keys[i] in NODE_STATUSES
    ensures r.Some? ==> r.value in keys && NODE_STATUSES[r.value].caption == text
    ensures r.None? ==> forall i :: 0 <= i < |keys| ==> NODE_STATUSES[keys[i]].caption != text
  {
    if keys == [] then None
    else if NODE_STATUSES[keys[0]].caption == text then Some(keys[0])
    else FindKeyByLabel(keys[1..], text)
  }

  /**
   * `labelToKey`: the key whose label is exactly `text`, or `pending` when no
   * status has that label.  The result is always a status key.
   */
  function LabelToKey(text: string): (k: string)
    ensures IsStatusKey(k)
  {
    StatusKeys();
    FindKeyByLabel(STATUS_ORDER, text).GetOr(PENDING)
  }

  /** `labelToKey` finds the status with exactly that label, and falls back to `pending`. */
  lemma LabelToKeySpec(text: string)
    ensures (exists key :: key in NODE_STATUSES && NODE_STATUSES[key].caption == text) ==>
      NODE_STATUSES[LabelToKey(text)].caption == text
    ensures (forall key :: key in NODE_STATUSES ==> NODE_STATUSES[key].caption != text) ==>
      LabelToKey(text) == PENDING
  {
    StatusKeys();
  }

  /** `labelToKey` is a left inverse of key -> label on the four status keys. */
  lemma LabelToKeyOfCaption(k: string)
    requires IsStatusKey(k)
    ensures LabelToKey(NODE_STATUSES[k].caption) == k
  {
    StatusLabelsDistinct();
    LabelToKeySpec(NODE_STATUSES[k].caption);
  }

  // ---------------------------------------------------------------------
  // dates
  // ---------------------------------------------------------------------

  /** A calendar day as `Date`'s getters give it (`getMonth() + 1`). */
  datatype Day = Day(year: nat, month: nat, day: nat)

  predicate ValidDay(d: Day) {
    1 <= d.month <= 12 && 1 <= d.day <= 31
  }

  /** `formatDateDisplay`: `YYYY/MM/DD` with month and day padded to two digits. */
  function FormatDateDisplay(d: Day): string {
    NatToString(d.year) + "/" + Pad2(d.month) + "/" + Pad2(d.day)
  }

  /** `formatDate`: `YYYYMMDD`, for the file name. */
  function FormatDate(d: Day): string {
    NatToString(d.year) + Pad2(d.month) + Pad2(d.day)
  }

  /** A four-digit year's display date is ten characters and its fields read back. */
  lemma FormatDateDisplayLayout(d: Day)
    requires ValidDay(d) && 1000 <= d.year <= 9999
    ensures var s := FormatDateDisplay(d);
      && |s| == 10 && s[4] == '/' && s[7] == '/'
      && AllDigits(s[..4]) && DecimalValue(s[..4]) == d.year
      && AllDigits(s[5..7]) && DecimalValue(s[5..7]) == d.month
      && AllDigits(s[8..]) && DecimalValue(s[8..]) == d.day
  {
    var y := NatToString(d.year);
    DecimalValueOfNatToString(d.year);
    NatToStringLength4(d.year);
    var s := FormatDateDisplay(d);
    assert s == y + "/" + Pad2(d.month) + "/" + Pad2(d.day);
    assert s[..4] == y;
    assert s[5..7] == Pad2(d.month);
    assert s[8..] == Pad2(d.day);
  }

  lemma NatToStringLength4(n: nat)
    requires 1000 <= n <= 9999
    ensures |NatToString(n)| == 4
  {
    var a, b, c := n / 10, n / 100, n / 1000;
    assert 100 <= a <= 999 && 10 <= b <= 99 && 1 <= c <= 9;
    assert a / 10 == b && b / 10 == c;
    assert |NatToString(c)| == 1;
    assert |NatToString(b)| == 2;
    assert |NatToString(a)| == 3;
  }

  /** A four-digit year's file-name date is eight digits whose fields read back. */
  lemma FormatDateLayout(d: Day)
    requires ValidDay(d) && 1000 <= d.year <= 9999
    ensures var s := FormatDate(d);
      && |s| == 8 && AllDigits(s)
      && DecimalValue(s[..4]) == d.year && DecimalValue(s[4..6]) == d.month && DecimalValue(s[6..]) == d.day
  {
    var y := NatToString(d.year);
    DecimalValueOfNatToString(d.year);
    NatToStringLength4(d.year);
    var s := FormatDate(d);
    assert s == y + Pad2(d.month) + Pad2(d.day);
    assert s[..4] == y;
    assert s[4..6] == Pad2(d.month);
    assert s[6..] == Pad2(d.day);
  }

  /** The name the export downloads under. */
  function ExportFileName(today: Day): string {
    "heliosflow_status_" + FormatDate(today) + ".xlsx"
  }

  /**
   * For a four-digit year the download name is `heliosflow_status_`, the
   * eight date digits and `.xlsx`, and the digits read back as the day.
   */
  lemma ExportFileNameLayout(today: Day)
    requires ValidDay(today) && 1000 <= today.year <= 9999
    ensures var name := ExportFileName(today);
      && |name| == 31 && name[..18] == "heliosflow_status_" && name[26..] == ".xlsx"
      && AllDigits(name[18..26]) && DecimalValue(name[18..22]) == today.year
      && DecimalValue(name[22..24]) == today.month && DecimalValue(name[24..26]) == today.day
  {
    FormatDateLayout(today);
    var name := ExportFileName(today);
    var date := FormatDate(today);
    assert name[18..26] == date;
    assert name[18..22] == date[..4] && name[22..24] == date[4..6] && name[24..26] == date[6..];
  }

  // ---------------------------------------------------------------------
  // export
  // ---------------------------------------------------------------------

  const PROJECT_MARKER: string := "案件名"
  const UPDATED_MARKER: string := "更新日"
  const HEADER: seq<string> := ["ID", "タイトル", "カテゴリ", "ステータス"]
  const PENDING_LABEL: string := "未着手"

  /** What the exporter reads of a node: its id, `data.label` and `data.category`. */
  datatype ExportNode = ExportNode(id: string, title: string, category: string)

  predicate Exported(n: ExportNode) {
    n.category != "junction"
  }

  /** `nodes.filter(n => n.data.category !== 'junction')`. */
  function Eligible(nodes: seq<ExportNode>): (r: seq<ExportNode>)
    ensures |r| <= |nodes|
    ensures forall n :: n in r <==> n in nodes && Exported(n)
  {
    if nodes == [] then []
    else (if Exported(nodes[0]) then [nodes[0]] else []) + Eligible(nodes[1..])
  }

  /** The filter keeps input order: it distributes over concatenation. */
  lemma {:induction false} EligibleAppend(a: seq<ExportNode>, b: seq<ExportNode>)
    ensures Eligible(a + b) == Eligible(a) + Eligible(b)
  {
    if a != [] {
      assert (a + b)[1..] == a[1..] + b;
      EligibleAppend(a[1..], b);
    } else {
      assert a + b == b;
    }
  }

  /** `NODE_STATUSES[statusMap[id] || 'pending']?.label || '未着手'`. */
  function StatusCell(statusMap: StringMap, id: string): (r: string)
    ensures id in statusMap && IsStatusKey(statusMap[id]) ==> r == NODE_STATUSES[statusMap[id]].caption
    ensures id !in statusMap || !IsStatusKey(statusMap[id]) ==> r == PENDING_LABEL
  {
    StatusLabelsDistinct();
    PendingLabel();
    var key := StatusOrPending(statusMap, id);
    if key in NODE_STATUSES && NODE_STATUSES[key].caption != "" then NODE_STATUSES[key].caption
    else PENDING_LABEL
  }

  function DataRow(n: ExportNode, statusMap: StringMap): seq<string> {
    [n.id, n.title, CategoryCaption(n.category), StatusCell(statusMap, n.id)]
  }

  /** One row per non-junction node, in input order. */
  function DataRows(nodes: seq<ExportNode>, statusMap: StringMap): (rows: Sheet)
    ensures |rows| == |Eligible(nodes)|
    ensures forall i :: 0 <= i < |rows| ==> rows[i] == DataRow(Eligible(nodes)[i], statusMap)
  {
    var eligible := Eligible(nodes);
    seq(|eligible|, i requires 0 <= i < |eligible| => DataRow(eligible[i], statusMap))
  }

  /**
   * The matrix `exportStatusToExcel` hands to `aoa_to_sheet`: the project-name
   * row, the date row, an empty row, the header, then one row per
   * non-junction node in input order.
   */
  function ExportSheet(nodes: seq<ExportNode>, statusMap: StringMap, projectName: string, today: Day): (rows: Sheet)
    ensures |rows| == 4 + |Eligible(nodes)|
    ensures rows[0] == [PROJECT_MARKER, projectName, "", ""]
    ensures rows[1] == [UPDATED_MARKER, FormatDateDisplay(today), "", ""]
    ensures rows[2] == ["", "", "", ""]
    ensures rows[3] == HEADER
    ensures rows[4..] == DataRows(nodes, statusMap)
  {
    [[PROJECT_MARKER, projectName, "", ""], [UPDATED_MARKER, FormatDateDisplay(today), "", ""],
     ["", "", "", ""], HEADER]
    + DataRows(nodes, statusMap)
  }

  // ---------------------------------------------------------------------
  // import
  // ---------------------------------------------------------------------

  /** What `importStatusFromExcel` resolves with. */
  datatype ImportedStatus = ImportedStatus(statusMap: StringMap, projectName: string)

  /** `row[j]`, with a missing cell read as the empty (falsy) cell. */
  function Cell(row: seq<string>, j: nat): (c: string)
    ensures j < |row| ==> c == row[j]
    ensures j >= |row| ==> c == ""
  {
    if j < |row| then row[j] else ""
  }

  /** Row 0, column 1, trimmed, when row 0 column 0 is the project-name marker; otherwise `''`. */
  function ImportedProjectName(rows: Sheet): (name: string)
    ensures |rows| > 0 && Cell(rows[0], 0) == PROJECT_MARKER && Cell(rows[0], 1) != "" ==>
      name == Trim(rows[0][1])
    ensures !(|rows| > 0 && Cell(rows[0], 0) == PROJECT_MARKER && Cell(rows[0], 1) != "") ==>
      name == ""
  {
    if |rows| > 0 && Cell(rows[0], 0) == PROJECT_MARKER && Cell(rows[0], 1) != "" then Trim(rows[0][1])
    else ""
  }

  predicate IsHeaderRow(rows: Sheet, i: int) {
    0 < i < |rows| && Cell(rows[i], 0) == "ID"
  }

  /** `rows.findIndex((row, i) => i > 0 && row && row[0] === 'ID')`, from position `from`. */
  function FindHeader(rows: Sheet, from: nat): (r: Option<nat>)
    requires from >= 1
    ensures r.Some? ==> from <= r.value && IsHeaderRow(rows, r.value)
    ensures r.Some? ==> forall j :: from <= j < r.value ==> !IsHeaderRow(rows, j)
    ensures r.None? ==> forall j :: from <= j < |rows| ==> !IsHeaderRow(rows, j)
    decreases |rows| - from
  {
    if from >= |rows| then None
    else if Cell(rows[from], 0) == "ID" then Some(from)
    else FindHeader(rows, from + 1)
  }

  /** The first data row: one past the first header row after row 0, or row 3 when there is none. */
  function DataStart(rows: Sheet): (start: nat)
    ensures (exists h :: IsHeaderRow(rows, h)) ==>
      IsHeaderRow(rows, start - 1) && forall j :: 0 < j < start - 1 ==> !IsHeaderRow(rows, j)
    ensures (forall h :: !IsHeaderRow(rows, h)) ==> start == 3
  {
    match FindHeader(rows, 1)
    case Some(h) => h + 1
    case None => 3
  }

  /** A row contributes an entry when its id cell and its status cell are both non-empty. */
  predicate Counts(row: seq<string>) {
    Cell(row, 0) != "" && Cell(row, 3) != ""
  }

  /** What one row contributes to the status map. */
  datatype RowEntry = Skip | Put(key: string, status: string)

  /** The entry of a row: its trimmed id and the key of its trimmed status label, when it counts. */
  function EntryOf(row: seq<string>): (e: RowEntry)
    ensures e.Put? <==> Counts(row)
    ensures e.Put? ==> IsStatusKey(e.status)
  {
    if Counts(row) then Put(Trim(Cell(row, 0)), LabelToKey(Trim(Cell(row, 3)))) else Skip
  }

  /** One iteration of the import loop. */
  function Apply(m: StringMap, e: RowEntry): StringMap {
    match e
    case Skip => m
    case Put(k, v) => m[k := v]
  }

  /** The entries of rows `start` up to (not including) `end`, in row order. */
  function Entries(rows: Sheet, start: nat, end: nat): (es: seq<RowEntry>)
    requires end <= |rows|
    ensures |es| == if start <= end then end - start else 0
    ensures forall i :: 0 <= i < |es| && es[i].Put? ==> IsStatusKey(es[i].status)
    decreases end
  {
    if end <= start then [] else Entries(rows, start, end - 1) + [EntryOf(rows[end - 1])]
  }

  lemma {:induction false} EntriesAt(rows: Sheet, start: nat, end: nat, i: nat)
    requires start <= i < end <= |rows|
    ensures Entries(rows, start, end)[i - start] == EntryOf(rows[i])
    decreases end
  {
    if i < end - 1 {
      EntriesAt(rows, start, end - 1, i);
    }
  }

  /** The status map after the import loop has applied `es` in order, starting from `{}`. */
  function Fold(es: seq<RowEntry>): StringMap
    decreases |es|
  {
    if es == [] then map[] else Apply(Fold(es[..|es| - 1]), es[|es| - 1])
  }

  predicate PutsKey(e: RowEntry, k: string) {
    e.Put? && e.key == k
  }

  /** The import as one value: the project name and the decoded status rows. */
  function Import(rows: Sheet): ImportedStatus {
    ImportedStatus(Fold(Entries(rows, DataStart(rows), |rows|)), ImportedProjectName(rows))
  }

  /** `importStatusFromExcel` once the workbook has been read into rows. */
  method ImportStatusFromRows(rows: Sheet) returns (result: ImportedStatus)
    ensures result == Import(rows)
  {
    var projectName := "";
    if |rows| > 0 && Cell(rows[0], 0) == PROJECT_MARKER && Cell(rows[0], 1) != "" {
      projectName := Trim(rows[0][1]);
    }
    var header := FindHeader(rows, 1);
    var startIdx := if header.Some? then header.value + 1 else 3;
    var statusMap := DecodeStatusRows(rows, startIdx);
    result := ImportedStatus(statusMap, projectName);
  }

  /** The loop of `importStatusFromExcel` over the data rows from `startIdx` on. */
  method DecodeStatusRows(rows: Sheet, startIdx: nat) returns (statusMap: StringMap)
    ensures statusMap == Fold(Entries(rows, startIdx, |rows|))
  {
    statusMap := map[];
    var i := startIdx;
    while i < |rows|
      invariant startIdx <= i
      invariant i <= |rows| ==> statusMap == Fold(Entries(rows, startIdx, i))
      invariant i > |rows| ==> i == startIdx && statusMap == map[]
    {
      var row := rows[i];
      if Cell(row, 0) != "" && Cell(row, 3) != "" {
        var nodeId := Trim(Cell(row, 0));
        var statusLabel := Trim(Cell(row, 3));
        statusMap := statusMap[nodeId := LabelToKey(statusLabel)];
      }
      FoldEntriesStep(rows, startIdx, i);
      i := i + 1;
    }
  }

  /** One more row of the loop is one more entry of the fold. */
  lemma FoldEntriesStep(rows: Sheet, start: nat, i: nat)
    requires start <= i < |rows|
    ensures Fold(Entries(rows, start, i + 1)) == Apply(Fold(Entries(rows, start, i)), EntryOf(rows[i]))
  {
    var es := Entries(rows, start, i);
    assert (es + [EntryOf(rows[i])])[..|es|] == es;
  }

  /** A key is in the folded map exactly when some entry puts it. */
  lemma {:induction false} FoldKeys(es: seq<RowEntry>, k: string)
    ensures k in Fold(es) <==> exists i :: 0 <= i < |es| && PutsKey(es[i], k)
    decreases |es|
  {
    if es != [] {
      var p := es[..|es| - 1];
      FoldKeys(p, k);
      if k in Fold(es) && !PutsKey(es[|es| - 1], k) {
        var i :| 0 <= i < |p| && PutsKey(p[i], k);
        assert es[i] == p[i];
      }
      if exists i :: 0 <= i < |es| && PutsKey(es[i], k) {
        var i :| 0 <= i < |es| && PutsKey(es[i], k);
        if i < |p| {
          assert p[i] == es[i];
        }
      }
    }
  }

  /** The value for a key comes from the last entry that puts it: later rows overwrite earlier ones. */
  lemma {:induction false} FoldLastWins(es: seq<RowEntry>, i: nat)
    requires i < |es| && es[i].Put?
    requires forall j :: i < j < |es| ==> !PutsKey(es[j], es[i].key)
    ensures es[i].key in Fold(es) && Fold(es)[es[i].key] == es[i].status
    decreases |es|
  {
    var p := es[..|es| - 1];
    if i < |p| {
      assert p[i] == es[i];
      forall j | i < j < |p|
        ensures !PutsKey(p[j], p[i].key)
      {
        assert p[j] == es[j];
      }
      FoldLastWins(p, i);
    }
  }

  /** Every value of the folded map is the status some entry put for that key. */
  lemma {:induction false} FoldValues(es: seq<RowEntry>, k: string)
    requires k in Fold(es)
    ensures exists i :: 0 <= i < |es| && PutsKey(es[i], k) && es[i].status == Fold(es)[k]
    decreases |es|
  {
    var p := es[..|es| - 1];
    if PutsKey(es[|es| - 1], k) {
      assert PutsKey(es[|es| - 1], k) && es[|es| - 1].status == Fold(es)[k];
    } else {
      FoldValues(p, k);
      var i :| 0 <= i < |p| && PutsKey(p[i], k) && p[i].status == Fold(p)[k];
      assert es[i] == p[i];
    }
  }

  /**
   * When several data rows carry the same id, the import keeps the status of
   * the last of them.
   */
  lemma ImportLastRowWins(rows: Sheet, i: nat)
    requires DataStart(rows) <= i < |rows| && Counts(rows[i])
    requires forall j :: i < j < |rows| ==> !PutsKey(EntryOf(rows[j]), EntryOf(rows[i]).key)
    ensures EntryOf(rows[i]).key in Import(rows).statusMap
    ensures Import(rows).statusMap[EntryOf(rows[i]).key] == EntryOf(rows[i]).status
  {
    var start := DataStart(rows);
    var es := Entries(rows, start, |rows|);
    EntriesAt(rows, start, |rows|, i);
    forall j | i - start < j < |es|
      ensures !PutsKey(es[j], es[i - start].key)
    {
      EntriesAt(rows, start, |rows|, j + start);
    }
    FoldLastWins(es, i - start);
  }

  /** Every status the import decodes is one of the four status keys. */
  lemma DecodedStatusesAreKeys(rows: Sheet, k: string)
    requires k in Import(rows).statusMap
    ensures IsStatusKey(Import(rows).statusMap[k])
  {
    FoldValues(Entries(rows, DataStart(rows), |rows|), k);
  }

  // ---------------------------------------------------------------------
  // export -> import round trip
  // ---------------------------------------------------------------------

  /** What the round trip gives back for a node: its status when that is a status key, else `pending`. */
  function ExpectedStatus(statusMap: StringMap, id: string): (k: string)
    ensures IsStatusKey(k)
    ensures id in statusMap && IsStatusKey(statusMap[id]) ==> k == statusMap[id]
    ensures !(id in statusMap && IsStatusKey(statusMap[id])) ==> k == PENDING
  {
    if id in statusMap && IsStatusKey(statusMap[id]) then statusMap[id] else PENDING
  }

  /** Ids the exporter writes can be read back unchanged. */
  predicate ReadableIds(nodes: seq<ExportNode>) {
    forall n :: n in nodes && Exported(n) ==> n.id != "" && IsTrimmed(n.id)
  }

  /** The status cell of an exported row decodes to the expected status. */
  lemma StatusCellDecodes(statusMap: StringMap, id: string)
    ensures StatusCell(statusMap, id) != ""
    ensures LabelToKey(Trim(StatusCell(statusMap, id))) == ExpectedStatus(statusMap, id)
  {
    var k := ExpectedStatus(statusMap, id);
    StatusCellIsCaption(statusMap, id);
    var c := NODE_STATUSES[k].caption;
    CaptionTrimmed(k);
    TrimmedFixpoint(c);
    LabelToKeyOfCaption(k);
  }

  /** The status cell is the label of the expected status. */
  lemma StatusCellIsCaption(statusMap: StringMap, id: string)
    ensures StatusCell(statusMap, id) == NODE_STATUSES[ExpectedStatus(statusMap, id)].caption
  {
    PendingLabel();
  }

  /** Status labels are non-empty and carry no surrounding whitespace. */
  lemma CaptionTrimmed(k: string)
    requires IsStatusKey(k)
    ensures NODE_STATUSES[k].caption != "" && IsTrimmed(NODE_STATUSES[k].caption)
  {
    var c := NODE_STATUSES[k].caption;
    if k == PENDING {
      assert c == "未着手" && c[0] == '未' && c[|c| - 1] == '手';
    } else if k == IN_PROGRESS {
      assert c == "進行中" && c[0] == '進' && c[|c| - 1] == '中';
    } else if k == COMPLETED {
      assert c == "完了" && c[0] == '完' && c[|c| - 1] == '了';
    } else {
      assert k == NOT_APPLICABLE;
      assert c == "対象外" && c[0] == '対' && c[|c| - 1] == '外';
    }
  }

  lemma ExportedHeaderAt3(nodes: seq<ExportNode>, statusMap: StringMap, projectName: string, today: Day)
    ensures DataStart(ExportSheet(nodes, statusMap, projectName, today)) == 4
  {
    var rows := ExportSheet(nodes, statusMap, projectName, today);
    assert FindHeader(rows, 3) == Some(3);
    assert FindHeader(rows, 2) == Some(3);
    assert FindHeader(rows, 1) == Some(3);
  }

  /** The entries an export's data rows should decode to, one per node of `ns`. */
  function ExpectedEntries(ns: seq<ExportNode>, statusMap: StringMap): (es: seq<RowEntry>)
    ensures |es| == |ns|
    ensures forall i :: 0 <= i < |ns| ==> es[i] == Put(ns[i].id, ExpectedStatus(statusMap, ns[i].id))
    decreases |ns|
  {
    if ns == [] then []
    else ExpectedEntries(ns[..|ns| - 1], statusMap) + [Put(ns[|ns| - 1].id, ExpectedStatus(statusMap, ns[|ns| - 1].id))]
  }

  /** Rows whose entries from row 4 on are those expected of `ns` decode, row by row, to `ExpectedEntries`. */
  lemma {:induction false} EntriesOfDataRows(rows: Sheet, ns: seq<ExportNode>, statusMap: StringMap, j: nat)
    requires j <= |ns| && 4 + |ns| <= |rows|
    requires forall k :: 4 <= k < 4 + |ns| ==>
      EntryOf(rows[k]) == Put(ns[k - 4].id, ExpectedStatus(statusMap, ns[k - 4].id))
    ensures Entries(rows, 4, 4 + j) == ExpectedEntries(ns[..j], statusMap)
  {
    if j > 0 {
      EntriesOfDataRows(rows, ns, statusMap, j - 1);
      assert ns[..j][..j - 1] == ns[..j - 1];
    }
  }

  /** The data rows of an export decode to the entries of the eligible nodes. */
  lemma ExportEntries(nodes: seq<ExportNode>, statusMap: StringMap, projectName: string, today: Day)
    requires ReadableIds(nodes)
    ensures Entries(ExportSheet(nodes, statusMap, projectName, today), 4, 4 + |Eligible(nodes)|)
         == ExpectedEntries(Eligible(nodes), statusMap)
  {
    var rows := ExportSheet(nodes, statusMap, projectName, today);
    var e := Eligible(nodes);
    forall k | 4 <= k < 4 + |e|
      ensures EntryOf(rows[k]) == Put(e[k - 4].id, ExpectedStatus(statusMap, e[k - 4].id))
    {
      ExportRowEntry(nodes, statusMap, projectName, today, k - 4);
    }
    EntriesOfDataRows(rows, e, statusMap, |e|);
    assert e[..|e|] == e;
  }

  /** Data row `j` of an export decodes to the entry of eligible node `j`. */
  lemma ExportRowEntry(nodes: seq<ExportNode>, statusMap: StringMap, projectName: string, today: Day, j: nat)
    requires j < |Eligible(nodes)|
    requires ReadableIds(nodes)
    ensures EntryOf(ExportSheet(nodes, statusMap, projectName, today)[4 + j])
         == Put(Eligible(nodes)[j].id, ExpectedStatus(statusMap, Eligible(nodes)[j].id))
  {
    var rows := ExportSheet(nodes, statusMap, projectName, today);
    var n := Eligible(nodes)[j];
    assert n in Eligible(nodes);
    assert rows[4 + j] == rows[4..][j] == DataRow(n, statusMap);
    RowEntryOf(n, statusMap);
  }

  /** An exported row of a node with a readable id decodes to that id and its expected status. */
  lemma RowEntryOf(n: ExportNode, statusMap: StringMap)
    requires n.id != "" && IsTrimmed(n.id)
    ensures EntryOf(DataRow(n, statusMap)) == Put(n.id, ExpectedStatus(statusMap, n.id))
  {
    var row := DataRow(n, statusMap);
    assert Cell(row, 0) == n.id && Cell(row, 3) == StatusCell(statusMap, n.id);
    StatusCellDecodes(statusMap, n.id);
    TrimmedFixpoint(n.id);
  }

  /** The status map imported from an export is the fold of the eligible nodes' expected entries. */
  lemma ImportedExportMap(nodes: seq<ExportNode>, statusMap: StringMap, projectName: string, today: Day)
    requires ReadableIds(nodes)
    ensures Import(ExportSheet(nodes, statusMap, projectName, today)).statusMap
         == Fold(ExpectedEntries(Eligible(nodes), statusMap))
  {
    var rows := ExportSheet(nodes, statusMap, projectName, today);
    ExportedHeaderAt3(nodes, statusMap, projectName, today);
    assert |rows| == 4 + |Eligible(nodes)|;
    ExportEntries(nodes, statusMap, projectName, today);
    assert Import(rows).statusMap == Fold(Entries(rows, DataStart(rows), |rows|));
  }

  /** The project name imported from an export is the exported name, trimmed. */
  lemma ImportedExportName(nodes: seq<ExportNode>, statusMap: StringMap, projectName: string, today: Day)
    ensures Import(ExportSheet(nodes, statusMap, projectName, today)).projectName
         == if projectName == "" then "" else Trim(projectName)
  {
    var rows := ExportSheet(nodes, statusMap, projectName, today);
    assert Cell(rows[0], 0) == PROJECT_MARKER && Cell(rows[0], 1) == projectName;
  }

  /** Folding the expected entries of `ns` gives each id of `ns`, and only those, its expected status. */
  lemma FoldExpected(ns: seq<ExportNode>, statusMap: StringMap)
    ensures forall k :: k in Fold(ExpectedEntries(ns, statusMap)) <==> exists i :: 0 <= i < |ns| && ns[i].id == k
    ensures forall i :: 0 <= i < |ns| ==>
      Fold(ExpectedEntries(ns, statusMap))[ns[i].id] == ExpectedStatus(statusMap, ns[i].id)
  {
    var es := ExpectedEntries(ns, statusMap);
    forall k
      ensures k in Fold(es) <==> exists i :: 0 <= i < |ns| && ns[i].id == k
    {
      FoldKeys(es, k);
      if k in Fold(es) {
        var i :| 0 <= i < |es| && PutsKey(es[i], k);
        assert ns[i].id == k;
      }
      if exists i :: 0 <= i < |ns| && ns[i].id == k {
        var i :| 0 <= i < |ns| && ns[i].id == k;
        assert PutsKey(es[i], k);
      }
    }
    forall i | 0 <= i < |ns|
      ensures Fold(es)[ns[i].id] == ExpectedStatus(statusMap, ns[i].id)
    {
      var k := ns[i].id;
      assert PutsKey(es[i], k);
      FoldKeys(es, k);
      FoldValues(es, k);
    }
  }

  /**
   * Round trip: importing an export gives back exactly the exported nodes'
   * ids, each with its status when that is a status key and `pending`
   * otherwise, and the project name trimmed when it is non-empty.
   */
  lemma ImportOfExport(nodes: seq<ExportNode>, statusMap: StringMap, projectName: string, today: Day)
    requires ReadableIds(nodes)
    ensures var imported := Import(ExportSheet(nodes, statusMap, projectName, today));
      && (forall k :: k in imported.statusMap <==> exists n :: n in nodes && Exported(n) && n.id == k)
      && (forall n :: n in nodes && Exported(n) ==> imported.statusMap[n.id] == ExpectedStatus(statusMap, n.id))
      && imported.projectName == (if projectName == "" then "" else Trim(projectName))
  {
    forall k
      ensures k in Import(ExportSheet(nodes, statusMap, projectName, today)).statusMap
          <==> exists n :: n in nodes && Exported(n) && n.id == k
    {
      ImportOfExportKey(nodes, statusMap, projectName, today, k);
    }
    forall n | n in nodes && Exported(n)
      ensures Import(ExportSheet(nodes, statusMap, projectName, today)).statusMap[n.id]
           == ExpectedStatus(statusMap, n.id)
    {
      ImportOfExportStatus(nodes, statusMap, projectName, today, n);
    }
    ImportedExportName(nodes, statusMap, projectName, today);
  }

  lemma ImportOfExportKey(nodes: seq<ExportNode>, statusMap: StringMap, projectName: string, today: Day, k: string)
    requires ReadableIds(nodes)
    ensures k in Import(ExportSheet(nodes, statusMap, projectName, today)).statusMap
        <==> exists n :: n in nodes && Exported(n) && n.id == k
  {
    ImportedExportMap(nodes, statusMap, projectName, today);
    FoldExpected(Eligible(nodes), statusMap);
    EligibleIds(nodes, k);
  }

  lemma ImportOfExportStatus(nodes: seq<ExportNode>, statusMap: StringMap, projectName: string, today: Day,
                             n: ExportNode)
    requires ReadableIds(nodes)
    requires n in nodes && Exported(n)
    ensures n.id in Import(ExportSheet(nodes, statusMap, projectName, today)).statusMap
    ensures Import(ExportSheet(nodes, statusMap, projectName, today)).statusMap[n.id]
         == ExpectedStatus(statusMap, n.id)
  {
    ImportedExportMap(nodes, statusMap, projectName, today);
    FoldExpected(Eligible(nodes), statusMap);
    var i := EligibleIndex(nodes, n);
  }

  /** The ids at the positions of `Eligible(nodes)` are the exported nodes' ids. */
  lemma EligibleIds(nodes: seq<ExportNode>, k: string)
    ensures (exists i :: 0 <= i < |Eligible(nodes)| && Eligible(nodes)[i].id == k)
        <==> exists n :: n in nodes && Exported(n) && n.id == k
  {
    var e := Eligible(nodes);
    if exists i :: 0 <= i < |e| && e[i].id == k {
      var i :| 0 <= i < |e| && e[i].id == k;
      assert e[i] in e;
    }
    if exists n :: n in nodes && Exported(n) && n.id == k {
      var n :| n in nodes && Exported(n) && n.id == k;
      var i := EligibleIndex(nodes, n);
    }
  }

  /** The position of an exported node in `Eligible(nodes)`. */
  lemma EligibleIndex(nodes: seq<ExportNode>, n: ExportNode) returns (i: nat)
    requires n in nodes && Exported(n)
    ensures i < |Eligible(nodes)| && Eligible(nodes)[i] == n
  {
    assert n in Eligible(nodes);
    i :| 0 <= i < |Eligible(nodes)| && Eligible(nodes)[i] == n;
  }
}
