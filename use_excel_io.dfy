/**
 * `src/hooks/useExcelIO.ts`: the export and import handlers that connect the
 * annotation store to the spreadsheet codec.  The file picker, the
 * asynchronous read and the `alert` are the boundary: the handler receives
 * whether a file was chosen and how the read ended.
 */
module UseExcelIO {
  import opened Wrappers
  import opened JsString
  import opened Storage
  import opened Types
  import opened ExcelStatus
  import opened UseNodeData

  // ---------------------------------------------------------------------
  // export
  // ---------------------------------------------------------------------

  /** `nodes.map(n => ({ id: n.id, data: n.data }))`, seen as the exporter reads it. */
  function ExportProjection(nodes: seq<FlowNode>): (r: seq<ExportNode>)
    ensures |r| == |nodes|
    ensures forall i :: 0 <= i < |nodes| ==>
      r[i].id == nodes[i].id && r[i].title == nodes[i].data.title && r[i].category == nodes[i].data.category
  {
    seq(|nodes|, i requires 0 <= i < |nodes| => ExportNode(nodes[i].id, nodes[i].data.title, nodes[i].data.category))
  }

  /** A JavaScript argument value, as far as the export call is concerned. */
  datatype Arg = NodesArg(nodes: seq<ExportNode>) | MapArg(m: StringMap) | TextArg(text: string) | Undefined

  /** The exporter's three parameters after positional binding: extra arguments are dropped. */
  datatype ExportParams = ExportParams(nodes: Arg, statusMap: Arg, projectName: Arg)

  /** The arguments the hook passes to `exportStatusToExcel`. */
  function ExportArgsAsWritten(nodes: seq<FlowNode>, statusMap: StringMap, assigneeMap: StringMap,
                               dueDateMap: StringMap, memoMap: StringMap, projectName: string): (args: seq<Arg>)
    ensures |args| == 6
  {
    [NodesArg(ExportProjection(nodes)), MapArg(statusMap), MapArg(assigneeMap), MapArg(dueDateMap),
     MapArg(memoMap), TextArg(projectName)]
  }

  /** JavaScript's binding of a call's arguments to a three-parameter function. */
  function BindExportParams(args: seq<Arg>): (p: ExportParams)
    ensures |args| >= 3 ==> p == ExportParams(args[0], args[1], args[2])
    ensures |args| < 3 ==> p.projectName == Undefined
  {
    ExportParams(if |args| > 0 then args[0] else Undefined,
                 if |args| > 1 then args[1] else Undefined,
                 if |args| > 2 then args[2] else Undefined)
  }

  /**
   * As written, the exporter's `projectName` parameter receives the assignee
   * map, and the project name (the sixth argument) never reaches the sheet.
   */
  lemma ExportCallAsWritten(nodes: seq<FlowNode>, statusMap: StringMap, assigneeMap: StringMap,
                            dueDateMap: StringMap, memoMap: StringMap, projectName: string)
    ensures var p := BindExportParams(ExportArgsAsWritten(nodes, statusMap, assigneeMap, dueDateMap, memoMap, projectName));
      && p.nodes == NodesArg(ExportProjection(nodes))
      && p.statusMap == MapArg(statusMap)
      && p.projectName == MapArg(assigneeMap)
      && p.projectName != TextArg(projectName)
  {
  }

  /**
   * `handleExport` as intended: the projected nodes, the status map and the
   * project name, in the exporter's parameter order.  The sheet written
   * carries the project name in its title row and one row per non-junction
   * node, and reading it back gives the project name (trimmed).
   */
  function HandleExport(nodes: seq<FlowNode>, statusMap: StringMap, projectName: string, today: Day): (rows: Sheet)
    ensures rows == ExportSheet(ExportProjection(nodes), statusMap, projectName, today)
    ensures rows[0] == [PROJECT_MARKER, projectName, "", ""]
    ensures |rows| == 4 + |Eligible(ExportProjection(nodes))|
    ensures Import(rows).projectName == if projectName == "" then "" else Trim(projectName)
  {
    var p := BindExportParams([NodesArg(ExportProjection(nodes)), MapArg(statusMap), TextArg(projectName)]);
    ImportedExportName(p.nodes.nodes, p.statusMap.m, p.projectName.text, today);
    ExportSheet(p.nodes.nodes, p.statusMap.m, p.projectName.text, today)
  }

  // ---------------------------------------------------------------------
  // import
  // ---------------------------------------------------------------------

  /**
   * What the hook destructures from the importer's result.  Each of the
   * three annotation maps may be absent (`undefined`).
   */
  datatype ImportRecord = ImportRecord(statusMap: StringMap, assigneeMap: Option<StringMap>,
                                       dueDateMap: Option<StringMap>, memoMap: Option<StringMap>,
                                       projectName: string)

  /**
   * The record the hook receives from `importStatusFromExcel` as written: it
   * resolves with `{ statusMap, projectName }` only, so the three other maps
   * are absent.
   */
  function RecordOfImporter(s: ImportedStatus): (r: ImportRecord)
    ensures r.statusMap == s.statusMap && r.projectName == s.projectName
    ensures r.assigneeMap.None? && r.dueDateMap.None? && r.memoMap.None?
  {
    ImportRecord(s.statusMap, None, None, None, s.projectName)
  }

  /** The `<input type="file">` whose value the handler resets. */
  class FileInput {
    var value: string

    constructor (value: string)
      ensures this.value == value
    {
      this.value := value;
    }
  }

  /**
   * The storage after a successful import of `r` stamped `ts`, `current`
   * being the cells before it.  An absent assignee or due-date map keeps the
   * current one (`newAssignee || assigneeMap`), an absent memo map becomes
   * `{}` (`newMemo || {}`).
   */
  function ImportedItems(items: map<string, Entry>, current: Snapshot, r: ImportRecord, ts: string)
    : map<string, Entry>
  {
    var saved := items[STATUS_KEY := StringifyObject(r.statusMap)]
                      [ASSIGNEE_KEY := StringifyObject(r.assigneeMap.GetOr(current.assigneeMap))]
                      [DUE_DATE_KEY := StringifyObject(r.dueDateMap.GetOr(current.dueDateMap))]
                      [MEMO_KEY := StringifyObject(r.memoMap.GetOr(map[]))];
    var named := if r.projectName != "" then saved[PROJECT_KEY := Text(r.projectName)] else saved;
    named[UPDATED_KEY := Text(ts)]
  }

  /**
   * A fresh load after a successful import finds the imported status map, the
   * imported assignee and due-date maps when present (the current ones
   * otherwise), the imported memo map or `{}`, the imported name when it is
   * non-empty (the stored one otherwise) and the new stamp.
   */
  lemma LoadedAfterImport(items: map<string, Entry>, current: Snapshot, r: ImportRecord, ts: string)
    requires ts != ""
    ensures Loaded(ImportedItems(items, current, r, ts)) ==
      Snapshot(r.statusMap, r.assigneeMap.GetOr(current.assigneeMap), r.dueDateMap.GetOr(current.dueDateMap),
               r.memoMap.GetOr(map[]),
               if r.projectName != "" then r.projectName else Loaded(items).projectName, ts)
  {
    var assignee := r.assigneeMap.GetOr(current.assigneeMap);
    var dueDate := r.dueDateMap.GetOr(current.dueDateMap);
    var i1 := items[STATUS_KEY := StringifyObject(r.statusMap)];
    LoadedAfterSaveStatus(items, r.statusMap);
    var i2 := i1[ASSIGNEE_KEY := StringifyObject(assignee)];
    LoadedAfterSaveAssignee(i1, assignee);
    var i3 := i2[DUE_DATE_KEY := StringifyObject(dueDate)];
    LoadedAfterSaveDueDate(i2, dueDate);
    var i4 := i3[MEMO_KEY := StringifyObject(r.memoMap.GetOr(map[]))];
    LoadedAfterSaveMemo(i3, r.memoMap.GetOr(map[]));
    var i5 := if r.projectName != "" then i4[PROJECT_KEY := Text(r.projectName)] else i4;
    LoadedAfterSetProject(i4, r.projectName);
    LoadedAfterStamp(i5, ts);
  }

  // ---------------------------------------------------------------------
  // the import as written
  // ---------------------------------------------------------------------

  /**
   * `saveXToStorage(m)` on a map that may be `undefined`: `JSON.stringify`
   * of `undefined` is `undefined`, which `setItem` stores as the text
   * `undefined`.
   */
  function SavedOrUndefined(m: Option<StringMap>): (e: Entry)
    ensures m.Some? ==> e == StringifyObject(m.value)
    ensures m.None? ==> e == Text("undefined") && ParseObject(e).None?
  {
    match m
    case Some(v) => StringifyObject(v)
    case None => Text("undefined")
  }

  /**
   * The storage after a successful import as written
   * (src/hooks/useExcelIO.ts:63-79): the assignee and due-date maps are set
   * and saved as received, `undefined` included.
   */
  function ImportedItemsAsWritten(items: map<string, Entry>, r: ImportRecord, ts: string): map<string, Entry> {
    var saved := items[STATUS_KEY := StringifyObject(r.statusMap)][ASSIGNEE_KEY := SavedOrUndefined(r.assigneeMap)]
                      [DUE_DATE_KEY := SavedOrUndefined(r.dueDateMap)][MEMO_KEY := StringifyObject(r.memoMap.GetOr(map[]))];
    var named := if r.projectName != "" then saved[PROJECT_KEY := Text(r.projectName)] else saved;
    named[UPDATED_KEY := Text(ts)]
  }

  /**
   * As written, every successful import of a spreadsheet sets the assignee
   * and due-date cells to `undefined` (the importer's result has no such
   * maps) and saves them as `undefined`, which a fresh load reads as `{}`:
   * whatever assignees and due dates were recorded are lost.
   */
  lemma ImportAsWrittenLosesAssignments(items: map<string, Entry>, s: ImportedStatus, ts: string)
    ensures RecordOfImporter(s).assigneeMap.None? && RecordOfImporter(s).dueDateMap.None?
    ensures Loaded(ImportedItemsAsWritten(items, RecordOfImporter(s), ts)).assigneeMap == map[]
    ensures Loaded(ImportedItemsAsWritten(items, RecordOfImporter(s), ts)).dueDateMap == map[]
  {
    var after := ImportedItemsAsWritten(items, RecordOfImporter(s), ts);
    assert after[ASSIGNEE_KEY] == Text("undefined") by { StorageKeysDistinct(); }
    assert after[DUE_DATE_KEY] == Text("undefined") by { StorageKeysDistinct(); }
  }

  /**
   * A concrete case: a recorded assignee for `n1`, then an import of any
   * sheet; as written the assignee is gone after a reload, while the
   * corrected handler keeps it.
   */
  lemma ImportAsWrittenExample(rows: Sheet, ts: string)
    requires ts != ""
    ensures var items := map[ASSIGNEE_KEY := StringifyObject(map["n1" := "宮崎"])];
      && Loaded(items).assigneeMap == map["n1" := "宮崎"]
      && Loaded(ImportedItemsAsWritten(items, RecordOfImporter(Import(rows)), ts)).assigneeMap == map[]
      && Loaded(ImportedItems(items, Loaded(items), RecordOfImporter(Import(rows)), ts)).assigneeMap
         == map["n1" := "宮崎"]
  {
    var items := map[ASSIGNEE_KEY := StringifyObject(map["n1" := "宮崎"])];
    ImportAsWrittenLosesAssignments(items, Import(rows), ts);
    LoadedAfterImport(items, Loaded(items), RecordOfImporter(Import(rows)), ts);
  }

  /** The corrected import keeps the recorded assignees and due dates when the sheet carries none. */
  lemma CorrectedImportKeepsAssignments(items: map<string, Entry>, s: ImportedStatus, ts: string)
    requires ts != ""
    ensures Loaded(ImportedItems(items, Loaded(items), RecordOfImporter(s), ts)).assigneeMap
         == Loaded(items).assigneeMap
    ensures Loaded(ImportedItems(items, Loaded(items), RecordOfImporter(s), ts)).dueDateMap
         == Loaded(items).dueDateMap
  {
    LoadedAfterImport(items, Loaded(items), RecordOfImporter(s), ts);
  }

  /**
   * `handleImport`.  With no file chosen nothing happens.  Otherwise, when
   * the read succeeds the status map is replaced by the imported one (not
   * merged), the assignee and due-date maps by the imported ones when present
   * (kept otherwise: the corrected behaviour), the memo map by the imported
   * one or `{}`, the project name only by a non-empty imported name, each is
   * saved, and the stamp is refreshed;
   * when it fails no cell and no storage entry changes.  Either way the file
   * input is cleared.
   */
  method HandleImport(data: NodeDataStore, input: FileInput, fileChosen: bool, outcome: Result<ImportRecord>,
                      now: DateTime)
    modifies data, data.store, input
    ensures !fileChosen ==> data.State() == old(data.State()) && data.store.items == old(data.store.items)
                            && input.value == old(input.value)
    ensures fileChosen && outcome.Err? ==>
      data.State() == old(data.State()) && data.store.items == old(data.store.items)
    ensures fileChosen && outcome.Ok? ==>
      var r := outcome.value;
      && data.State() == Snapshot(r.statusMap, r.assigneeMap.GetOr(old(data.assigneeMap)),
                                  r.dueDateMap.GetOr(old(data.dueDateMap)), r.memoMap.GetOr(map[]),
                                  if r.projectName != "" then r.projectName else old(data.projectName),
                                  Timestamp(now))
      && data.store.items == ImportedItems(old(data.store.items), old(data.State()), r, Timestamp(now))
    ensures fileChosen ==> input.value == ""
    ensures old(data.Synced()) ==> data.Synced()
  {
    if outcome.Ok? {
      LoadedAfterImport(data.store.items, data.State(), outcome.value, Timestamp(now));
    }
    if !fileChosen {
      return;
    }
    match outcome {
      case Ok(r) => ApplyImport(data, r, now);
      case Err(_) =>
    }
    input.value := "";
  }

  /** The `try` block of `handleImport` once the importer has resolved with `r`. */
  method ApplyImport(data: NodeDataStore, r: ImportRecord, now: DateTime)
    modifies data, data.store
    ensures data.State() == Snapshot(r.statusMap, r.assigneeMap.GetOr(old(data.assigneeMap)),
                                     r.dueDateMap.GetOr(old(data.dueDateMap)), r.memoMap.GetOr(map[]),
                                     if r.projectName != "" then r.projectName else old(data.projectName),
                                     Timestamp(now))
    ensures data.store.items == ImportedItems(old(data.store.items), old(data.State()), r, Timestamp(now))
  {
    ghost var name0 := data.projectName;
    var assignee := r.assigneeMap.GetOr(data.assigneeMap);
    var dueDate := r.dueDateMap.GetOr(data.dueDateMap);
    var memo := r.memoMap.GetOr(map[]);
    data.ReplaceMaps(r.statusMap, assignee, dueDate, memo);
    ghost var saved := data.store.items;
    ghost var maps := data.State();
    assert maps == Snapshot(r.statusMap, assignee, dueDate, memo, name0, maps.lastUpdated);
    if r.projectName != "" {
      data.HandleProjectNameChange(r.projectName);
      data.store.SetItem(PROJECT_KEY, Text(r.projectName));
      assert data.store.items == saved[PROJECT_KEY := Text(r.projectName)];
      assert data.State() == maps.(projectName := r.projectName);
    }
    ghost var named := data.State();
    assert named == maps.(projectName := if r.projectName != "" then r.projectName else name0);
    assert data.store.items == if r.projectName != "" then saved[PROJECT_KEY := Text(r.projectName)] else saved;
    data.UpdateTimestamp(now);
    assert data.State() == named.(lastUpdated := Timestamp(now));
  }
}
