# heliosflow — a verified model of the workflow viewer's core

heliosflow shows the steps of a solar-plant project as a graph. A static
`data.json` holds the graph's nodes and edges. The user keeps, per node, a
status, an assignee, a due date and a memo. These live in the browser's
`localStorage`, and the status map can be exported to a spreadsheet and
imported back. The web application is a React front end. A separate Python
script (`transform_data.py`) builds its graph file from the node
definition table.

This project models that core in Dafny. There is one module per source file:

| module | source file | what it models |
|---|---|---|
| `Constants` | `src/constants.ts` | the status, category-colour, category-label and assignee tables, and the `x[k] \|\| fallback` lookups built on them |
| `ExcelStatus` | `src/utils/excelStatus.ts` | persistence of the maps in storage, `labelToKey`, the export sheet, the import decoding, and the export/import round trip |
| `UseNodeData` | `src/hooks/useNodeData.ts` | the annotation store, as a class whose fields are the hook's six state cells; every handler writes storage |
| `UseExcelIO` | `src/hooks/useExcelIO.ts` | the export call and the import handler over the store |
| `MultiSelectAssignee` | `src/components/MultiSelectAssignee.tsx` | the comma-separated assignee list: parse, toggle, join |
| `App` | `src/App.tsx` | the load step with its duplicate-id check; the search/category filter; the favourites and theme state as a class over storage |
| `FlowView` | `src/components/FlowView.tsx` | the overlay that adds `isFav`/`nodeStatus`, and the junction click guard |
| `CustomNode` | `src/components/CustomNode.tsx` | how a card derives grayed, in-progress, its badge and its star |
| `ListView` | `src/pages/ListView.tsx` | the task count and the table rows |
| `NodeDetailModal` | `src/components/NodeDetailModal.tsx` | the status buttons, the field defaults, the due-date text and the favourite button |
| `TransformData` | `transform_data.py` | the node/edge generation loop, as a method proved against a fold |

Four helper modules support them:

- `Wrappers` holds `Option` and `Result`.
- `JsString` holds the JavaScript string built-ins the code relies on: `trim`, `split`, `join`, `includes`, `padStart`, `String(n)`, and ASCII `toLowerCase`.
- `Storage` holds `localStorage` as a class over a key/entry map, with the `JSON.stringify`/`JSON.parse` round trip.
- `Types` holds the node records of `src/types.ts`.

Clocks are parameters. `new Date()` becomes a `Day` or a `DateTime` argument. A file read becomes a parameter saying whether a file was chosen and how the read ended.

Two behaviours of the importer are easy to miss, and the model follows the code in both:

- The importer does not report a missing `ID` header. It falls back to row 3 (src/utils/excelStatus.ts:104-105).
- An unknown status label imports as `pending` (src/utils/excelStatus.ts:34). The row is not dropped.

## Model

| member | source | states |
|---|---|---|
| Constants.StatusKeys | src/constants.ts:39-44 | the status table has exactly the keys pending, inProgress, completed, notApplicable, listed once each in declaration order |
| Constants.StatusLabelsDistinct | src/constants.ts:39-44 | status labels are non-empty and pairwise distinct, so a label names at most one status |
| Constants.PendingLabel | src/constants.ts:40 | pending's label is 未着手, the literal the export falls back to |
| Constants.CategoryTables | src/constants.ts:4-36 | every coloured category has a label; junction is the only labelled category without a colour; default has a colour; labels are non-empty |
| Constants.AssigneesWellFormed | src/constants.ts:50 | the assignee suggestions are distinct, non-empty and comma-free, so they survive the comma-joined list |
| Constants.CategoryCaption | src/components/CustomNode.tsx:62 | the category's label when it has one, the raw category otherwise |
| Constants.CategoryColor | src/components/CustomNode.tsx:8 | the category's colour when it has one, the default colour otherwise; never empty |
| Constants.StatusOrPending | src/components/FlowView.tsx:24 | the recorded status when it is non-empty, pending otherwise |
| Storage.ParseObject | src/utils/excelStatus.ts:13-20 | parsing succeeds exactly on a JSON object entry and returns its fields |
| Storage.ParseArray | src/App.tsx:29 | `JSON.parse(saved)` for the favourites: it succeeds exactly on a JSON array entry and returns that array (other JSON: see "## Left out") |
| Storage.StringifyObject | src/utils/excelStatus.ts:25-27 | the stored entry is truthy and parses back to the same map |
| Storage.StringifyArray | src/App.tsx:151 | the stored favourites entry is truthy and parses back to the same list |
| Storage.TextOr | src/hooks/useNodeData.ts:28-35 | `getItem(key) \|\| default`: the stored text when it is non-empty, the default when it is absent or empty |
| Storage.LocalStorage.GetItem | src/hooks/useNodeData.ts:29 | `null` exactly when the key is absent, the stored entry otherwise |
| Storage.LocalStorage.SetItem | src/hooks/useNodeData.ts:85 | the key now holds the value and no other key changes |
| Storage.LocalStorage.RemoveItem | src/hooks/useNodeData.ts:100 | the key is gone and no other key changes |
| JsString.TrimStartRemovesOnlyWhitespace | src/utils/excelStatus.ts:110-111 | `trim` drops only JavaScript whitespace from the front |
| JsString.TrimEndRemovesOnlyWhitespace | src/utils/excelStatus.ts:110-111 | `trim` drops only JavaScript whitespace from the back |
| JsString.Trim | src/utils/excelStatus.ts:110-111 | `trim`: whitespace dropped from the front, then from the back (its properties are the lemmas around it) |
| JsString.TrimmedFixpoint | src/utils/excelStatus.ts:110-111 | a trimmed string is its own trim, and trimming twice is trimming once |
| JsString.SplitJoin | src/components/MultiSelectAssignee.tsx:17-37 | splitting the join of separator-free parts gives back the parts |
| JsString.JoinSplit | src/components/MultiSelectAssignee.tsx:17-37 | joining the split of a string gives back the string |
| JsString.Split | src/components/MultiSelectAssignee.tsx:17 | `split(sep)`: at least one part, and no part contains the separator |
| JsString.Join | src/components/MultiSelectAssignee.tsx:37 | `join(sep)`: the parts in order with the separator between them; undone by Split (JsString.SplitJoin) |
| JsString.Contains | src/App.tsx:131-132 | `includes` holds exactly when the substring occurs at some position |
| JsString.ToLowerAscii | src/App.tsx:131-132 | `toLowerCase` keeps the length and maps each character on its own |
| JsString.NatToString | src/utils/excelStatus.ts:139 | `String(n)` is a non-empty digit string without a leading zero |
| JsString.DecimalValueOfNatToString | src/components/NodeDetailModal.tsx:135 | `Number(String(n)) == n` |
| JsString.PadStartZeros | src/utils/excelStatus.ts:139 | `padStart(w, '0')`: at least w long, the original at the end, zeros before it |
| JsString.Pad2 | src/utils/excelStatus.ts:139 | below 100 the result is two digits, and it reads back as the number |
| Types.NonJunction | src/pages/ListView.tsx:15 | the junction filter keeps exactly the non-junction nodes |
| Types.NonJunctionLength | src/pages/ListView.tsx:15 | the filtered list's length is the number of task nodes |
| ExcelStatus.LoadMap | src/utils/excelStatus.ts:13-20 | `{}` when the entry is missing, empty or does not parse as an object; the stored map otherwise |
| ExcelStatus.SaveMap | src/utils/excelStatus.ts:25-27 | the one storage key is rewritten, and loading it gives back the saved map |
| ExcelStatus.SaveThenLoad | src/utils/excelStatus.ts:13-27 | save then load is the identity, and loading any other key is unaffected by the save |
| ExcelStatus.FindKeyByLabel | src/utils/excelStatus.ts:33 | the `find` returns a key with that label, or none when no key has it |
| ExcelStatus.LabelToKey | src/utils/excelStatus.ts:32-35 | the result is always a status key |
| ExcelStatus.LabelToKeySpec | src/utils/excelStatus.ts:32-35 | a label of some status maps to a status with that label; any other text maps to pending |
| ExcelStatus.LabelToKeyOfCaption | src/utils/excelStatus.ts:32-35 | labelToKey undoes key to label on the four keys |
| ExcelStatus.FormatDateDisplay | src/utils/excelStatus.ts:137-140 | `YYYY/MM/DD`: the year, then month and day padded to two digits, slash-separated |
| ExcelStatus.FormatDate | src/utils/excelStatus.ts:129-132 | `YYYYMMDD`: the year, then month and day padded to two digits |
| ExcelStatus.FormatDateLayout | src/utils/excelStatus.ts:129-132 | for a four-digit year: eight digits, and the fields read back as year, month, day |
| ExcelStatus.ExportFileName | src/utils/excelStatus.ts:78 | the download name `heliosflow_status_<date>.xlsx` |
| ExcelStatus.ExportFileNameLayout | src/utils/excelStatus.ts:78 | for a four-digit year: 31 characters, the fixed prefix and suffix, and the eight date digits reading back as the day |
| ExcelStatus.FormatDateDisplayLayout | src/utils/excelStatus.ts:137-140 | for a four-digit year: ten characters, slashes at 4 and 7, and each field reads back as year, month, day |
| ExcelStatus.Eligible | src/utils/excelStatus.ts:55-56 | the export keeps exactly the non-junction nodes |
| ExcelStatus.EligibleAppend | src/utils/excelStatus.ts:55-56 | the filter keeps input order (it distributes over concatenation) |
| ExcelStatus.StatusCell | src/utils/excelStatus.ts:61 | the label of the recorded status when that is a status key, 未着手 otherwise |
| ExcelStatus.DataRow | src/utils/excelStatus.ts:57-62 | one node's four cells: id, label, the category's caption, the status cell |
| ExcelStatus.DataRows | src/utils/excelStatus.ts:55-62 | one row per non-junction node, in order: id, title, category label, status label |
| ExcelStatus.ExportSheet | src/utils/excelStatus.ts:46-65 | project-name row, date row, empty row, header, then the data rows |
| ExcelStatus.Cell | src/utils/excelStatus.ts:109 | a present cell is its value; a missing cell is empty |
| ExcelStatus.ImportedProjectName | src/utils/excelStatus.ts:97-100 | the trimmed B1 cell when A1 is 案件名 and B1 is non-empty; `''` otherwise |
| ExcelStatus.FindHeader | src/utils/excelStatus.ts:104 | `findIndex`: the first header row from the start row on, or none when there is none |
| ExcelStatus.IsHeaderRow | src/utils/excelStatus.ts:104 | a row after the first whose column 0 is `ID` |
| ExcelStatus.DataStart | src/utils/excelStatus.ts:104-105 | one past the first `ID` row after row 0; row 3 when no such row exists |
| ExcelStatus.EntryOf | src/utils/excelStatus.ts:109-112 | a row contributes exactly when its id and status cells are non-empty, and always with a status key |
| ExcelStatus.Counts | src/utils/excelStatus.ts:109 | `row && row[0] && row[3]`: columns 0 and 3 are non-empty |
| ExcelStatus.Entries | src/utils/excelStatus.ts:107-114 | one entry per scanned row, every status a status key |
| ExcelStatus.EntriesAt | src/utils/excelStatus.ts:107-114 | the entry at each position is that row's entry |
| ExcelStatus.FoldEntriesStep | src/utils/excelStatus.ts:107-114 | one more loop iteration is one more entry applied to the map |
| ExcelStatus.Fold | src/utils/excelStatus.ts:107-114 | the status map the loop leaves: the entries applied in order, a later id overwriting an earlier one (FoldKeys, FoldLastWins, FoldValues) |
| ExcelStatus.DecodeStatusRows | src/utils/excelStatus.ts:107-114 | the loop computes the fold of the rows' entries from startIdx on |
| ExcelStatus.Import | src/utils/excelStatus.ts:97-116 | the importer's result as one value: the fold of the data rows' entries and the project name |
| ExcelStatus.ImportStatusFromRows | src/utils/excelStatus.ts:97-116 | the resolved value is the trimmed project name and the fold of the data rows |
| ExcelStatus.FoldKeys | src/utils/excelStatus.ts:107-114 | a key is in the imported map exactly when some row puts it |
| ExcelStatus.FoldLastWins | src/utils/excelStatus.ts:107-114 | the value for a key is the one from the last row that puts it |
| ExcelStatus.FoldValues | src/utils/excelStatus.ts:107-114 | every imported value is the status some row put for that key |
| ExcelStatus.ImportLastRowWins | src/utils/excelStatus.ts:107-114 | of several rows with one id, the import keeps the last one's status |
| ExcelStatus.DecodedStatusesAreKeys | src/utils/excelStatus.ts:107-114 | every imported status is one of the four status keys |
| ExcelStatus.ExpectedStatus | src/utils/excelStatus.ts:61 | the status a round trip yields: the recorded one when it is a key, pending otherwise |
| ExcelStatus.StatusCellDecodes | src/utils/excelStatus.ts:61 | an exported status cell is non-empty, and its label decodes to the expected status |
| ExcelStatus.StatusCellIsCaption | src/utils/excelStatus.ts:61 | the status cell is the label of the expected status |
| ExcelStatus.CaptionTrimmed | src/constants.ts:39-44 | status labels are non-empty and have no surrounding whitespace |
| ExcelStatus.ExportedHeaderAt3 | src/utils/excelStatus.ts:104-105 | on an exported sheet, the import starts reading at row 4 |
| ExcelStatus.ExpectedEntries | src/utils/excelStatus.ts:55-62 | one entry per exported node: its id and its expected status |
| ExcelStatus.EntriesOfDataRows | src/utils/excelStatus.ts:107-114 | rows decoding one by one to expected entries decode as a whole to the expected list |
| ExcelStatus.ExportEntries | src/utils/excelStatus.ts:55-112 | an export's data rows decode to the eligible nodes' expected entries |
| ExcelStatus.ExportRowEntry | src/utils/excelStatus.ts:55-112 | data row j of an export decodes to eligible node j's id and expected status |
| ExcelStatus.RowEntryOf | src/utils/excelStatus.ts:57-112 | the row of a node with a non-empty trimmed id decodes to that id and its expected status |
| ExcelStatus.ImportedExportMap | src/utils/excelStatus.ts:40-116 | the status map imported from an export is the fold of the expected entries |
| ExcelStatus.ImportedExportName | src/utils/excelStatus.ts:46-100 | the project name imported from an export is the exported name, trimmed |
| ExcelStatus.FoldExpected | src/utils/excelStatus.ts:107-114 | folding expected entries gives each listed id, and only those, its expected status |
| ExcelStatus.ImportOfExport | src/utils/excelStatus.ts:40-116 | round trip: import(export) has exactly the exported ids, each with its expected status, and the trimmed project name |
| ExcelStatus.ImportOfExportKey | src/utils/excelStatus.ts:40-116 | an id is imported from an export exactly when it is a non-junction node's id |
| ExcelStatus.ImportOfExportStatus | src/utils/excelStatus.ts:40-116 | each exported node comes back with its expected status |
| ExcelStatus.EligibleIds | src/utils/excelStatus.ts:55-56 | the ids in the filtered list are exactly the non-junction nodes' ids |
| ExcelStatus.EligibleIndex | src/utils/excelStatus.ts:55-56 | every non-junction node occurs in the filtered list |
| UseNodeData.Timestamp | src/hooks/useNodeData.ts:40 | the stamp is never empty, so writing it is always visible |
| UseNodeData.TimestampLayout | src/hooks/useNodeData.ts:40 | `YYYY/MM/DD HH:mm`: sixteen characters with separators in place, each field reading back as the clock's value |
| UseNodeData.Loaded | src/hooks/useNodeData.ts:16-35 | the six initial cells: the four maps by their loaders, the name and the stamp by `getItem(key) \|\| ''` |
| UseNodeData.Cleared | src/hooks/useNodeData.ts:89-101 | the storage after clearing: the four map keys hold `{}`, the name key holds the empty text, the stamp key is removed |
| UseNodeData.ClearedLoadsEmpty | src/hooks/useNodeData.ts:89-101 | after clearing, the four maps load empty, the name is empty, the stamp is gone, and other keys are untouched |
| UseNodeData.LoadedCleared | src/hooks/useNodeData.ts:89-101 | a fresh load after clearing finds every cell empty |
| UseNodeData.StorageKeysDistinct | src/hooks/useNodeData.ts:28-35 | the six storage keys are pairwise distinct |
| UseNodeData.LoadedAfterSaveStatus | src/hooks/useNodeData.ts:47-54 | saving the status map changes only the status cell of a fresh load |
| UseNodeData.LoadedAfterSaveAssignee | src/hooks/useNodeData.ts:56-63 | saving the assignee map changes only the assignee cell |
| UseNodeData.LoadedAfterSaveDueDate | src/hooks/useNodeData.ts:65-72 | saving the due-date map changes only the due-date cell |
| UseNodeData.LoadedAfterSaveMemo | src/hooks/useNodeData.ts:74-81 | saving the memo map changes only the memo cell |
| UseNodeData.LoadedAfterSetProject | src/hooks/useNodeData.ts:83-86 | writing the project name changes only the project cell |
| UseNodeData.LoadedAfterStamp | src/hooks/useNodeData.ts:38-43 | writing a non-empty stamp, or removing it, changes only the last-updated cell |
| UseNodeData.NodeDataStore.constructor | src/hooks/useNodeData.ts:16-35 | each cell starts from its loader or stored text, so the store starts in sync with storage |
| UseNodeData.NodeDataStore.UpdateTimestamp | src/hooks/useNodeData.ts:38-43 | the stamp is set in memory and in storage, nothing else changes, and sync is kept |
| UseNodeData.NodeDataStore.HandleStatusChange | src/hooks/useNodeData.ts:47-54 | one key of the status map, saved, then stamped; other cells unchanged; sync kept |
| UseNodeData.NodeDataStore.HandleAssigneeChange | src/hooks/useNodeData.ts:56-63 | one key of the assignee map, saved, then stamped; other cells unchanged; sync kept |
| UseNodeData.NodeDataStore.HandleDueDateChange | src/hooks/useNodeData.ts:65-72 | one key of the due-date map, saved, then stamped; other cells unchanged; sync kept |
| UseNodeData.NodeDataStore.HandleMemoChange | src/hooks/useNodeData.ts:74-81 | one key of the memo map, saved, then stamped; other cells unchanged; sync kept |
| UseNodeData.NodeDataStore.HandleProjectNameChange | src/hooks/useNodeData.ts:83-86 | the name in memory and in storage; the stamp is left alone; sync kept |
| UseNodeData.NodeDataStore.ReplaceMaps | src/hooks/useNodeData.ts:90-97 | the four maps replaced and saved under their keys; name and stamp kept |
| UseNodeData.NodeDataStore.ClearAllData | src/hooks/useNodeData.ts:89-101 | every cell emptied, storage cleared as described, the store in sync |
| UseExcelIO.ExportProjection | src/hooks/useExcelIO.ts:40 | one export record per node, with its id, label and category |
| UseExcelIO.ExportArgsAsWritten | src/hooks/useExcelIO.ts:39-46 | the hook passes six arguments |
| UseExcelIO.BindExportParams | src/utils/excelStatus.ts:40-44 | JavaScript binds the first three arguments to the three parameters; a missing one is undefined |
| UseExcelIO.ExportCallAsWritten | src/hooks/useExcelIO.ts:38-47 | as written, the exporter's projectName parameter receives the assignee map, not the project name |
| UseExcelIO.HandleExport | src/hooks/useExcelIO.ts:38-47 | the intended export: the title row carries the project name, one row per task, and the name reads back trimmed |
| UseExcelIO.RecordOfImporter | src/utils/excelStatus.ts:116 | the importer hands the hook its status map and project name, and no assignee, due-date or memo map |
| UseExcelIO.ImportedItems | src/hooks/useExcelIO.ts:63-79 | the storage after the corrected import: status map saved; assignee and due-date maps saved, the current ones when absent; memo map or `{}` saved; name only when non-empty; then the stamp |
| UseExcelIO.LoadedAfterImport | src/hooks/useExcelIO.ts:63-79 | after the corrected import, a fresh load finds the imported status map, the imported assignee and due-date maps (the current ones when absent), the memo map or `{}`, the new name if non-empty (else the stored one) and the new stamp |
| UseExcelIO.SavedOrUndefined | src/hooks/useExcelIO.ts:67 | saving a map stores its JSON; saving `undefined` stores the text `undefined`, which does not parse |
| UseExcelIO.ImportedItemsAsWritten | src/hooks/useExcelIO.ts:63-79 | the storage after an import as written: the assignee and due-date maps are saved as received, `undefined` included |
| UseExcelIO.ImportAsWrittenLosesAssignments | src/hooks/useExcelIO.ts:66-70 | as written, any import leaves the assignee and due-date cells `undefined`, and a fresh load finds both maps empty |
| UseExcelIO.ImportAsWrittenExample | src/hooks/useExcelIO.ts:66-70 | a recorded assignee is lost by the import as written and kept by the corrected one |
| UseExcelIO.CorrectedImportKeepsAssignments | src/hooks/useExcelIO.ts:66-70 | the corrected import keeps the recorded assignees and due dates when the sheet carries none |
| UseExcelIO.HandleImport | src/hooks/useExcelIO.ts:50-87 | no file: no change. Read fails: no cell or entry changes. Read succeeds: the status map is replaced (not merged), the assignee and due-date maps are replaced when present and kept when absent (corrected), the memo map becomes the imported one or `{}`, the name is replaced only by a non-empty one, and the stamp is refreshed. The input is cleared once a file was chosen; sync kept |
| UseExcelIO.ApplyImport | src/hooks/useExcelIO.ts:63-79 | the successful branch's new state and storage, as in HandleImport |
| MultiSelectAssignee.FilterNonEmpty | src/components/MultiSelectAssignee.tsx:17 | `filter(Boolean)` keeps exactly the non-empty strings |
| MultiSelectAssignee.SelectedList | src/components/MultiSelectAssignee.tsx:17 | an empty cell selects nothing; every parsed name is non-empty and comma-free |
| MultiSelectAssignee.Remove | src/components/MultiSelectAssignee.tsx:33 | every occurrence of the name goes, and nothing else does |
| MultiSelectAssignee.Toggle | src/components/MultiSelectAssignee.tsx:32-35 | a present name is removed; an absent one is appended |
| MultiSelectAssignee.ToggleAssignee | src/components/MultiSelectAssignee.tsx:30-38 | the string handed to `onChange`: the toggled list joined with commas |
| MultiSelectAssignee.IsSelected | src/components/MultiSelectAssignee.tsx:65 | an option is checked when its name is in the parsed list |
| MultiSelectAssignee.FilterNonEmptyIdentity | src/components/MultiSelectAssignee.tsx:17 | filtering a list without empty strings changes nothing |
| MultiSelectAssignee.JoinThenParse | src/components/MultiSelectAssignee.tsx:17-37 | parsing the join of valid names gives back those names |
| MultiSelectAssignee.RemoveAbsent | src/components/MultiSelectAssignee.tsx:33 | removing an absent name changes nothing |
| MultiSelectAssignee.RemoveAppended | src/components/MultiSelectAssignee.tsx:33-35 | removing a name that was just appended undoes the append |
| MultiSelectAssignee.ToggleAbsent | src/components/MultiSelectAssignee.tsx:30-38 | toggling an unselected name appends it after the current selection |
| MultiSelectAssignee.TogglePresent | src/components/MultiSelectAssignee.tsx:30-38 | toggling a selected name removes every occurrence and keeps the others in order |
| MultiSelectAssignee.ToggleTwice | src/components/MultiSelectAssignee.tsx:30-38 | toggling a name on and then off restores the selection |
| MultiSelectAssignee.ToggleFlips | src/components/MultiSelectAssignee.tsx:30-65 | a click flips that option's check mark and keeps every other option's |
| App.IdSet | src/App.tsx:83 | the set holds exactly the ids of the nodes |
| App.IdSetSize | src/App.tsx:83-84 | the set is at most as large as the list, and exactly as large iff no id repeats |
| App.ConvertNode | src/App.tsx:86-103 | id, position and fields copied; missing lists read as empty; type custom; junctions 12×12, others 200×80 |
| App.LoadNodes | src/App.tsx:83-103 | an error exactly when ids repeat; otherwise one converted node per input node, in order |
| App.MatchesSearch | src/App.tsx:131-132 | the lower-cased term occurs in the lower-cased label or id |
| App.MatchesCategory | src/App.tsx:134-139 | favorites: the id is a favourite; a category other than all: the node has it; all: every node |
| App.FilterNodes | src/App.tsx:128-143 | keeps exactly the nodes that match both the search and the category |
| App.FilterNodesAppend | src/App.tsx:128-143 | the filter distributes over concatenation |
| App.FilterNodesSubsequence | src/App.tsx:128-143 | the filtered list is an order-preserving subsequence of the nodes |
| App.EmptyTermMatches | src/App.tsx:131-132 | the empty search term matches every node |
| App.FilterAllKeepsEverything | src/App.tsx:128-143 | with no term and category all, every node is kept, in order |
| App.FilterByCategory | src/App.tsx:134-139 | with no term: favorites keeps exactly the favourites, and a category keeps exactly that category |
| App.LoadFavorites | src/App.tsx:27-30 | `[]` when nothing is stored; the parsed list otherwise, `None` when it does not parse |
| App.NextTheme | src/App.tsx:42-44 | dark becomes light; anything else becomes dark |
| App.NextThemeInvolution | src/App.tsx:42-44 | two toggles restore dark or light; any theme settles after one toggle |
| App.AppState.constructor | src/App.tsx:27-40 | favourites from storage, theme from storage or dark, and the theme written back |
| App.AppState.ToggleFav | src/App.tsx:147-153 | the id removed if present, appended if absent; the list persisted and read back unchanged |
| App.AppState.ToggleTheme | src/App.tsx:37-44 | the next theme, persisted and read back unchanged; favourites kept |
| FlowView.WithState | src/components/FlowView.tsx:18-26 | render type junction or custom by category; isFav and nodeStatus set; all else kept |
| FlowView.NodesWithState | src/components/FlowView.tsx:17-27 | the overlay is applied to every node, in order |
| FlowView.ForwardedClick | src/components/FlowView.tsx:35-37 | a click is forwarded exactly when the node does not render as a junction |
| FlowView.OverlayIdempotent | src/components/FlowView.tsx:17-27 | applying the overlay twice is applying it once |
| FlowView.OverlayKeepsTaskCount | src/components/FlowView.tsx:17-27 | the overlay keeps the number of task nodes |
| FlowView.ClickReachesPage | src/components/FlowView.tsx:17-37 | a click on a rendered node reaches the page iff the source node is a task, and it carries that node's id |
| CustomNode.IsGrayed | src/components/CustomNode.tsx:16 | the status is completed or notApplicable |
| CustomNode.IsInProgress | src/components/CustomNode.tsx:19 | the status key is inProgress |
| CustomNode.StarFilled | src/components/CustomNode.tsx:52 | the star is filled when isFav is true; an absent flag leaves it empty |
| CustomNode.StatusKey | src/components/CustomNode.tsx:17 | nodeStatus when it is non-empty, pending otherwise; never empty |
| CustomNode.Status | src/components/CustomNode.tsx:18 | the badge of the key when it is known, pending's badge otherwise |
| CustomNode.GrayedExcludesInProgress | src/components/CustomNode.tsx:16-19 | a card is never both grayed and in progress |
| CustomNode.GrayedBadge | src/components/CustomNode.tsx:16-18 | a grayed card shows its own status badge, never pending's |
| CustomNode.CardOfOverlay | src/components/CustomNode.tsx:16-52 | on an overlaid node: the status key, grayed, in progress and star all follow the status map and the favourites |
| ListView.TaskCount | src/pages/ListView.tsx:15 | the heading counts the non-junction nodes |
| ListView.FirstTwo | src/pages/ListView.tsx:82 | a prefix of the tags, of length min(n, 2) |
| ListView.RowOf | src/pages/ListView.tsx:39-82 | a row shows the star iff favourite, and the id, title, description, colour, category label, status badge, and the tags `slice(0, 2)` (ListView.FirstTwo) |
| ListView.Rows | src/pages/ListView.tsx:39-43 | renders iff every task's status is a table key; then one row per task, in order |
| ListView.RendersGivesKnown | src/pages/ListView.tsx:39-43 | when every node renders, every task's status is known |
| ListView.CountMatchesRows | src/pages/ListView.tsx:15-43 | the heading's count equals the number of rows |
| ListView.KnownStatusesRender | src/pages/ListView.tsx:43 | if every recorded status is a table key, the table renders |
| NodeDetailModal.StatusButtons | src/components/NodeDetailModal.tsx:89-90 | one button per status in table order; active iff the key is the node's status or pending |
| NodeDetailModal.AtMostOneActive | src/components/NodeDetailModal.tsx:89-90 | no two buttons are active |
| NodeDetailModal.SomeActiveIffKnown | src/components/NodeDetailModal.tsx:89-90 | some button is active iff the node's status is a table key |
| NodeDetailModal.ClickStatus | src/components/NodeDetailModal.tsx:94 | a click reports the node's id and the button's key |
| NodeDetailModal.ClickActivates | src/components/NodeDetailModal.tsx:89-94 | after the reported change, exactly the clicked button is active |
| NodeDetailModal.FieldOr | src/components/NodeDetailModal.tsx:114 | the recorded value, or `''` when there is none |
| NodeDetailModal.NoAssigneeSelectsNothing | src/components/NodeDetailModal.tsx:114 | with no recorded assignee, no option is checked |
| NodeDetailModal.DescriptionText | src/components/NodeDetailModal.tsx:178 | the description, or the placeholder when it is empty; never empty |
| NodeDetailModal.NumberOf | src/components/NodeDetailModal.tsx:135 | a whole number exactly when the trimmed text is all digits, and then its decimal value, exact in the model (see "## Left out" for more than 15 digits) |
| NodeDetailModal.PartText | src/components/NodeDetailModal.tsx:135-138 | a missing part prints as undefined; an unmodelled value gives none |
| NodeDetailModal.DateText | src/components/NodeDetailModal.tsx:135-138 | a formatted date always contains a slash |
| NodeDetailModal.DueDateText | src/components/NodeDetailModal.tsx:131-138 | 未設定 iff no date is recorded; the formatted date otherwise |
| NodeDetailModal.DateTextOfDigits | src/components/NodeDetailModal.tsx:135-138 | Y-M-D with digit fields shows as Y/MM/DD |
| NodeDetailModal.DateInputDisplaysAsExport | src/components/NodeDetailModal.tsx:131-146 | the date input's YYYY-MM-DD value displays as the export writes that day |
| NodeDetailModal.IsFavorite | src/components/NodeDetailModal.tsx:43 | the node's id is in the favourites |
| NodeDetailModal.FavoriteCaption | src/components/NodeDetailModal.tsx:231 | お気に入り済み iff favourite, お気に入りに追加 otherwise |
| NodeDetailModal.FavoriteButtonFlips | src/components/NodeDetailModal.tsx:222 | pressing the button flips whether the node is a favourite |
| TransformData.TypeCategory | transform_data.py:92-97 | the first of 契約, 手配, 検査, 届出 in the type decides; default otherwise |
| TransformData.CategoryMapValues | transform_data.py:65-86 | no phase maps to default, and every mapped category has a colour |
| TransformData.CategoryOf | transform_data.py:88-97 | the phase table's entry when there is one, the type cascade otherwise |
| TransformData.CategoryIsKnown | transform_data.py:65-97 | every category produced has a colour and a label in the web tables, and none is junction |
| TransformData.TitleOf | transform_data.py:101 | the title when it is non-empty, Untitled otherwise |
| TransformData.WebNodeOf | transform_data.py:99-115 | id, title, notes, category and tags `[type, phase]`; next empty |
| TransformData.EdgeId | transform_data.py:120 | `e-` then the source id, a dash, then the target id |
| TransformData.IdsOf | transform_data.py:44 | the keys of `node_map`: the ids of the table's nodes |
| TransformData.Linked | transform_data.py:118-119 | `next_id and next_id in node_map`: nextMain is present, non-empty and a table id |
| TransformData.EdgeIdsCanCollide | transform_data.py:118-132 | on the table `x -> x-x`, `x-x -> x` both links are valid and share the id `e-x-x-x`; the output has the first edge only, and the second node's next is empty |
| TransformData.Step | transform_data.py:99-134 | one iteration: the node's web node is appended; when its link is valid and its edge id is new, the edge is appended, the id recorded and the target put in next |
| TransformData.Build | transform_data.py:39-134 | the loop over the nodes in order, starting from empty lists and an empty id set |
| TransformData.Transform | transform_data.py:18-21 | no output exactly when the table has no nodes |
| TransformData.TransformNodesToGraphData | transform_data.py:39-145 | the loop computes the fold over the nodes |
| TransformData.BuildNodes | transform_data.py:46-134 | one web node per source node; the i-th is the one the i-th iteration appends |
| TransformData.BuildPrefix | transform_data.py:46-134 | the first k web nodes are those built from the first k table nodes |
| TransformData.BuildSnoc | transform_data.py:46-134 | running one node further is one more iteration |
| TransformData.StepNodes | transform_data.py:117-134 | one iteration appends exactly the node it builds |
| TransformData.BuildLength | transform_data.py:134 | as many web nodes as source nodes |
| TransformData.BuildEdgesDistinct | transform_data.py:117-130 | edge ids are pairwise distinct and equal the recorded set |
| TransformData.AppendFreshEdge | transform_data.py:121-130 | appending an edge with a new id keeps the ids distinct and adds that id |
| TransformData.BuildEdgesWellFormed | transform_data.py:117-129 | every edge runs from a table node to a known node, with the built id and empty caption and condition |
| TransformData.AddedEdgeKept | transform_data.py:119-130 | an edge an iteration adds is in the output |
| TransformData.EdgesComeFromAdded | transform_data.py:118-132 | the converse of AddedEdgeKept: every edge is the link `e-<id>-<nextMain>` of an iteration whose nextMain is set, a table id, and new |
| TransformData.TransformNodes | transform_data.py:99-134 | output node i has source node i's id, title, category and tags |
| TransformData.TransformNextIffEdge | transform_data.py:114-132 | a node's next holds its nextMain exactly when its iteration added the edge; it is empty otherwise |
| TransformData.TransformEdges | transform_data.py:117-130 | output edge ids are distinct, every edge joins two table nodes, and every edge is the nextMain link of an iteration that added it |
| TransformData.UnlinkedGetsNoEdge | transform_data.py:118-119 | a node whose nextMain is missing, empty or unknown gets an empty next and no edge: every edge was added by another iteration |

## Left out

- Rendering, CSS, icons, `fetch`, `alert`, `console` output and the `CustomEvent` plumbing between components are not modelled. Only the values those parts compute from the model's state are.
- Workbook bytes are not modelled. `XLSX` turning the sheet matrix into a file and back, `FileReader`, the `Promise` and the sheet's column widths are the model's boundary. The importer works on the matrix `sheet_to_json` returns; every cell is a string, and `String(cell)` of a non-string cell is not modelled.
- The date is a parameter. The date/time comes from `new Date()`, and the weekday suffix from `getDay()` is not modelled.
- Storage keys for the assignee, due-date and memo maps are assumed. `src/hooks/useNodeData.ts:5-7` imports their loaders and savers, but `src/utils/excelStatus.ts` does not define them. The model gives them keys named like the status key (`heliosflow_assignee`, `heliosflow_duedate`, `heliosflow_memo`) and the loader behaviour of `loadStatusFromStorage`.
- UseExcelIO.HandleImport, UseExcelIO.ApplyImport: both state the corrected handling of an absent assignee or due-date map (see "## Findings"). The import as written is modelled by its effect on storage. The `undefined` it leaves in the in-memory cells, and the `TypeError` the detail panel then raises on `assigneeMap[id]`, are not modelled beyond the absent value the lemma states.
- `saveAssigneeToStorage`, `saveDueDateToStorage` and `saveMemoToStorage` are imported by src/hooks/useExcelIO.ts:5-6 but not defined in src/utils/excelStatus.ts. The model assumes they are built like `saveStatusToStorage`, so saving `undefined` stores the text `undefined`.
- App.AppState.constructor: requires that a stored favourites entry parses as an array. `JSON.parse` throws on text that is not JSON, and the model does not model that failure. JSON that is not an array is not modelled; see the Storage.ParseArray line.
- Storage.ParseObject: JSON that is valid but not an object (`null`, a number, an array) reads as a parse failure, so `loadStatusFromStorage` yields `{}` for it. In JavaScript it would return that value. The application never writes such an entry under these keys.
- Storage.ParseArray: JSON that is valid but not an array (`5`, `{}`, `null`, a string) reads as `None`, like text that is not JSON. In JavaScript `JSON.parse` returns that value (src/App.tsx:29). The page then fails at `favorites.includes` (src/components/FlowView.tsx:23) for a number, an object or `null`. For a string it renders with `includes` as a substring test, and `handleFav` (src/App.tsx:150) misbehaves on it. The application only ever writes a string array under this key.
- JsString.ToLowerAscii: lower-cases ASCII letters only. Unicode case mapping is not modelled.
- NodeDetailModal.NumberOf: covers digit strings surrounded by whitespace, including the empty string. The model reads every digit string as its exact value. JavaScript's `Number` is a double: a field of more than 15 digits may be rounded, and from 1e21 up the template prints exponent form. `NodeDetailModal.DateTextOfDigits` inherits this, so its text is the source's only for fields of at most 15 digits. Other `Number` inputs (signs, fractions, exponents, `0x` prefixes, `NaN`) give `None` from `DateText`, so the text shown for them is not stated.
- ListView.Rows: a render with an unknown status throws in JavaScript. The model reports that as `None`; it does not model what the page then shows.
- transform_data.py: coordinate normalisation, rounding and floating point are not modelled. Neither are JSON file reading and writing or the console messages. A JSON `null` in `phase`, `type` or `notes` (as opposed to an absent key) is not modelled; `title` and `nextMain` do model it.
- transform_data.py: a table node without an `id`, `title` or `position` key makes the script raise `KeyError` (`n['id']`, `n['title']`, `n['position']['x']`) and stop without writing a file. The model's source node always carries an id and a title (`None` is a JSON `null` title), so `Transform` does not model that crash.
- transform_data.py: nodes that share an id are not modelled specially. `node_map` is used only for membership, and the model keeps that.
- The MiniMap's colour lookups and the pages outside the core (manual, about, header links, the junction node component) are not part of this model.

## Findings

| source | as written | input that shows it | evidently intended | confidence | as-written member | corrected member |
|---|---|---|---|---|---|---|
| src/hooks/useExcelIO.ts:39-46 | `handleExport` calls `exportStatusToExcel` with six arguments: nodes, statusMap, assigneeMap, dueDateMap, memoMap, projectName. The exporter (src/utils/excelStatus.ts:40-44) takes three, so its `projectName` parameter receives `assigneeMap`. | any export, for example project name "A": the exporter's `projectName` parameter is bound to the assignee map, so "A" is not in the title row and an import of the file cannot read it back | pass nodes, statusMap, projectName, so that the title row carries the project name and importing the file gives it back | not executed | UseExcelIO.ExportCallAsWritten | UseExcelIO.HandleExport |
| src/hooks/useExcelIO.ts:66-70 | the importer (src/utils/excelStatus.ts:116) resolves with `{ statusMap, projectName }` only. `handleImport` nevertheless sets and saves `newAssignee` and `newDueDate`, which are then `undefined`: the cells hold `undefined` and storage holds the text `undefined`, which a reload reads as `{}` | a recorded assignee `{ n1: "宮崎" }`, then an import of any spreadsheet: after a reload the assignee map is `{}` | a map the sheet does not carry leaves the recorded map in place (`newAssignee \|\| assigneeMap`, likewise for due dates) | not executed | UseExcelIO.ImportAsWrittenLosesAssignments | UseExcelIO.CorrectedImportKeepsAssignments |
