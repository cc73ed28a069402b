/**
 * `src/hooks/useNodeData.ts`: the per-node annotation store.  The hook's six
 * state cells become the fields of a class; every handler replaces one cell
 * and writes the matching `localStorage` entry.  `new Date()` is a parameter.
 */
module UseNodeData {
  import opened Wrappers
  import opened JsString
  import opened Storage
  import opened ExcelStatus

  const PROJECT_KEY: string := "heliosflow_project"
  const UPDATED_KEY: string := "heliosflow_updated"

  /** The clock reading `updateTimestamp` takes from `new Date()` (`getMonth() + 1`). */
  datatype DateTime = DateTime(year: nat, month: nat, day: nat, hour: nat, minute: nat)

  predicate ValidDateTime(t: DateTime) {
    1 <= t.month <= 12 && 1 <= t.day <= 31 && t.hour < 24 && t.minute < 60
  }

  /** The `YYYY/MM/DD HH:mm` stamp `updateTimestamp` writes. */
  function Timestamp(t: DateTime): (s: string)
    ensures s != ""
  {
    NatToString(t.year) + "/" + Pad2(t.month) + "/" + Pad2(t.day) + " " + Pad2(t.hour) + ":" + Pad2(t.minute)
  }

  /**
   * For a four-digit year the stamp is sixteen characters, `YYYY/MM/DD HH:mm`,
   * each field two zero-padded digits (four for the year) that read back as
   * the clock's value.
   */
  lemma TimestampLayout(t: DateTime)
    requires ValidDateTime(t) && 1000 <= t.year <= 9999
    ensures var s := Timestamp(t);
      && |s| == 16 && s[4] == '/' && s[7] == '/' && s[10] == ' ' && s[13] == ':'
      && AllDigits(s[..4]) && DecimalValue(s[..4]) == t.year
      && AllDigits(s[5..7]) && DecimalValue(s[5..7]) == t.month
      && AllDigits(s[8..10]) && DecimalValue(s[8..10]) == t.day
      && AllDigits(s[11..13]) && DecimalValue(s[11..13]) == t.hour
      && AllDigits(s[14..]) && DecimalValue(s[14..]) == t.minute
  {
    var date := FormatDateDisplay(Day(t.year, t.month, t.day));
    FormatDateDisplayLayout(Day(t.year, t.month, t.day));
    var s := Timestamp(t);
    assert s == date + " " + Pad2(t.hour) + ":" + Pad2(t.minute);
    TimeSuffix(date, Pad2(t.hour), Pad2(t.minute));
    assert s[..4] == date[..4] && s[5..7] == date[5..7] && s[8..10] == date[8..] by {
      assert s[..4] == s[..10][..4] && s[5..7] == s[..10][5..7] && s[8..10] == s[..10][8..];
    }
  }

  /** The layout of a ten-character date followed by ` HH:mm`. */
  lemma TimeSuffix(date: string, hh: string, mm: string)
    requires |date| == 10 && |hh| == 2 && |mm| == 2
    ensures var s := date + " " + hh + ":" + mm;
      && |s| == 16 && s[..10] == date && s[10] == ' ' && s[11..13] == hh && s[13] == ':' && s[14..] == mm
  {
    var s := date + " " + hh + ":" + mm;
    assert s[..10] == date;
    assert s[11..13] == hh;
    assert s[14..] == mm;
  }

  /** What `clearAllData` leaves in storage. */
  function Cleared(items: map<string, Entry>): map<string, Entry> {
    items[STATUS_KEY := StringifyObject(map[])][ASSIGNEE_KEY := StringifyObject(map[])]
         [DUE_DATE_KEY := StringifyObject(map[])][MEMO_KEY := StringifyObject(map[])]
         [PROJECT_KEY := Text("")] - {UPDATED_KEY}
  }

  /** After `clearAllData`, a fresh load finds four empty maps, no project name and no stamp. */
  lemma ClearedLoadsEmpty(items: map<string, Entry>)
    ensures LoadMap(Cleared(items), STATUS_KEY) == map[]
    ensures LoadMap(Cleared(items), ASSIGNEE_KEY) == map[]
    ensures LoadMap(Cleared(items), DUE_DATE_KEY) == map[]
    ensures LoadMap(Cleared(items), MEMO_KEY) == map[]
    ensures PROJECT_KEY in Cleared(items) && !Truthy(Cleared(items)[PROJECT_KEY])
    ensures UPDATED_KEY !in Cleared(items)
    ensures forall k :: k !in {STATUS_KEY, ASSIGNEE_KEY, DUE_DATE_KEY, MEMO_KEY, PROJECT_KEY, UPDATED_KEY} ==>
      (k in Cleared(items) <==> k in items) && (k in items ==> Cleared(items)[k] == items[k])
  {
  }

  /** A fresh load after `clearAllData` finds every cell empty. */
  lemma LoadedCleared(items: map<string, Entry>)
    ensures Loaded(Cleared(items)) == Snapshot(map[], map[], map[], map[], "", "")
  {
    var i1 := items[STATUS_KEY := StringifyObject(map[])];
    LoadedAfterSaveStatus(items, map[]);
    var i2 := i1[ASSIGNEE_KEY := StringifyObject(map[])];
    LoadedAfterSaveAssignee(i1, map[]);
    var i3 := i2[DUE_DATE_KEY := StringifyObject(map[])];
    LoadedAfterSaveDueDate(i2, map[]);
    var i4 := i3[MEMO_KEY := StringifyObject(map[])];
    LoadedAfterSaveMemo(i3, map[]);
    var i5 := i4[PROJECT_KEY := Text("")];
    LoadedAfterSetProject(i4, "");
    LoadedAfterStamp(i5, "");
    assert Cleared(items) == i5 - {UPDATED_KEY};
  }

  /** The six state cells of the hook, as one value. */
  datatype Snapshot = Snapshot(statusMap: StringMap, assigneeMap: StringMap, dueDateMap: StringMap,
                               memoMap: StringMap, projectName: string, lastUpdated: string)

  /** The state a fresh `useNodeData` would load from `items`. */
  function Loaded(items: map<string, Entry>): Snapshot {
    Snapshot(LoadMap(items, STATUS_KEY), LoadMap(items, ASSIGNEE_KEY), LoadMap(items, DUE_DATE_KEY),
             LoadMap(items, MEMO_KEY), TextOr(items, PROJECT_KEY, ""), TextOr(items, UPDATED_KEY, ""))
  }

  /** The six storage keys are pairwise distinct: they differ after the common `heliosflow_`. */
  lemma StorageKeysDistinct()
    ensures |{STATUS_KEY, ASSIGNEE_KEY, DUE_DATE_KEY, MEMO_KEY, PROJECT_KEY, UPDATED_KEY}| == 6
  {
    assert STATUS_KEY[11] == 's' && ASSIGNEE_KEY[11] == 'a' && DUE_DATE_KEY[11] == 'd';
    assert MEMO_KEY[11] == 'm' && PROJECT_KEY[11] == 'p' && UPDATED_KEY[11] == 'u';
  }

  /**
   * Each save the hook makes is seen by exactly one cell of a fresh load:
   * the storage keys do not interfere.
   */
  lemma LoadedAfterSaveStatus(items: map<string, Entry>, m: StringMap)
    ensures Loaded(items[STATUS_KEY := StringifyObject(m)]) == Loaded(items).(statusMap := m)
  {
    StorageKeysDistinct();
  }

  lemma LoadedAfterSaveAssignee(items: map<string, Entry>, m: StringMap)
    ensures Loaded(items[ASSIGNEE_KEY := StringifyObject(m)]) == Loaded(items).(assigneeMap := m)
  {
    StorageKeysDistinct();
  }

  lemma LoadedAfterSaveDueDate(items: map<string, Entry>, m: StringMap)
    ensures Loaded(items[DUE_DATE_KEY := StringifyObject(m)]) == Loaded(items).(dueDateMap := m)
  {
    StorageKeysDistinct();
  }

  lemma LoadedAfterSaveMemo(items: map<string, Entry>, m: StringMap)
    ensures Loaded(items[MEMO_KEY := StringifyObject(m)]) == Loaded(items).(memoMap := m)
  {
    StorageKeysDistinct();
  }

  /** Writing the project name is seen only by the project-name cell. */
  lemma LoadedAfterSetProject(items: map<string, Entry>, name: string)
    ensures Loaded(items[PROJECT_KEY := Text(name)]) == Loaded(items).(projectName := name)
  {
    StorageKeysDistinct();
  }

  /** Writing a non-empty stamp, or removing it, is seen only by the last-updated cell. */
  lemma LoadedAfterStamp(items: map<string, Entry>, ts: string)
    ensures ts != "" ==> Loaded(items[UPDATED_KEY := Text(ts)]) == Loaded(items).(lastUpdated := ts)
    ensures Loaded(items - {UPDATED_KEY}) == Loaded(items).(lastUpdated := "")
  {
    StorageKeysDistinct();
  }

  /** The state `useNodeData` holds, with the storage it writes through. */
  class NodeDataStore {
    const store: LocalStorage
    var statusMap: StringMap
    var assigneeMap: StringMap
    var dueDateMap: StringMap
    var memoMap: StringMap
    var projectName: string
    var lastUpdated: string

    function State(): Snapshot
      reads this
    {
      Snapshot(statusMap, assigneeMap, dueDateMap, memoMap, projectName, lastUpdated)
    }

    /** Every cell equals what a fresh load from storage would give. */
    ghost predicate Synced()
      reads this, store
    {
      State() == Loaded(store.items)
    }

    /** The hook's initial state: each map from its loader, the two strings from storage or `''`. */
    constructor (store: LocalStorage)
      ensures this.store == store
      ensures statusMap == LoadMap(store.items, STATUS_KEY)
      ensures assigneeMap == LoadMap(store.items, ASSIGNEE_KEY)
      ensures dueDateMap == LoadMap(store.items, DUE_DATE_KEY)
      ensures memoMap == LoadMap(store.items, MEMO_KEY)
      ensures projectName == TextOr(store.items, PROJECT_KEY, "")
      ensures lastUpdated == TextOr(store.items, UPDATED_KEY, "")
      ensures Synced()
    {
      this.store := store;
      statusMap := LoadMap(store.items, STATUS_KEY);
      assigneeMap := LoadMap(store.items, ASSIGNEE_KEY);
      dueDateMap := LoadMap(store.items, DUE_DATE_KEY);
      memoMap := LoadMap(store.items, MEMO_KEY);
      projectName := TextOr(store.items, PROJECT_KEY, "");
      lastUpdated := TextOr(store.items, UPDATED_KEY, "");
    }

    /** `updateTimestamp`: the stamp of `now`, in memory and in storage. */
    method UpdateTimestamp(now: DateTime)
      modifies this, store
      ensures lastUpdated == Timestamp(now)
      ensures store.items == old(store.items)[UPDATED_KEY := Text(Timestamp(now))]
      ensures statusMap == old(statusMap) && assigneeMap == old(assigneeMap)
      ensures dueDateMap == old(dueDateMap) && memoMap == old(memoMap)
      ensures projectName == old(projectName)
      ensures old(Synced()) ==> Synced()
    {
      var ts := Timestamp(now);
      LoadedAfterStamp(store.items, ts);
      ghost var before := State();
      lastUpdated := ts;
      store.SetItem(UPDATED_KEY, Text(ts));
      assert State() == before.(lastUpdated := ts);
    }

    /** `handleStatusChange`: one key of the status map, saved, then the stamp. */
    method HandleStatusChange(nodeId: string, status: string, now: DateTime)
      modifies this, store
      ensures statusMap == old(statusMap)[nodeId := status]
      ensures assigneeMap == old(assigneeMap) && dueDateMap == old(dueDateMap) && memoMap == old(memoMap)
      ensures projectName == old(projectName)
      ensures lastUpdated == Timestamp(now)
      ensures store.items == old(store.items)[STATUS_KEY := StringifyObject(statusMap)]
                                             [UPDATED_KEY := Text(Timestamp(now))]
      ensures old(Synced()) ==> Synced()
    {
      var next := statusMap[nodeId := status];
      LoadedAfterSaveStatus(store.items, next);
      SaveMap(store, STATUS_KEY, next);
      statusMap := next;
      UpdateTimestamp(now);
    }

    /** `handleAssigneeChange`: one key of the assignee map, saved, then the stamp. */
    method HandleAssigneeChange(nodeId: string, assignee: string, now: DateTime)
      modifies this, store
      ensures assigneeMap == old(assigneeMap)[nodeId := assignee]
      ensures statusMap == old(statusMap) && dueDateMap == old(dueDateMap) && memoMap == old(memoMap)
      ensures projectName == old(projectName)
      ensures lastUpdated == Timestamp(now)
      ensures store.items == old(store.items)[ASSIGNEE_KEY := StringifyObject(assigneeMap)]
                                             [UPDATED_KEY := Text(Timestamp(now))]
      ensures old(Synced()) ==> Synced()
    {
      var next := assigneeMap[nodeId := assignee];
      LoadedAfterSaveAssignee(store.items, next);
      SaveMap(store, ASSIGNEE_KEY, next);
      assigneeMap := next;
      UpdateTimestamp(now);
    }

    /** `handleDueDateChange`: one key of the due-date map, saved, then the stamp. */
    method HandleDueDateChange(nodeId: string, date: string, now: DateTime)
      modifies this, store
      ensures dueDateMap == old(dueDateMap)[nodeId := date]
      ensures statusMap == old(statusMap) && assigneeMap == old(assigneeMap) && memoMap == old(memoMap)
      ensures projectName == old(projectName)
      ensures lastUpdated == Timestamp(now)
      ensures store.items == old(store.items)[DUE_DATE_KEY := StringifyObject(dueDateMap)]
                                             [UPDATED_KEY := Text(Timestamp(now))]
      ensures old(Synced()) ==> Synced()
    {
      var next := dueDateMap[nodeId := date];
      LoadedAfterSaveDueDate(store.items, next);
      SaveMap(store, DUE_DATE_KEY, next);
      dueDateMap := next;
      UpdateTimestamp(now);
    }

    /** `handleMemoChange`: one key of the memo map, saved, then the stamp. */
    method HandleMemoChange(nodeId: string, memo: string, now: DateTime)
      modifies this, store
      ensures memoMap == old(memoMap)[nodeId := memo]
      ensures statusMap == old(statusMap) && assigneeMap == old(assigneeMap) && dueDateMap == old(dueDateMap)
      ensures projectName == old(projectName)
      ensures lastUpdated == Timestamp(now)
      ensures store.items == old(store.items)[MEMO_KEY := StringifyObject(memoMap)]
                                             [UPDATED_KEY := Text(Timestamp(now))]
      ensures old(Synced()) ==> Synced()
    {
      var next := memoMap[nodeId := memo];
      LoadedAfterSaveMemo(store.items, next);
      SaveMap(store, MEMO_KEY, next);
      memoMap := next;
      UpdateTimestamp(now);
    }

    /** `handleProjectNameChange`: the name, in memory and in storage; the stamp is left alone. */
    method HandleProjectNameChange(name: string)
      modifies this, store
      ensures projectName == name
      ensures store.items == old(store.items)[PROJECT_KEY := Text(name)]
      ensures statusMap == old(statusMap) && assigneeMap == old(assigneeMap)
      ensures dueDateMap == old(dueDateMap) && memoMap == old(memoMap)
      ensures lastUpdated == old(lastUpdated)
      ensures old(Synced()) ==> Synced()
    {
      LoadedAfterSetProject(store.items, name);
      projectName := name;
      store.SetItem(PROJECT_KEY, Text(name));
    }

    /**
     * The four map setters shared by `clearAllData` and `handleImport`: each
     * cell replaced and saved under its key; the name and the stamp are kept.
     */
    method ReplaceMaps(status: StringMap, assignee: StringMap, dueDate: StringMap, memo: StringMap)
      modifies this, store
      ensures State() == old(State()).(statusMap := status, assigneeMap := assignee,
                                       dueDateMap := dueDate, memoMap := memo)
      ensures store.items == old(store.items)[STATUS_KEY := StringifyObject(status)]
                [ASSIGNEE_KEY := StringifyObject(assignee)][DUE_DATE_KEY := StringifyObject(dueDate)]
                [MEMO_KEY := StringifyObject(memo)]
    {
      statusMap := status;
      SaveMap(store, STATUS_KEY, status);
      assigneeMap := assignee;
      SaveMap(store, ASSIGNEE_KEY, assignee);
      dueDateMap := dueDate;
      SaveMap(store, DUE_DATE_KEY, dueDate);
      memoMap := memo;
      SaveMap(store, MEMO_KEY, memo);
    }

    /** `clearAllData`: four empty maps saved, the name emptied, the stamp dropped. */
    method ClearAllData()
      modifies this, store
      ensures statusMap == map[] && assigneeMap == map[] && dueDateMap == map[] && memoMap == map[]
      ensures projectName == "" && lastUpdated == ""
      ensures store.items == Cleared(old(store.items))
      ensures Synced()
    {
      ghost var items0 := store.items;
      ReplaceMaps(map[], map[], map[], map[]);
      HandleProjectNameChange("");
      assert statusMap == map[] && assigneeMap == map[] && dueDateMap == map[] && memoMap == map[];
      lastUpdated := "";
      store.RemoveItem(UPDATED_KEY);
      assert store.items == Cleared(items0);
      LoadedCleared(items0);
    }
  }
}
