/**
 * `src/components/NodeDetailModal.tsx`: the detail panel of the selected
 * node.  The model covers what the panel derives from the annotation maps:
 * which status button is active and what clicking one reports, the defaults
 * of the assignee, date and memo fields, the due-date text and the favourite
 * button.  The weekday the panel appends to the due date (`(月)` and so on)
 * comes from `Date.getDay()` and is not modelled: the date text here is the
 * part before it.
 */
module NodeDetailModal {
  import opened Wrappers
  import opened JsString
  import opened Constants
  import opened ExcelStatus
  import MultiSelectAssignee

  // ---------------------------------------------------------------------
  // status buttons
  // ---------------------------------------------------------------------

  /** One button of `Object.entries(NODE_STATUSES).map(...)`. */
  datatype StatusButton = StatusButton(key: string, info: StatusInfo, active: bool)

  /** The status buttons in table order; a button is active when its key is `statusMap[id] || 'pending'`. */
  function StatusButtons(statusMap: StringMap, id: string): (bs: seq<StatusButton>)
    ensures |bs| == |STATUS_ORDER|
    ensures forall i :: 0 <= i < |bs| ==>
      bs[i].key == STATUS_ORDER[i] && STATUS_ORDER[i] in NODE_STATUSES && bs[i].info == NODE_STATUSES[STATUS_ORDER[i]]
    ensures forall i :: 0 <= i < |bs| ==> (bs[i].active <==> STATUS_ORDER[i] == StatusOrPending(statusMap, id))
  {
    StatusKeys();
    seq(|STATUS_ORDER|, i requires 0 <= i < |STATUS_ORDER| =>
      StatusButton(STATUS_ORDER[i], NODE_STATUSES[STATUS_ORDER[i]], STATUS_ORDER[i] == StatusOrPending(statusMap, id)))
  }

  /** At most one button is active. */
  lemma AtMostOneActive(statusMap: StringMap, id: string, i: nat, j: nat)
    requires i < j < |STATUS_ORDER|
    ensures !(StatusButtons(statusMap, id)[i].active && StatusButtons(statusMap, id)[j].active)
  {
    StatusKeys();
  }

  /** Some button is active exactly when the node's status is a key of the table. */
  lemma SomeActiveIffKnown(statusMap: StringMap, id: string)
    ensures (exists i :: 0 <= i < |STATUS_ORDER| && StatusButtons(statusMap, id)[i].active)
        <==> IsStatusKey(StatusOrPending(statusMap, id))
  {
    StatusKeys();
    var k := StatusOrPending(statusMap, id);
    if IsStatusKey(k) {
      var i :| 0 <= i < |STATUS_ORDER| && STATUS_ORDER[i] == k;
      assert StatusButtons(statusMap, id)[i].active;
    }
  }

  /** The arguments a button hands to `onStatusChange`. */
  datatype StatusChange = StatusChange(nodeId: string, status: string)

  function ClickStatus(id: string, b: StatusButton): (c: StatusChange)
    ensures c.nodeId == id && c.status == b.key
  {
    StatusChange(id, b.key)
  }

  /**
   * After the store records the change a button reports
   * (`statusMap[id := key]`), that button (`i`) is active and every other
   * button (`j != i`) is not.
   */
  lemma ClickActivates(statusMap: StringMap, id: string, i: nat, j: nat)
    requires i < |STATUS_ORDER| && j < |STATUS_ORDER|
    ensures var c := ClickStatus(id, StatusButtons(statusMap, id)[i]);
      StatusButtons(statusMap[c.nodeId := c.status], id)[j].active <==> j == i
  {
    StatusKeys();
  }

  // ---------------------------------------------------------------------
  // field defaults
  // ---------------------------------------------------------------------

  /**
   * `m[id] || ''`, the value the assignee selector, the date input and the
   * memo box start from: the recorded value, or `''` when there is none.
   */
  function FieldOr(m: StringMap, id: string): (r: string)
    ensures id in m ==> r == m[id]
    ensures id !in m ==> r == ""
  {
    if id in m && m[id] != "" then m[id] else ""
  }

  /** A node without a recorded assignee opens the selector with nothing checked. */
  lemma NoAssigneeSelectsNothing(assigneeMap: StringMap, id: string, name: string)
    requires id !in assigneeMap
    ensures !MultiSelectAssignee.IsSelected(FieldOr(assigneeMap, id), name)
  {
  }

  const NO_DESCRIPTION: string := "説明はありません。"

  /** `description || "説明はありません。"`. */
  function DescriptionText(description: string): (r: string)
    ensures description != "" ==> r == description
    ensures description == "" ==> r == NO_DESCRIPTION
    ensures r != ""
  {
    if description != "" then description else NO_DESCRIPTION
  }

  // ---------------------------------------------------------------------
  // due date
  // ---------------------------------------------------------------------

  const UNSET: string := "未設定"

  /**
   * A component of `dateStr.split('-').map(Number)` after destructuring into
   * `[y, m, d]`: a whole number, `undefined` when the string has fewer parts,
   * or a value outside the model (`NaN`, or `Number`'s signs, fractions,
   * exponents and radix prefixes).
   */
  datatype DatePart = Num(n: nat) | Missing | Unmodelled

  /** `Number(s)` on the strings the model covers: surrounding whitespace ignored, `''` read as 0. */
  function NumberOf(s: string): (p: DatePart)
    ensures AllDigits(Trim(s)) <==> p.Num?
    ensures p.Num? ==> p.n == DecimalValue(Trim(s))
  {
    var t := Trim(s);
    if AllDigits(t) then Num(DecimalValue(t)) else Unmodelled
  }

  /** `${p}`, or `String(p).padStart(2, '0')` when `pad`. */
  function PartText(p: DatePart, pad: bool): (r: Option<string>)
    ensures r.Some? <==> !p.Unmodelled?
    ensures p.Missing? ==> r == Some("undefined")
  {
    match p
    case Num(n) => Some(if pad then Pad2(n) else NatToString(n))
    case Missing => Some("undefined")
    case Unmodelled => None
  }

  /** The due-date text of a non-empty `dateStr`, up to the weekday; `None` outside the model. */
  function DateText(dateStr: string): (r: Option<string>)
    ensures r.Some? ==> '/' in r.value
  {
    var parts := Split(dateStr, '-');
    var y := NumberOf(parts[0]);
    var m := if |parts| > 1 then NumberOf(parts[1]) else Missing;
    var d := if |parts| > 2 then NumberOf(parts[2]) else Missing;
    match (PartText(y, false), PartText(m, true), PartText(d, true))
    case (Some(ys), Some(ms), Some(ds)) =>
      var r := ys + "/" + ms + "/" + ds;
      assert r[|ys|] == '/';
      Some(r)
    case _ => None
  }

  /** The due-date box: `'未設定'` when no date is recorded, the formatted date otherwise. */
  function DueDateText(dueDateMap: StringMap, id: string): (r: Option<string>)
    ensures (id !in dueDateMap || dueDateMap[id] == "") <==> r == Some(UNSET)
    ensures id in dueDateMap && dueDateMap[id] != "" ==> r == DateText(dueDateMap[id])
  {
    if id !in dueDateMap || dueDateMap[id] == "" then Some(UNSET)
    else
      var r := DateText(dueDateMap[id]);
      assert '/' !in UNSET;
      r
  }

  /** A digit string is its own trimmed form. */
  lemma DigitsTrimmed(s: string)
    requires AllDigits(s)
    ensures Trim(s) == s && '-' !in s
  {
    TrimmedFixpoint(s);
  }

  /** `Y-M-D` with digit fields displays as `Y/MM/DD`: the year without leading zeros, month and day padded. */
  lemma DateTextOfDigits(ys: string, ms: string, ds: string)
    requires AllDigits(ys) && AllDigits(ms) && AllDigits(ds)
    ensures DateText(ys + "-" + ms + "-" + ds) ==
      Some(NatToString(DecimalValue(ys)) + "/" + Pad2(DecimalValue(ms)) + "/" + Pad2(DecimalValue(ds)))
  {
    DigitsTrimmed(ys);
    DigitsTrimmed(ms);
    DigitsTrimmed(ds);
    var rest := ms + ['-'] + ds;
    assert ys + "-" + ms + "-" + ds == ys + ['-'] + rest;
    SplitCons(ys, '-', rest);
    SplitCons(ms, '-', ds);
    SplitAtom(ds, '-');
    assert Split(ys + "-" + ms + "-" + ds, '-') == [ys, ms, ds];
  }

  /**
   * The value a date input holds for day `d` (`YYYY-MM-DD`) displays exactly
   * as the spreadsheet export writes the date (`formatDateDisplay`).
   */
  lemma DateInputDisplaysAsExport(d: Day)
    ensures DateText(NatToString(d.year) + "-" + Pad2(d.month) + "-" + Pad2(d.day)) == Some(FormatDateDisplay(d))
  {
    DecimalValueOfNatToString(d.year);
    DateTextOfDigits(NatToString(d.year), Pad2(d.month), Pad2(d.day));
  }

  // ---------------------------------------------------------------------
  // favourite button
  // ---------------------------------------------------------------------

  /** `isFavorite`. */
  predicate IsFavorite(favorites: seq<string>, id: string) {
    id in favorites
  }

  /** The favourite button's caption. */
  function FavoriteCaption(favorites: seq<string>, id: string): (r: string)
    ensures IsFavorite(favorites, id) <==> r == "お気に入り済み"
    ensures !IsFavorite(favorites, id) <==> r == "お気に入りに追加"
  {
    if id in favorites then "お気に入り済み" else "お気に入りに追加"
  }

  /** Pressing the button (the page's favourites toggle) flips `isFavorite`. */
  lemma FavoriteButtonFlips(favorites: seq<string>, id: string)
    ensures IsFavorite(MultiSelectAssignee.Toggle(favorites, id), id) <==> !IsFavorite(favorites, id)
  {
  }
}
