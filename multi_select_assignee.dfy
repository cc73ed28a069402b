/**
 * `src/components/MultiSelectAssignee.tsx`: the assignee cell holds a
 * comma-separated list of names; the dropdown parses it, toggles one name
 * and joins the list back.
 */
module MultiSelectAssignee {
  import opened JsString

  const COMMA: char := ','

  /** A name the list can carry through a join and a parse unchanged. */
  predicate ValidName(name: string) {
    name != "" && COMMA !in name
  }

  predicate AllValid(xs: seq<string>) {
    forall i :: 0 <= i < |xs| ==> ValidName(xs[i])
  }

  /** `xs.filter(Boolean)`: the non-empty strings of `xs`, in order. */
  function FilterNonEmpty(xs: seq<string>): (r: seq<string>)
    ensures |r| <= |xs|
    ensures forall i :: 0 <= i < |r| ==> r[i] != ""
    ensures forall s :: s in r <==> s in xs && s != ""
  {
    if xs == [] then []
    else if xs[0] == "" then FilterNonEmpty(xs[1..])
    else [xs[0]] + FilterNonEmpty(xs[1..])
  }

  /** `selected ? selected.split(',').filter(Boolean) : []`. */
  function SelectedList(selected: string): (r: seq<string>)
    ensures selected == "" ==> r == []
    ensures AllValid(r)
  {
    if selected == "" then []
    else
      var parts := Split(selected, COMMA);
      var r := FilterNonEmpty(parts);
      assert forall i :: 0 <= i < |r| ==> r[i] in parts;
      r
  }

  /** `xs.filter(s => s !== name)`. */
  function Remove(xs: seq<string>, name: string): (r: seq<string>)
    ensures |r| <= |xs|
    ensures name !in r
    ensures forall s :: s in r <==> s in xs && s != name
  {
    if xs == [] then []
    else if xs[0] == name then Remove(xs[1..], name)
    else [xs[0]] + Remove(xs[1..], name)
  }

  /** The list after `toggleAssignee(name)`: every occurrence removed when present, else appended. */
  function Toggle(xs: seq<string>, name: string): (r: seq<string>)
    ensures name in xs ==> r == Remove(xs, name)
    ensures name !in xs ==> r == xs + [name]
  {
    if name in xs then Remove(xs, name) else xs + [name]
  }

  /** The string `toggleAssignee(name)` hands to `onChange`. */
  function ToggleAssignee(selected: string, name: string): string {
    Join(Toggle(SelectedList(selected), name), COMMA)
  }

  /** The check mark of option `name`. */
  predicate IsSelected(selected: string, name: string) {
    name in SelectedList(selected)
  }

  /** Filtering a list that has no empty string leaves it unchanged. */
  lemma {:induction false} FilterNonEmptyIdentity(xs: seq<string>)
    requires forall i :: 0 <= i < |xs| ==> xs[i] != ""
    ensures FilterNonEmpty(xs) == xs
  {
    if xs != [] {
      FilterNonEmptyIdentity(xs[1..]);
      assert [xs[0]] + xs[1..] == xs;
    }
  }

  /** Joining valid names and parsing the result gives back the names. */
  lemma JoinThenParse(xs: seq<string>)
    requires AllValid(xs)
    ensures SelectedList(Join(xs, COMMA)) == xs
  {
    if xs != [] {
      assert Join(xs, COMMA) != "" by {
        JoinNonEmpty(xs);
      }
      SplitJoin(xs, COMMA);
      FilterNonEmptyIdentity(xs);
    }
  }

  lemma {:induction false} JoinNonEmpty(xs: seq<string>)
    requires xs != [] && AllValid(xs)
    ensures |Join(xs, COMMA)| >= |xs[0]| > 0
  {
  }

  /** Removing a name that is not in the list changes nothing. */
  lemma {:induction false} RemoveAbsent(xs: seq<string>, name: string)
    requires name !in xs
    ensures Remove(xs, name) == xs
  {
    if xs != [] {
      RemoveAbsent(xs[1..], name);
      assert [xs[0]] + xs[1..] == xs;
    }
  }

  /** Removing a name just appended gives back the list it was appended to. */
  lemma {:induction false} RemoveAppended(xs: seq<string>, name: string)
    requires name !in xs
    ensures Remove(xs + [name], name) == xs
  {
    if xs == [] {
      assert [name][1..] == [];
    } else {
      assert (xs + [name])[1..] == xs[1..] + [name];
      RemoveAppended(xs[1..], name);
      assert [xs[0]] + xs[1..] == xs;
    }
  }

  /** Toggling an absent name appends it after the names already selected. */
  lemma ToggleAbsent(selected: string, name: string)
    requires ValidName(name) && !IsSelected(selected, name)
    ensures SelectedList(ToggleAssignee(selected, name)) == SelectedList(selected) + [name]
  {
    JoinThenParse(SelectedList(selected) + [name]);
  }

  /** Toggling a present name removes every occurrence and keeps the others in order. */
  lemma TogglePresent(selected: string, name: string)
    requires IsSelected(selected, name)
    ensures SelectedList(ToggleAssignee(selected, name)) == Remove(SelectedList(selected), name)
  {
    var r := Remove(SelectedList(selected), name);
    assert forall i :: 0 <= i < |r| ==> r[i] in SelectedList(selected);
    JoinThenParse(r);
  }

  /** Toggling a name on and off gives back the selection it started from. */
  lemma ToggleTwice(selected: string, name: string)
    requires ValidName(name) && !IsSelected(selected, name)
    ensures SelectedList(ToggleAssignee(ToggleAssignee(selected, name), name)) == SelectedList(selected)
  {
    ToggleAbsent(selected, name);
    var once := ToggleAssignee(selected, name);
    assert IsSelected(once, name);
    TogglePresent(once, name);
    RemoveAppended(SelectedList(selected), name);
  }

  /** Clicking an option flips its check mark; every other option keeps its own. */
  lemma ToggleFlips(selected: string, name: string, other: string)
    requires ValidName(name)
    ensures IsSelected(ToggleAssignee(selected, name), name) <==> !IsSelected(selected, name)
    ensures other != name ==> (IsSelected(ToggleAssignee(selected, name), other) <==> IsSelected(selected, other))
  {
    if IsSelected(selected, name) {
      TogglePresent(selected, name);
    } else {
      ToggleAbsent(selected, name);
    }
  }
}
