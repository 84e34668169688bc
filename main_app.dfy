/**
 * The application logic of main.py that the widgets are bound to: the
 * folder list, the event table and its search filter, the notification
 * text, and the start/stop/close sequences.
 *
 * Widget contents are fields: `listbox` is the folder Listbox, `tree` the
 * rows of the event Treeview, `searchText`, `checked`, `tgEnable`,
 * `tokenEntry` and `chatEntry` the values of the search box, the event-type
 * checkboxes, the "send" checkbox and the two credential entries. Dialogs,
 * the stop request, the flush and the saves are recorded in `effects`, in
 * the order they happen.
 */
module App {
  import opened Wrappers
  import opened Text
  import opened DbBuffer
  import opened WatchdogHandlers
  import opened Telegram

  /** TREE_MAX_ROWS. */
  const TreeMaxRows: nat := 1000

  /** One entry of `_all_events`: `(ts, evtype, path, dest)`. */
  datatype TableRow = TableRow(ts: string, eventType: string, path: string, dest: string)

  /** One row of the event table: its values and its colour tag. */
  datatype TreeItem = TreeItem(values: TableRow, tag: string)

  // ---------------------------------------------------------------- filter

  /** `any(search_text in str(x).lower() for x in row)`. */
  predicate AnyFieldContains(row: TableRow, needle: string) {
    || Contains(Lower(row.ts), needle)
    || Contains(Lower(row.eventType), needle)
    || Contains(Lower(row.path), needle)
    || Contains(Lower(row.dest), needle)
  }

  /** A row passes the search: the search is empty or some field contains it. */
  predicate Matches(row: TableRow, needle: string) {
    needle == "" || AnyFieldContains(row, needle)
  }

  /** The rows that pass the search, in their order. */
  function Visible(rows: seq<TableRow>, needle: string): seq<TableRow>
    decreases |rows|
  {
    if rows == [] then []
    else Visible(rows[..|rows| - 1], needle) + if Matches(rows[|rows| - 1], needle) then [rows[|rows| - 1]] else []
  }

  function Tag(row: TableRow): TreeItem {
    TreeItem(row, ColorOf(row.eventType))
  }

  function Tagged(rows: seq<TableRow>): seq<TreeItem> {
    seq(|rows|, i requires 0 <= i < |rows| => Tag(rows[i]))
  }

  function Take<T>(s: seq<T>, n: nat): seq<T> {
    if |s| <= n then s else s[..n]
  }

  /** What apply_filter shows: the first TREE_MAX_ROWS passing rows, coloured. */
  function Shown(rows: seq<TableRow>, searchText: string): seq<TreeItem> {
    Tagged(Take(Visible(rows, Lower(searchText)), TreeMaxRows))
  }

  /** Filtering distributes over concatenation: earlier rows stay before later ones. */
  lemma {:induction false} VisibleAppend(a: seq<TableRow>, b: seq<TableRow>, needle: string)
    ensures Visible(a + b, needle) == Visible(a, needle) + Visible(b, needle)
    decreases |b|
  {
    if b == [] {
      assert a + b == a;
    } else {
      assert (a + b)[..|a + b| - 1] == a + b[..|b| - 1];
      assert (a + b)[|a + b| - 1] == b[|b| - 1];
      VisibleAppend(a, b[..|b| - 1], needle);
    }
  }

  /** A row is visible exactly when it is one of the rows and passes the search. */
  lemma {:induction false} VisibleMembers(rows: seq<TableRow>, needle: string)
    ensures |Visible(rows, needle)| <= |rows|
    ensures forall x :: x in Visible(rows, needle) <==> x in rows && Matches(x, needle)
    decreases |rows|
  {
    if rows != [] {
      var init := rows[..|rows| - 1];
      VisibleMembers(init, needle);
      assert rows == init + [rows[|rows| - 1]];
    }
  }

  /** With an empty search every row is visible. */
  lemma {:induction false} VisibleEmptySearch(rows: seq<TableRow>)
    ensures Visible(rows, "") == rows
    decreases |rows|
  {
    if rows != [] {
      VisibleEmptySearch(rows[..|rows| - 1]);
    }
  }

  /**
   * apply_filter shows at most TREE_MAX_ROWS rows, the visible rows in
   * order and from the first on, each passing the search and coloured by
   * COLOR_MAP; when fewer rows pass, all of them are shown.
   */
  lemma ShownRows(rows: seq<TableRow>, searchText: string)
    ensures var shown := Shown(rows, searchText);
      var v := Visible(rows, Lower(searchText));
      && |shown| <= TreeMaxRows
      && |shown| == (if |v| <= TreeMaxRows then |v| else TreeMaxRows)
      && (forall i :: 0 <= i < |shown| ==> shown[i].values == v[i])
      && (forall i :: 0 <= i < |shown| ==> shown[i].values in rows && Matches(shown[i].values, Lower(searchText)))
      && (forall i :: 0 <= i < |shown| ==> shown[i].tag == ColorOf(shown[i].values.eventType))
  {
    var v := Visible(rows, Lower(searchText));
    VisibleMembers(rows, Lower(searchText));
    assert forall i :: 0 <= i < |Take(v, TreeMaxRows)| ==> Take(v, TreeMaxRows)[i] == v[i] && v[i] in v;
  }

  /** With an empty search, apply_filter shows exactly the first min(n, 1000) events. */
  lemma ShownEmptySearch(rows: seq<TableRow>)
    ensures Shown(rows, "") == Tagged(if |rows| <= TreeMaxRows then rows else rows[..TreeMaxRows])
  {
    VisibleEmptySearch(rows);
    assert Lower("") == "";
  }

  /** Looking at one more row adds it when it passes the search. */
  lemma VisibleStep(rows: seq<TableRow>, i: nat, needle: string)
    requires i < |rows|
    ensures Visible(rows[..i + 1], needle)
      == Visible(rows[..i], needle) + if Matches(rows[i], needle) then [rows[i]] else []
  {
    assert rows[..i + 1][..i] == rows[..i];
  }

  lemma TaggedSnoc(rows: seq<TableRow>, row: TableRow)
    ensures Tagged(rows + [row]) == Tagged(rows) + [Tag(row)]
  {
  }

  /**
   * Scanning may stop once TREE_MAX_ROWS rows passed: what the scan of a
   * prefix found is then the shown part of the whole.
   */
  lemma VisibleCutOff(rows: seq<TableRow>, i: nat, needle: string)
    requires i <= |rows|
    requires |Visible(rows[..i], needle)| <= TreeMaxRows
    requires |Visible(rows[..i], needle)| < TreeMaxRows ==> i == |rows|
    ensures Take(Visible(rows, needle), TreeMaxRows) == Visible(rows[..i], needle)
  {
    assert rows == rows[..i] + rows[i..];
    VisibleAppend(rows[..i], rows[i..], needle);
  }

  // ------------------------------------------------------------ folder list

  predicate NoDup(s: seq<string>) {
    forall i, j :: 0 <= i < j < |s| ==> s[i] != s[j]
  }

  /**
   * add_folder's update of `paths`: a non-empty folder not yet listed is
   * appended; otherwise nothing changes. A duplicate-free list stays so.
   */
  function WithFolder(paths: seq<string>, folder: string): (r: seq<string>)
    ensures folder != "" ==> folder in r
    ensures folder == "" || folder in paths ==> r == paths
    ensures |paths| <= |r| <= |paths| + 1 && r[..|paths|] == paths
    ensures NoDup(paths) ==> NoDup(r)
  {
    if folder != "" && folder !in paths then paths + [folder] else paths
  }

  /** `list.remove(x)`: drops the first occurrence of x. */
  function RemoveFirst(s: seq<string>, x: string): (r: seq<string>)
    requires x in s
    ensures |r| == |s| - 1
    decreases |s|
  {
    if s[0] == x then s[1..] else [s[0]] + RemoveFirst(s[1..], x)
  }

  /** `list.remove(x)` takes exactly one x out of the list's values. */
  lemma {:induction false} RemoveFirstValues(s: seq<string>, x: string)
    requires x in s
    ensures multiset(RemoveFirst(s, x)) == multiset(s) - multiset{x}
    decreases |s|
  {
    assert s == [s[0]] + s[1..];
    if s[0] != x {
      RemoveFirstValues(s[1..], x);
    }
  }

  /** `Listbox.delete(i)`: drops the entry at index i. */
  function DeleteAt(s: seq<string>, i: nat): (r: seq<string>)
    requires i < |s|
    ensures |r| == |s| - 1
  {
    s[..i] + s[i + 1..]
  }

  /** `Listbox.delete(i)` takes exactly the entry's value out of the list's values. */
  lemma DeleteAtValues(s: seq<string>, i: nat)
    requires i < |s|
    ensures multiset(DeleteAt(s, i)) == multiset(s) - multiset{s[i]}
  {
    assert s == s[..i] + [s[i]] + s[i + 1..];
  }

  predicate Increasing(sel: seq<nat>) {
    forall a, b :: 0 <= a < b < |sel| ==> sel[a] < sel[b]
  }

  /** `curselection()` of a list of n entries: increasing indices below n. */
  predicate SelectionOf(sel: seq<nat>, n: nat) {
    Increasing(sel) && forall k :: 0 <= k < |sel| ==> sel[k] < n
  }

  /**
   * remove_folder: for each selected index, from the last to the first,
   * remove the entry's value from `paths` and delete the entry from the
   * list box. The two lists hold the same values throughout.
   */
  function RemoveSelected(paths: seq<string>, listbox: seq<string>, sel: seq<nat>): (seq<string>, seq<string>)
    requires multiset(paths) == multiset(listbox) && SelectionOf(sel, |listbox|)
    decreases |sel|
  {
    if sel == [] then (paths, listbox)
    else
      var i := sel[|sel| - 1];
      assert listbox[i] in multiset(paths);
      RemoveFirstValues(paths, listbox[i]);
      DeleteAtValues(listbox, i);
      RemoveSelected(RemoveFirst(paths, listbox[i]), DeleteAt(listbox, i), sel[..|sel| - 1])
  }

  /**
   * remove_folder keeps the folder list and the list box holding the same
   * folders, and removes one entry per selected index.
   */
  lemma {:induction false} RemoveSelectedKeepsValues(paths: seq<string>, listbox: seq<string>, sel: seq<nat>)
    requires multiset(paths) == multiset(listbox) && SelectionOf(sel, |listbox|)
    ensures var r := RemoveSelected(paths, listbox, sel);
      multiset(r.0) == multiset(r.1) && |r.1| == |listbox| - |sel|
    decreases |sel|
  {
    if sel != [] {
      var p, d := RemoveSelectedStepArgs(paths, listbox, sel);
      RemoveSelectedKeepsValues(p, d, sel[..|sel| - 1]);
    }
  }

  /** remove_folder takes exactly the selected entries' values out of the list box. */
  lemma {:induction false} RemoveSelectedRemovesValues(paths: seq<string>, listbox: seq<string>, sel: seq<nat>)
    requires multiset(paths) == multiset(listbox) && SelectionOf(sel, |listbox|)
    ensures multiset(RemoveSelected(paths, listbox, sel).1) + multiset(SelectedValues(listbox, sel)) == multiset(listbox)
    decreases |sel|
  {
    if sel != [] {
      var i, init := sel[|sel| - 1], sel[..|sel| - 1];
      var p, d := RemoveSelectedStepArgs(paths, listbox, sel);
      RemoveSelectedRemovesValues(p, d, init);
      assert forall k :: 0 <= k < |init| ==> init[k] == sel[k];
      SelectedValuesBelow(listbox, init, i);
      SumStep(RemoveSelected(p, d, init).1, SelectedValues(listbox, init), listbox[i], d, listbox);
    }
  }

  /** Adding one value to both sides of a multiset sum that makes up `d`. */
  lemma SumStep(rest: seq<string>, taken: seq<string>, x: string, d: seq<string>, whole: seq<string>)
    requires multiset(rest) + multiset(taken) == multiset(d)
    requires x in whole && multiset(d) == multiset(whole) - multiset{x}
    ensures multiset(rest) + multiset(taken + [x]) == multiset(whole)
  {
    assert x in multiset(whole);
    assert multiset(d) + multiset{x} == multiset(whole);
    assert multiset(taken + [x]) == multiset(taken) + multiset{x};
  }

  /** The lists remove_folder goes on with after handling the last selected index. */
  lemma RemoveSelectedStepArgs(paths: seq<string>, listbox: seq<string>, sel: seq<nat>)
      returns (p: seq<string>, d: seq<string>)
    requires multiset(paths) == multiset(listbox) && SelectionOf(sel, |listbox|) && sel != []
    ensures var i := sel[|sel| - 1];
      && listbox[i] in paths && p == RemoveFirst(paths, listbox[i]) && d == DeleteAt(listbox, i)
      && multiset(p) == multiset(d) && multiset(d) == multiset(listbox) - multiset{listbox[i]}
      && |d| == |listbox| - 1
      && SelectionOf(sel[..|sel| - 1], |d|)
      && (forall k :: 0 <= k < |sel| - 1 ==> sel[k] < i)
      && RemoveSelected(paths, listbox, sel) == RemoveSelected(p, d, sel[..|sel| - 1])
  {
    var i, init := sel[|sel| - 1], sel[..|sel| - 1];
    var x := listbox[i];
    assert x in multiset(paths);
    RemoveFirstValues(paths, x);
    DeleteAtValues(listbox, i);
    p, d := RemoveFirst(paths, x), DeleteAt(listbox, i);
    assert forall k :: 0 <= k < |init| ==> init[k] == sel[k];
  }

  /** The values of the selected entries, in selection order. */
  function SelectedValues(listbox: seq<string>, sel: seq<nat>): seq<string>
    requires forall k :: 0 <= k < |sel| ==> sel[k] < |listbox|
    decreases |sel|
  {
    if sel == [] then [] else SelectedValues(listbox, sel[..|sel| - 1]) + [listbox[sel[|sel| - 1]]]
  }

  /** Deleting an entry above every selected index leaves their values alone. */
  lemma {:induction false} SelectedValuesBelow(listbox: seq<string>, sel: seq<nat>, i: nat)
    requires i < |listbox| && forall k :: 0 <= k < |sel| ==> sel[k] < i
    ensures SelectedValues(DeleteAt(listbox, i), sel) == SelectedValues(listbox, sel)
    decreases |sel|
  {
    if sel != [] {
      SelectedValuesBelow(listbox, sel[..|sel| - 1], i);
    }
  }

  /** The entries whose index is not in `sel`, in order. */
  function Unselected(s: seq<string>, sel: seq<nat>): seq<string>
    decreases |s|
  {
    if s == [] then []
    else Unselected(s[..|s| - 1], sel) + if |s| - 1 in sel then [] else [s[|s| - 1]]
  }

  lemma {:induction false} UnselectedSameIndices(s: seq<string>, a: seq<nat>, b: seq<nat>)
    requires forall k: nat :: k < |s| ==> (k in a <==> k in b)
    ensures Unselected(s, a) == Unselected(s, b)
    decreases |s|
  {
    if s != [] {
      UnselectedSameIndices(s[..|s| - 1], a, b);
    }
  }

  /** Deleting the entry at i, above every index of `sel`, is selecting i too. */
  lemma {:induction false} UnselectedDeleteAt(s: seq<string>, i: nat, sel: seq<nat>)
    requires i < |s| && forall k :: k in sel ==> k < i
    ensures Unselected(DeleteAt(s, i), sel) == Unselected(s, sel + [i])
    decreases |s|
  {
    var n := |s|;
    if i == n - 1 {
      assert DeleteAt(s, i) == s[..n - 1];
      UnselectedSameIndices(s[..n - 1], sel, sel + [i]);
    } else {
      var d := DeleteAt(s, i);
      assert d[..n - 2] == DeleteAt(s[..n - 1], i);
      assert d[n - 2] == s[n - 1];
      assert n - 2 !in sel;
      assert n - 1 !in sel + [i];
      UnselectedDeleteAt(s[..n - 1], i, sel);
    }
  }

  /** Deleting an entry keeps a list duplicate-free. */
  lemma DeleteAtNoDup(s: seq<string>, i: nat)
    requires NoDup(s) && i < |s|
    ensures NoDup(DeleteAt(s, i))
  {
    var d := DeleteAt(s, i);
    assert forall k :: 0 <= k < |d| ==> d[k] == if k < i then s[k] else s[k + 1];
  }

  /** When no earlier entry equals the one at i, removing its value deletes it. */
  lemma {:induction false} RemoveFirstIsDeleteAt(s: seq<string>, i: nat)
    requires i < |s| && forall k :: 0 <= k < i ==> s[k] != s[i]
    ensures RemoveFirst(s, s[i]) == DeleteAt(s, i)
    decreases |s|
  {
    if i > 0 {
      var t := s[1..];
      assert s[0] != s[i];
      assert t[i - 1] == s[i];
      assert forall k :: 0 <= k < i - 1 ==> t[k] == s[k + 1];
      RemoveFirstIsDeleteAt(t, i - 1);
      calc {
        RemoveFirst(s, s[i]);
        [s[0]] + RemoveFirst(t, s[i]);
        [s[0]] + (t[..i - 1] + t[i..]);
        { assert s[..i] == [s[0]] + t[..i - 1]; assert s[i + 1..] == t[i..]; }
        s[..i] + s[i + 1..];
      }
    } else {
      assert RemoveFirst(s, s[0]) == s[1..];
      assert s[..0] + s[1..] == s[1..];
    }
  }

  /**
   * When the folder list has no duplicates and the list box shows it,
   * remove_folder removes exactly the selected entries from both and keeps
   * the others in their order.
   */
  lemma {:induction false} RemoveSelectedExact(paths: seq<string>, sel: seq<nat>)
    requires NoDup(paths) && SelectionOf(sel, |paths|)
    ensures RemoveSelected(paths, paths, sel) == (Unselected(paths, sel), Unselected(paths, sel))
    decreases |sel|
  {
    if sel == [] {
      UnselectedNone(paths);
    } else {
      var i := sel[|sel| - 1];
      var init := sel[..|sel| - 1];
      var d := DeleteAt(paths, i);
      RemoveSelectedStep(paths, sel);
      assert forall k :: k in init ==> k < i;
      RemoveSelectedExact(d, init);
      UnselectedDeleteAt(paths, i, init);
      calc {
        RemoveSelected(paths, paths, sel);
        RemoveSelected(d, d, init);
        (Unselected(d, init), Unselected(d, init));
        (Unselected(paths, init + [i]), Unselected(paths, init + [i]));
        { assert init + [i] == sel; }
        (Unselected(paths, sel), Unselected(paths, sel));
      }
    }
  }

  /**
   * Whatever the folder list holds, duplicates included, the list box loses
   * exactly the selected entries and keeps the others in their order:
   * deleting from the last selected index down never shifts an index still
   * to be deleted.
   */
  lemma {:induction false} RemoveSelectedListbox(paths: seq<string>, listbox: seq<string>, sel: seq<nat>)
    requires multiset(paths) == multiset(listbox) && SelectionOf(sel, |listbox|)
    ensures RemoveSelected(paths, listbox, sel).1 == Unselected(listbox, sel)
    decreases |sel|
  {
    if sel == [] {
      UnselectedNone(listbox);
    } else {
      var i, init := sel[|sel| - 1], sel[..|sel| - 1];
      var p, d := RemoveSelectedStepArgs(paths, listbox, sel);
      RemoveSelectedListbox(p, d, init);
      assert forall k :: 0 <= k < |init| ==> init[k] == sel[k];
      assert forall k :: k in init ==> k < i;
      UnselectedDeleteAt(listbox, i, init);
      assert init + [i] == sel;
    }
  }

  /** One step of remove_folder on a duplicate-free list equal to the list box. */
  lemma RemoveSelectedStep(paths: seq<string>, sel: seq<nat>)
    requires NoDup(paths) && SelectionOf(sel, |paths|) && sel != []
    ensures var i := sel[|sel| - 1];
      && NoDup(DeleteAt(paths, i))
      && SelectionOf(sel[..|sel| - 1], |paths| - 1)
      && RemoveSelected(paths, paths, sel)
         == RemoveSelected(DeleteAt(paths, i), DeleteAt(paths, i), sel[..|sel| - 1])
  {
    var i := sel[|sel| - 1];
    RemoveFirstIsDeleteAt(paths, i);
    DeleteAtNoDup(paths, i);
  }

  lemma {:induction false} UnselectedNone(s: seq<string>)
    ensures Unselected(s, []) == s
    decreases |s|
  {
    if s != [] {
      UnselectedNone(s[..|s| - 1]);
    }
  }

  /**
   * With a duplicated folder the two lists drift apart: `paths.remove`
   * drops the first equal entry while the list box drops the selected one.
   */
  lemma DuplicateFoldersDrift()
    ensures RemoveSelected(["a", "b", "a"], ["a", "b", "a"], [2]) == (["b", "a"], ["a", "b"])
  {
    var p: seq<string> := ["a", "b", "a"];
    assert RemoveFirst(p, "a") == ["b", "a"];
    assert DeleteAt(p, 2) == ["a", "b"];
    assert [2][..0] == [];
  }

  // ------------------------------------------------------ notification text

  /**
   * The text on_event sends: `"[ts] TYPE\npath"`, and `"\n→ dest"` after it
   * only when there is a destination.
   */
  function NotificationText(ts: string, eventType: string, path: string, dest: string): (text: string)
    ensures IsPrefix("[" + ts + "] " + Upper(eventType) + "\n" + path, text)
    ensures var head := "[" + ts + "] " + Upper(eventType) + "\n" + path;
      |text| == |head| + (if dest == "" then 0 else 3 + |dest|)
      && (dest != "" ==> text[|head|..] == "\n→ " + dest)
  {
    "[" + ts + "] " + Upper(eventType) + "\n" + path + (if dest != "" then "\n→ " + dest else "")
  }

  /** A destination appears in the text exactly when it is non-empty. */
  lemma NotificationMentionsDest(ts: string, eventType: string, path: string, dest: string)
    ensures |NotificationText(ts, eventType, path, dest)| > |ts| + |eventType| + |path| + 4 <==> dest != ""
  {
  }

  // ------------------------------------------------------------ application

  /** The event-type checkboxes, in their order on screen. */
  const CheckboxKinds: seq<Kind> := [Created, Modified, Deleted, Moved]

  /**
   * The filter start_monitoring passes: the names of the ticked kinds,
   * exactly.
   */
  function FilterOf(checked: set<Kind>): (r: set<string>)
    ensures forall k: Kind :: KindName(k) in r <==> k in checked
    ensures r <= {"created", "deleted", "modified", "moved"}
  {
    set k | k in checked :: KindName(k)
  }

  /** The kinds ticked at start-up: those named in the configured event list. */
  function CheckedFrom(events: set<string>): (r: set<Kind>)
    ensures forall k: Kind :: k in r <==> KindName(k) in events
  {
    (if "created" in events then {Created} else {})
      + (if "modified" in events then {Modified} else {})
      + (if "deleted" in events then {Deleted} else {})
      + (if "moved" in events then {Moved} else {})
  }

  /** The names of the ticked kinds, in checkbox order. */
  function TickedNames(kinds: seq<Kind>, checked: set<Kind>): seq<string>
    decreases |kinds|
  {
    if kinds == [] then []
    else (if kinds[0] in checked then [KindName(kinds[0])] else []) + TickedNames(kinds[1..], checked)
  }

  /** The names of the ticked kinds of a list are the ticked kinds of the list, each once. */
  lemma {:induction false} TickedNamesOf(kinds: seq<Kind>, checked: set<Kind>)
    requires forall i, j :: 0 <= i < j < |kinds| ==> kinds[i] != kinds[j]
    ensures var names := TickedNames(kinds, checked);
      && (forall k: Kind :: KindName(k) in names <==> k in kinds && k in checked)
      && NoDup(names)
    decreases |kinds|
  {
    if kinds != [] {
      var rest := TickedNames(kinds[1..], checked);
      TickedNamesOf(kinds[1..], checked);
      assert forall j :: 0 <= j < |kinds[1..]| ==> kinds[1..][j] != kinds[0];
      forall k: Kind
        ensures KindName(k) == KindName(kinds[0]) ==> k == kinds[0]
      {
        KindNameInjective(k, kinds[0]);
      }
    }
  }

  /** The saved event list names exactly the ticked kinds, each once. */
  lemma TickedNamesExact(checked: set<Kind>)
    ensures var names := TickedNames(CheckboxKinds, checked);
      && (forall k: Kind :: KindName(k) in names <==> k in checked)
      && NoDup(names)
  {
    TickedNamesOf(CheckboxKinds, checked);
  }

  /**
   * save_config followed by the next start-up's load restores the
   * checkboxes: the kinds ticked from the saved event list are exactly the
   * kinds that were ticked.
   */
  lemma ConfigEventsRoundTrip(checked: set<Kind>)
    ensures CheckedFrom(set n | n in TickedNames(CheckboxKinds, checked)) == checked
  {
    TickedNamesExact(checked);
    var r := CheckedFrom(set n | n in TickedNames(CheckboxKinds, checked));
    assert forall k: Kind :: k in r <==> k in checked;
  }

  /**
   * What save_config writes: the folders, the ticked event kinds in checkbox
   * order, and the two entry texts as typed.
   */
  function SavedConfig(paths: seq<string>, checked: set<Kind>, tokenEntry: string, chatEntry: string): (c: Config)
    ensures c.paths == paths && c.token == tokenEntry && c.chatId == chatEntry
    ensures forall k: Kind :: KindName(k) in c.events <==> k in checked
    ensures NoDup(c.events)
  {
    TickedNamesExact(checked);
    Config(paths, TickedNames(CheckboxKinds, checked), tokenEntry, chatEntry)
  }

  /**
   * What load_config returned, key by key; a missing key is None. A missing
   * 'telegram' section leaves both of its keys missing.
   */
  datatype LoadedConfig = LoadedConfig(
    paths: Option<seq<string>>,
    events: Option<set<string>>,
    token: Option<string>,
    chatId: Option<string>)

  /** `dict.get(key, default)` on one key. */
  function GetOr<T>(o: Option<T>, default: T): T {
    if o.Some? then o.value else default
  }

  /** The default of `config.get('events', ...)`: every kind. */
  const DefaultEventNames: set<string> := {"created", "modified", "deleted", "moved"}

  /**
   * The ticked checkboxes at start-up: every kind when the configuration has
   * no event list, otherwise the kinds the list names.
   */
  function InitialChecked(events: Option<set<string>>): (r: set<Kind>)
    ensures events.None? ==> r == {Created, Deleted, Modified, Moved}
    ensures events.Some? ==> forall k: Kind :: k in r <==> KindName(k) in events.value
  {
    CheckedFrom(GetOr(events, DefaultEventNames))
  }

  /** A missing event list ticks every kind, an empty one ticks none. */
  lemma MissingVsEmptyEvents()
    ensures InitialChecked(None) == {Created, Deleted, Modified, Moved}
    ensures InitialChecked(Some({})) == {}
  {
  }

  /** The dialogs start_monitoring can show. */
  datatype Dialog = AlreadyRunning | NoFolder

  /** What save_config writes. */
  datatype Config = Config(paths: seq<string>, events: seq<string>, token: string, chatId: string)

  /** The application's outward actions, in order. */
  datatype Effect =
    | Show(dialog: Dialog)
    | StopThread
    | FlushEvents
    | SaveFolders(folders: seq<string>)
    | SaveConfig(config: Config)
    | DestroyWindow

  class FileMonitorApp {
    var paths: seq<string>
    var listbox: seq<string>
    var thread: WatcherThread?
    const notifier: TelegramNotifier
    const buf: DBBuffer
    var checked: set<Kind>
    var allEvents: seq<TableRow>
    var tree: seq<TreeItem>
    var searchText: string
    var tgEnable: bool
    var tokenEntry: string
    var chatEntry: string
    var effects: seq<Effect>

    /** The list box holds the same folders as `paths`; the buffer is consistent. */
    ghost predicate Valid()
      reads this, buf
    {
      multiset(paths) == multiset(listbox) && buf.Valid()
    }

    /**
     * `__init__` given what load_folders and load_config returned: the saved
     * folder list, or else the configured one ([] when missing); the
     * notifier from the configured credentials ('' when missing), stripped;
     * the checkboxes from the configured event list (every kind when
     * missing); the credential entries with the configured text as is.
     */
    constructor(savedFolders: seq<string>, config: LoadedConfig, buf: DBBuffer)
      requires buf.Valid()
      ensures Valid() && this.buf == buf && thread == null && fresh(notifier)
      ensures paths == listbox == if savedFolders != [] then savedFolders else GetOr(config.paths, [])
      ensures var token, chatId := GetOr(config.token, ""), GetOr(config.chatId, "");
        && notifier.token == Strip(token) && notifier.chatId == Strip(chatId) && notifier.requests == []
        && tgEnable == CredentialsPresent(Strip(token), Strip(chatId))
        && tokenEntry == token && chatEntry == chatId
      ensures checked == InitialChecked(config.events)
      ensures config.events.None? ==> checked == {Created, Deleted, Modified, Moved}
      ensures allEvents == [] && tree == [] && searchText == "" && effects == []
    {
      var token, chatId := GetOr(config.token, ""), GetOr(config.chatId, "");
      paths := if savedFolders != [] then savedFolders else GetOr(config.paths, []);
      listbox := paths;
      thread := null;
      var n := new TelegramNotifier(token, chatId);
      notifier := n;
      this.buf := buf;
      checked := InitialChecked(config.events);
      allEvents := [];
      tree := [];
      searchText := "";
      tgEnable := n.Enabled();
      tokenEntry := token;
      chatEntry := chatId;
      effects := [];
    }

    /** What save_config writes now. */
    function CurrentConfig(): Config
      reads this
    {
      SavedConfig(paths, checked, tokenEntry, chatEntry)
    }

    /** add_folder, given the dialog's answer ("" when cancelled). */
    method AddFolder(folder: string)
      requires Valid()
      modifies this`paths, this`listbox
      ensures Valid()
      ensures paths == WithFolder(old(paths), folder)
      ensures listbox == if paths == old(paths) then old(listbox) else old(listbox) + [folder]
    {
      if folder != "" && folder !in paths {
        paths := paths + [folder];
        listbox := listbox + [folder];
      }
    }

    /** remove_folder, given `curselection()`. */
    method RemoveFolder(sel: seq<nat>)
      requires Valid() && SelectionOf(sel, |listbox|)
      modifies this`paths, this`listbox
      ensures Valid()
      ensures (paths, listbox) == RemoveSelected(old(paths), old(listbox), sel)
    {
      var k := |sel|;
      assert sel[..k] == sel;
      while k > 0
        invariant 0 <= k <= |sel|
        invariant multiset(paths) == multiset(listbox)
        invariant SelectionOf(sel[..k], |listbox|)
        invariant RemoveSelected(paths, listbox, sel[..k]) == RemoveSelected(old(paths), old(listbox), sel)
      {
        var i := sel[k - 1];
        ghost var p, d := RemoveSelectedStepArgs(paths, listbox, sel[..k]);
        assert sel[..k][..k - 1] == sel[..k - 1];
        paths, listbox := RemoveFirst(paths, listbox[i]), DeleteAt(listbox, i);
        k := k - 1;
      }
      assert sel[..0] == [];
    }

    /** clear_folders. */
    method ClearFolders()
      requires Valid()
      modifies this`paths, this`listbox
      ensures Valid() && paths == [] && listbox == []
    {
      paths := [];
      listbox := [];
    }

    /** apply_filter: refill the table from `_all_events`. */
    method ApplyFilter()
      modifies this`tree
      ensures tree == Shown(allEvents, searchText)
    {
      var needle := Lower(searchText);
      var shown: seq<TreeItem> := [];
      var count := 0;
      var i := 0;
      while i < |allEvents|
        invariant 0 <= i <= |allEvents|
        invariant shown == Tagged(Visible(allEvents[..i], needle))
        invariant count == |shown| < TreeMaxRows
      {
        var row := allEvents[i];
        VisibleStep(allEvents, i, needle);
        if needle != "" && !AnyFieldContains(row, needle) {
          i := i + 1;
          continue;
        }
        TaggedSnoc(Visible(allEvents[..i], needle), row);
        shown := shown + [Tag(row)];
        count := count + 1;
        i := i + 1;
        if count >= TreeMaxRows {
          break;
        }
      }
      assert |Visible(allEvents[..i], needle)| == count <= TreeMaxRows;
      VisibleCutOff(allEvents, i, needle);
      tree := shown;
    }

    /** Typing in the search box: the trace on the variable re-runs apply_filter. */
    method SetSearch(text: string)
      modifies this`searchText, this`tree
      ensures searchText == text && tree == Shown(allEvents, text)
    {
      searchText := text;
      ApplyFilter();
    }

    /**
     * on_event: append the event and refresh the table; when "send" is
     * ticked, copy the entries into the notifier as typed (unstripped) and
     * send the rendered text, which the notifier drops unless both are
     * non-empty.
     */
    method OnEvent(ts: string, eventType: string, path: string, dest: string)
      modifies this`allEvents, this`tree, notifier
      ensures allEvents == old(allEvents) + [TableRow(ts, eventType, path, dest)]
      ensures tree == Shown(allEvents, searchText)
      ensures !tgEnable ==>
        && notifier.token == old(notifier.token) && notifier.chatId == old(notifier.chatId)
        && notifier.requests == old(notifier.requests)
      ensures tgEnable ==>
        && notifier.token == tokenEntry && notifier.chatId == chatEntry
        && notifier.requests == old(notifier.requests)
             + if CredentialsPresent(tokenEntry, chatEntry)
               then [Request(SendUrl(tokenEntry), chatEntry, NotificationText(ts, eventType, path, dest))]
               else []
    {
      allEvents := allEvents + [TableRow(ts, eventType, path, dest)];
      ApplyFilter();
      if tgEnable {
        notifier.token := tokenEntry;
        notifier.chatId := chatEntry;
        notifier.SendAsync(NotificationText(ts, eventType, path, dest));
      }
    }

    /**
     * start_monitoring: with a live thread, or with no folder, show a
     * dialog and start nothing; otherwise start a new watcher thread on the
     * folders with exactly the ticked kinds as its filter.
     */
    method StartMonitoring()
      modifies this`thread, this`effects
      ensures old(thread) != null && old(thread.IsAlive()) ==>
        thread == old(thread) && effects == old(effects) + [Show(AlreadyRunning)]
      ensures !(old(thread) != null && old(thread.IsAlive())) && paths == [] ==>
        thread == old(thread) && effects == old(effects) + [Show(NoFolder)]
      ensures !(old(thread) != null && old(thread.IsAlive())) && paths != [] ==>
        && thread != null && fresh(thread) && effects == old(effects)
        && thread.paths == paths && thread.events == FilterOf(checked) && thread.buf == buf
        && thread.phase == Running && !thread.stopping && thread.steps == []
        && thread.handler == null && thread.watches == []
    {
      if thread != null && thread.IsAlive() {
        effects := effects + [Show(AlreadyRunning)];
        return;
      }
      if paths == [] {
        effects := effects + [Show(NoFolder)];
        return;
      }
      var t := new WatcherThread(paths, FilterOf(checked), buf);
      t.Start();
      thread := t;
    }

    /** stop_monitoring: ask the thread to stop and forget it. */
    method StopMonitoring()
      modifies this`thread, this`effects, thread
      ensures thread == null
      ensures old(thread) != null ==> old(thread).stopping && effects == old(effects) + [StopThread]
      ensures old(thread) != null ==>
        && old(thread).phase == old(thread.phase) && old(thread).steps == old(thread.steps)
        && old(thread).watches == old(thread.watches) && old(thread).handler == old(thread.handler)
      ensures old(thread) == null ==> effects == old(effects)
    {
      if thread != null {
        thread.Stop();
        effects := effects + [StopThread];
        thread := null;
      }
    }

    /** clear_table. */
    method ClearTable()
      modifies this`allEvents, this`tree
      ensures allEvents == [] && tree == []
    {
      allEvents := [];
      tree := [];
    }

    /**
     * on_close: stop the thread, flush the buffer, save the folders and the
     * configuration, close the window, in this order. A flush that raises
     * ends the handler: nothing is saved and the window stays.
     */
    method OnClose(insertFails: bool) returns (closed: bool)
      requires Valid()
      modifies this`thread, this`effects, thread, buf
      ensures Valid() && thread == null
      ensures old(thread) != null ==> old(thread).stopping
      ensures old(thread) != null ==>
        && old(thread).phase == old(thread.phase) && old(thread).steps == old(thread.steps)
        && old(thread).watches == old(thread.watches) && old(thread).handler == old(thread.handler)
      ensures buf.Snapshot() == FlushStep(old(buf.Snapshot()), insertFails).0
      ensures closed <==> FlushStep(old(buf.Snapshot()), insertFails).1 != InsertFailed
      ensures effects == old(effects) + (if old(thread) != null then [StopThread] else []) + [FlushEvents]
        + if closed then [SaveFolders(paths), SaveConfig(CurrentConfig()), DestroyWindow] else []
    {
      StopMonitoring();
      closed := buf.Flush(insertFails);
      effects := effects + [FlushEvents];
      if !closed {
        return;
      }
      effects := effects + [SaveFolders(paths), SaveConfig(CurrentConfig()), DestroyWindow];
    }
  }
}
