// The point-selection logic of the plotting front end (class App in src/App.js).
//
// The app keeps one flag per plotted point saying whether the user has
// selected it. Loading a file resets the flags, a click toggles the clicked
// points, "Clear" unselects everything, and "Export" writes the reads that
// match the selected points as FASTA. The marker colours and the two buttons'
// disabled flags are derived from the selection. React, Plotly and the
// browser download are not modelled: the state is a class, the rendered
// trace its fields, and the exported file the text that would be downloaded.

module AppView {

  const UnselectedColor: string := "green"
  const SelectedColor: string := "red"

  /** The fields of a dropped JSON file that the app reads. */
  datatype PlotFile = PlotFile(
    sampleName: string,
    x: seq<int>,
    y: seq<real>,
    hoverText: seq<string>,
    matchingQueries: seq<seq<string>>,
    queries: map<string, string>)

  /** What the export handler does: download a text, or throw a TypeError on a missing query list. */
  datatype ExportOutcome = Download(text: string) | TypeError

  /**
   * The app's state as far as selection goes: the selection flags, the
   * plotted trace (x, y, text and marker colours), the two buttons' disabled
   * flags, and the loaded file's matching queries and read sequences.
   */
  datatype View = View(
    selected: seq<bool>,
    x: seq<int>,
    y: seq<real>,
    text: seq<string>,
    colors: seq<string>,
    clearSelectionDisabled: bool,
    exportSelectionDisabled: bool,
    matchingQueries: seq<seq<string>>,
    queries: map<string, string>,
    sampleName: string)

  /** The number of selected points, counted as the forEach over the flags does. */
  function CountSelected(s: seq<bool>): (n: nat)
    ensures n <= |s|
    ensures n == 0 <==> forall i :: 0 <= i < |s| ==> !s[i]
  {
    if s == [] then 0
    else CountSelected(s[..|s| - 1]) + (if s[|s| - 1] then 1 else 0)
  }

  function ColorOf(isSelected: bool): string
  {
    if isSelected then SelectedColor else UnselectedColor
  }

  /** The marker colours pushed one per point: red exactly where the point is selected. */
  function Colors(s: seq<bool>): (r: seq<string>)
    ensures |r| == |s|
    ensures forall i :: 0 <= i < |s| ==>
      (r[i] == SelectedColor <==> s[i]) && (r[i] == UnselectedColor <==> !s[i])
  {
    if s == [] then [] else Colors(s[..|s| - 1]) + [ColorOf(s[|s| - 1])]
  }

  function NoneSelected(n: nat): seq<bool>
  {
    seq(n, _ => false)
  }

  function AllUnselected(n: nat): seq<string>
  {
    seq(n, _ => UnselectedColor)
  }

  /** The flags after negating the flag of each clicked point in turn. */
  function Toggled(s: seq<bool>, points: seq<nat>): (r: seq<bool>)
    requires forall k :: 0 <= k < |points| ==> points[k] < |s|
    ensures |r| == |s|
  {
    if points == [] then s
    else
      var p := points[|points| - 1];
      var t := Toggled(s, points[..|points| - 1]);
      t[p := !t[p]]
  }

  /**
   * A point clicked an odd number of times in one event has its flag
   * negated; clicked an even number of times, or not at all, it keeps it.
   */
  lemma {:induction false} ToggledAt(s: seq<bool>, points: seq<nat>, i: nat)
    requires forall k :: 0 <= k < |points| ==> points[k] < |s|
    requires i < |s|
    ensures Toggled(s, points)[i] == (if multiset(points)[i] % 2 == 1 then !s[i] else s[i])
  {
    if points != [] {
      var n := |points| - 1;
      var prefix := points[..n];
      ToggledAt(s, prefix, i);
      assert points == prefix + [points[n]];
      assert multiset(points) == multiset(prefix) + multiset{points[n]};
    }
  }

  /**
   * The invariant the handlers keep: one flag and one colour per point, the
   * colours showing the flags, and both buttons disabled exactly when
   * nothing is selected.
   */
  predicate Consistent(v: View)
  {
    |v.selected| == |v.x| &&
    v.colors == Colors(v.selected) &&
    v.clearSelectionDisabled == (CountSelected(v.selected) == 0) &&
    v.exportSelectionDisabled == (CountSelected(v.selected) == 0)
  }

  /** The state before any file is loaded. */
  function Initial(): View
  {
    View([], [], [], [], [], true, true, [], map[], "")
  }

  /** handleDataChange as written: new flags, colours and data, but the buttons' disabled flags left alone. */
  function AfterDataChangeAsWritten(v: View, data: PlotFile): View
  {
    v.(selected := NoneSelected(|data.x|),
       x := data.x,
       y := data.y,
       text := data.hoverText,
       colors := AllUnselected(|data.x|),
       matchingQueries := data.matchingQueries,
       queries := data.queries,
       sampleName := data.sampleName)
  }

  /** handleDataChange with both buttons disabled, as the fresh, empty selection calls for. */
  function AfterDataChange(v: View, data: PlotFile): View
  {
    AfterDataChangeAsWritten(v, data).(clearSelectionDisabled := true, exportSelectionDisabled := true)
  }

  /** handleClick: toggle the clicked points, then recolour and recount. */
  function AfterClick(v: View, points: seq<nat>): View
    requires forall k :: 0 <= k < |points| ==> points[k] < |v.selected|
  {
    var s := Toggled(v.selected, points);
    v.(selected := s,
       colors := Colors(s),
       clearSelectionDisabled := CountSelected(s) == 0,
       exportSelectionDisabled := CountSelected(s) == 0)
  }

  /** handleClearSelection: every point unselected and uncoloured, both buttons disabled. */
  function AfterClear(v: View): View
  {
    v.(selected := NoneSelected(|v.x|),
       colors := AllUnselected(|v.x|),
       clearSelectionDisabled := true,
       exportSelectionDisabled := true)
  }

  lemma {:induction false} NoneSelectedCounts(n: nat)
    ensures CountSelected(NoneSelected(n)) == 0
    ensures Colors(NoneSelected(n)) == AllUnselected(n)
  {
    var c := Colors(NoneSelected(n));
    assert forall i :: 0 <= i < n ==> c[i] == UnselectedColor;
  }

  /**
   * Loading a file leaves one unselected, uncoloured flag per point of the
   * new file and, with both buttons disabled, keeps the invariant.
   */
  lemma DataChangeResets(v: View, data: PlotFile)
    ensures var w := AfterDataChange(v, data);
      |w.selected| == |data.x| && (forall i :: 0 <= i < |w.selected| ==> !w.selected[i]) &&
      |w.colors| == |data.x| && (forall i :: 0 <= i < |w.colors| ==> w.colors[i] == UnselectedColor) &&
      Consistent(w)
  {
    NoneSelectedCounts(|data.x|);
  }

  /**
   * As written, loading a file while points are selected leaves both
   * buttons enabled with nothing selected: the invariant breaks.
   */
  lemma DataChangeAsWrittenKeepsButtonsEnabled()
    ensures var v := View([true], [5], [0.5], ["s"], [SelectedColor], false, false, [["q"]], map["q" := "ACGT"], "S");
      var data := PlotFile("T", [7], [0.25], ["t"], [["r"]], map["r" := "TTT"]);
      Consistent(v) &&
      !Consistent(AfterDataChangeAsWritten(v, data)) &&
      CountSelected(AfterDataChangeAsWritten(v, data).selected) == 0 &&
      !AfterDataChangeAsWritten(v, data).clearSelectionDisabled
  {
    var v := View([true], [5], [0.5], ["s"], [SelectedColor], false, false, [["q"]], map["q" := "ACGT"], "S");
    assert Colors([true]) == [SelectedColor] by {
      assert [true][..0] == [];
    }
    assert CountSelected([true]) == 1 by {
      assert [true][..0] == [];
    }
    var data := PlotFile("T", [7], [0.25], ["t"], [["r"]], map["r" := "TTT"]);
    NoneSelectedCounts(1);
  }

  /**
   * A click establishes the invariant from any state with one flag per
   * point (so the as-written handleDataChange's stale buttons last only
   * until the next click); x, y and text are passed through.
   */
  lemma ClickKeepsConsistent(v: View, points: seq<nat>)
    requires |v.selected| == |v.x|
    requires forall k :: 0 <= k < |points| ==> points[k] < |v.x|
    ensures var w := AfterClick(v, points);
      Consistent(w) && w.x == v.x && w.y == v.y && w.text == v.text &&
      (w.clearSelectionDisabled <==> forall i :: 0 <= i < |w.selected| ==> !w.selected[i]) &&
      (forall i :: 0 <= i < |w.x| ==> (w.colors[i] == SelectedColor <==> w.selected[i])) &&
      forall i: nat :: i < |w.selected| ==>
        w.selected[i] == (if multiset(points)[i] % 2 == 1 then !v.selected[i] else v.selected[i])
  {
    forall i: nat | i < |v.selected|
      ensures Toggled(v.selected, points)[i] ==
        (if multiset(points)[i] % 2 == 1 then !v.selected[i] else v.selected[i])
    {
      ToggledAt(v.selected, points, i);
    }
  }

  /** Clearing keeps the invariant, with every flag false. */
  lemma ClearResets(v: View)
    ensures var w := AfterClear(v);
      Consistent(w) && w.x == v.x && w.y == v.y && w.text == v.text &&
      forall i :: 0 <= i < |w.selected| ==> !w.selected[i]
  {
    NoneSelectedCounts(|v.x|);
  }

  /** Setting `queries[name] = true` for each name: a name becomes a key once, in first-seen order. */
  function AddNames(keys: seq<string>, names: seq<string>): seq<string>
  {
    if names == [] then keys
    else
      var before := AddNames(keys, names[..|names| - 1]);
      var name := names[|names| - 1];
      if name in before then before else before + [name]
  }

  predicate NoDuplicates(s: seq<string>)
  {
    forall i, j :: 0 <= i < j < |s| ==> s[i] != s[j]
  }

  lemma {:induction false} AddNamesSpec(keys: seq<string>, names: seq<string>)
    requires NoDuplicates(keys)
    ensures NoDuplicates(AddNames(keys, names))
    ensures forall k :: k in AddNames(keys, names) <==> k in keys || k in names
  {
    if names != [] {
      var prefix := names[..|names| - 1];
      AddNamesSpec(keys, prefix);
      assert names == prefix + [names[|names| - 1]];
    }
  }

  /** A selected point among the first `n` has no matching-query list, which makes the export throw. */
  predicate MissingQueries(selected: seq<bool>, matchingQueries: seq<seq<string>>, n: nat)
  {
    exists i :: 0 <= i < n && i < |selected| && selected[i] && i >= |matchingQueries|
  }

  /** The keys of the export's `queries` object after the first `n` points. */
  function SelectedNames(selected: seq<bool>, matchingQueries: seq<seq<string>>, n: nat): seq<string>
    requires n <= |selected|
    requires !MissingQueries(selected, matchingQueries, n)
  {
    if n == 0 then []
    else
      var before := SelectedNames(selected, matchingQueries, n - 1);
      if selected[n - 1] then AddNames(before, matchingQueries[n - 1]) else before
  }

  /**
   * The exported names are exactly the matching queries of the selected
   * points, each once.
   */
  lemma {:induction false} SelectedNamesSpec(selected: seq<bool>, matchingQueries: seq<seq<string>>, n: nat)
    requires n <= |selected|
    requires !MissingQueries(selected, matchingQueries, n)
    ensures NoDuplicates(SelectedNames(selected, matchingQueries, n))
    ensures forall name :: name in SelectedNames(selected, matchingQueries, n) <==>
      exists i :: 0 <= i < n && selected[i] && name in matchingQueries[i]
  {
    if n > 0 {
      SelectedNamesSpec(selected, matchingQueries, n - 1);
      var before := SelectedNames(selected, matchingQueries, n - 1);
      if selected[n - 1] {
        AddNamesSpec(before, matchingQueries[n - 1]);
      }
    }
  }

  /** `queries[name]`, which joins as the empty string when the name is not a key. */
  function QueryText(queries: map<string, string>, name: string): string
  {
    if name in queries then queries[name] else ""
  }

  /** The FASTA lines: a header `>name` and then the read's sequence, for each name in turn. */
  function FastaLines(names: seq<string>, queries: map<string, string>): (lines: seq<string>)
    ensures |lines| == 2 * |names|
    ensures forall k :: 0 <= k < |names| ==>
      lines[2 * k] == ">" + names[k] && lines[2 * k + 1] == QueryText(queries, names[k])
  {
    if names == [] then []
    else
      var n := |names| - 1;
      FastaLines(names[..n], queries) + [">" + names[n], QueryText(queries, names[n])]
  }

  /** `lines.join('\n')`. */
  function JoinLines(lines: seq<string>): string
  {
    if lines == [] then ""
    else if |lines| == 1 then lines[0]
    else lines[0] + "\n" + JoinLines(lines[1..])
  }

  /** Index of the first newline of `s`, or `|s|`. */
  function FindNewline(s: string): (k: nat)
    ensures k <= |s|
    ensures forall i :: 0 <= i < k ==> s[i] != '\n'
    ensures k < |s| ==> s[k] == '\n'
  {
    if s == [] || s[0] == '\n' then 0 else 1 + FindNewline(s[1..])
  }

  /** Cutting a text at every newline, as a reader of the exported file does. */
  function SplitLines(s: string): seq<string>
    decreases |s|
  {
    var k := FindNewline(s);
    if k == |s| then [s] else [s[..k]] + SplitLines(s[k + 1..])
  }

  lemma {:induction false} FindNewlineOf(a: string, u: string)
    requires '\n' !in a
    requires u == [] || u[0] == '\n'
    ensures FindNewline(a + u) == |a|
  {
    if a != [] {
      assert (a + u)[0] == a[0];
      assert (a + u)[1..] == a[1..] + u;
      FindNewlineOf(a[1..], u);
    }
  }

  /** Joining lines that hold no newline and cutting the result at newlines gives the lines back. */
  lemma {:induction false} SplitJoinLines(lines: seq<string>)
    requires lines != []
    requires forall k :: 0 <= k < |lines| ==> '\n' !in lines[k]
    ensures SplitLines(JoinLines(lines)) == lines
  {
    if |lines| == 1 {
      FindNewlineOf(lines[0], []);
      assert lines[0] + [] == lines[0];
    } else {
      var rest := JoinLines(lines[1..]);
      var s := lines[0] + "\n" + rest;
      FindNewlineOf(lines[0], "\n" + rest);
      assert s == lines[0] + ("\n" + rest);
      assert s[..|lines[0]|] == lines[0];
      assert s[|lines[0]| + 1..] == rest;
      SplitJoinLines(lines[1..]);
      assert lines == [lines[0]] + lines[1..];
    }
  }

  /** The text handleExportSelection downloads, or the TypeError it throws on a missing query list. */
  function Export(v: View): ExportOutcome
    requires |v.x| <= |v.selected|
  {
    if MissingQueries(v.selected, v.matchingQueries, |v.x|) then TypeError
    else Download(JoinLines(FastaLines(SelectedNames(v.selected, v.matchingQueries, |v.x|), v.queries)))
  }

  /**
   * Read line by line, the exported file is a header and a sequence for
   * each distinct matching query of the selected points.
   */
  lemma ExportedFile(v: View)
    requires |v.x| <= |v.selected|
    requires !MissingQueries(v.selected, v.matchingQueries, |v.x|)
    ensures var names := SelectedNames(v.selected, v.matchingQueries, |v.x|);
      NoDuplicates(names) &&
      (forall name :: name in names <==> exists i :: 0 <= i < |v.x| && v.selected[i] && name in v.matchingQueries[i]) &&
      Export(v) == Download(JoinLines(FastaLines(names, v.queries))) &&
      (names != [] &&
       (forall k :: 0 <= k < |names| ==> '\n' !in names[k] && '\n' !in QueryText(v.queries, names[k])) ==>
         SplitLines(Export(v).text) == FastaLines(names, v.queries))
  {
    var names := SelectedNames(v.selected, v.matchingQueries, |v.x|);
    SelectedNamesSpec(v.selected, v.matchingQueries, |v.x|);
    var lines := FastaLines(names, v.queries);
    if names != [] &&
       (forall k :: 0 <= k < |names| ==> '\n' !in names[k] && '\n' !in QueryText(v.queries, names[k])) {
      forall j | 0 <= j < |lines| ensures '\n' !in lines[j] {
        var k := j / 2;
        if j % 2 == 0 {
          assert lines[j] == ">" + names[k];
        } else {
          assert j == 2 * k + 1;
        }
      }
      SplitJoinLines(lines);
    }
  }

  /** handleDataChange's loop pushing a false flag and a green colour for each of `n` points. */
  method PushUnselected(n: nat) returns (flags: seq<bool>, colors: seq<string>)
    ensures flags == NoneSelected(n) && colors == AllUnselected(n)
  {
    flags, colors := [], [];
    var i := 0;
    while i < n
      invariant 0 <= i <= n
      invariant flags == NoneSelected(i)
      invariant colors == AllUnselected(i)
    {
      flags := flags + [false];
      colors := colors + [UnselectedColor];
      i := i + 1;
    }
  }

  /** The forEach over the clicked points, negating `selected[index]` for each. */
  method ToggleFlags(selected: seq<bool>, points: seq<nat>) returns (flags: seq<bool>)
    requires forall k :: 0 <= k < |points| ==> points[k] < |selected|
    ensures flags == Toggled(selected, points)
  {
    flags := selected;
    var k := 0;
    while k < |points|
      invariant 0 <= k <= |points|
      invariant flags == Toggled(selected, points[..k])
    {
      assert points[..k + 1][..k] == points[..k];
      var index := points[k];
      flags := flags[index := !flags[index]];
      k := k + 1;
    }
    assert points[..k] == points;
  }

  /** The forEach over the flags counting the selected points. */
  method CountFlags(flags: seq<bool>) returns (selectedCount: nat)
    ensures selectedCount == CountSelected(flags)
  {
    selectedCount := 0;
    var j := 0;
    while j < |flags|
      invariant 0 <= j <= |flags|
      invariant selectedCount == CountSelected(flags[..j])
    {
      assert flags[..j + 1][..j] == flags[..j];
      if flags[j] {
        selectedCount := selectedCount + 1;
      }
      j := j + 1;
    }
    assert flags[..j] == flags;
  }

  /** The loop over the first `n` points pushing red for a selected point and green otherwise. */
  method PaintFlags(flags: seq<bool>, n: nat) returns (newColors: seq<string>)
    requires n == |flags|
    ensures newColors == Colors(flags)
  {
    newColors := [];
    var i := 0;
    while i < n
      invariant 0 <= i <= n
      invariant newColors == Colors(flags[..i])
    {
      assert flags[..i + 1][..i] == flags[..i];
      newColors := newColors + [if flags[i] then SelectedColor else UnselectedColor];
      i := i + 1;
    }
    assert flags[..i] == flags;
  }

  /** The forEach setting `queries[name] = true` for each matching query of one point. */
  method AddQueryKeys(keys: seq<string>, group: seq<string>) returns (updated: seq<string>)
    ensures updated == AddNames(keys, group)
  {
    updated := keys;
    var j := 0;
    while j < |group|
      invariant 0 <= j <= |group|
      invariant updated == AddNames(keys, group[..j])
    {
      assert group[..j + 1][..j] == group[..j];
      if group[j] !in updated {
        updated := updated + [group[j]];
      }
      j := j + 1;
    }
    assert group[..j] == group;
  }

  /** The forEach over the collected names pushing a header and the read's sequence for each. */
  method FastaData(names: seq<string>, queries: map<string, string>) returns (data: seq<string>)
    ensures data == FastaLines(names, queries)
  {
    data := [];
    var k := 0;
    while k < |names|
      invariant 0 <= k <= |names|
      invariant data == FastaLines(names[..k], queries)
    {
      assert names[..k + 1][..k] == names[..k];
      var sequence := if names[k] in queries then queries[names[k]] else "";
      data := data + [">" + names[k], sequence];
      k := k + 1;
    }
    assert names[..k] == names;
  }

  /**
   * The App component's selection state. Fields mirror `this.selected`,
   * the plotted trace in `this.state.json.data[0]`, the two disabled flags
   * in `this.state`, and `this.matchingQueries` / `this.queries`.
   */
  class App {
    var selected: seq<bool>
    var x: seq<int>
    var y: seq<real>
    var text: seq<string>
    var colors: seq<string>
    var clearSelectionDisabled: bool
    var exportSelectionDisabled: bool
    var matchingQueries: seq<seq<string>>
    var queries: map<string, string>
    var sampleName: string

    function State(): View
      reads this
    {
      View(selected, x, y, text, colors, clearSelectionDisabled, exportSelectionDisabled,
           matchingQueries, queries, sampleName)
    }

    ghost predicate Valid()
      reads this
    {
      Consistent(State())
    }

    constructor ()
      ensures Valid() && State() == Initial()
    {
      selected := [];
      x, y, text, colors := [], [], [], [];
      clearSelectionDisabled, exportSelectionDisabled := true, true;
      matchingQueries, queries, sampleName := [], map[], "";
      NoneSelectedCounts(0);
    }

    /** handleDataChange: one false flag and one unselected colour pushed per point of the new file. */
    method HandleDataChange(data: PlotFile)
      modifies this
      ensures Valid()
      ensures State() == AfterDataChange(old(State()), data)
    {
      ghost var before := State();
      sampleName := data.sampleName;
      var newSelected, newColors := PushUnselected(|data.x|);
      selected := newSelected;
      queries := data.queries;
      matchingQueries := data.matchingQueries;
      x, y, text, colors := data.x, data.y, data.hoverText, newColors;
      clearSelectionDisabled, exportSelectionDisabled := true, true;
      assert State() == AfterDataChange(before, data);
      DataChangeResets(before, data);
    }

    /** handleClick: negate each clicked point's flag, count the selection, rebuild the colours. */
    method HandleClick(points: seq<nat>)
      requires Valid()
      requires forall k :: 0 <= k < |points| ==> points[k] < |x|
      modifies this
      ensures Valid()
      ensures State() == AfterClick(old(State()), points)
    {
      ghost var before := State();
      var flags := ToggleFlags(selected, points);
      var selectedCount := CountFlags(flags);
      var newColors := PaintFlags(flags, |x|);
      selected := flags;
      clearSelectionDisabled := selectedCount == 0;
      exportSelectionDisabled := selectedCount == 0;
      colors := newColors;
      assert State() == AfterClick(before, points);
      ClickKeepsConsistent(before, points);
    }

    /** handleClearSelection: for every point, push the unselected colour and clear its flag. */
    method HandleClearSelection()
      requires Valid()
      modifies this
      ensures Valid()
      ensures State() == AfterClear(old(State()))
    {
      var newColors: seq<string> := [];
      var flags := selected;
      var i := 0;
      while i < |x|
        invariant 0 <= i <= |x|
        invariant |flags| == |x|
        invariant flags[..i] == NoneSelected(i)
        invariant newColors == AllUnselected(i)
      {
        newColors := newColors + [UnselectedColor];
        flags := flags[i := false];
        i := i + 1;
      }
      assert flags == flags[..i];
      selected := flags;
      clearSelectionDisabled, exportSelectionDisabled := true, true;
      colors := newColors;
      NoneSelectedCounts(|x|);
    }

    /**
     * handleExportSelection: gather the matching queries of the selected
     * points as the keys of an object, then emit a header and a sequence
     * line per key, joined with newlines. TypeError: a selected point without a
     * matching-query list, on which the forEach throws.
     */
    method HandleExportSelection() returns (file: ExportOutcome)
      requires Valid()
      ensures file == Export(State())
    {
      var names: seq<string> := [];
      var i := 0;
      while i < |x|
        invariant 0 <= i <= |x|
        invariant !MissingQueries(selected, matchingQueries, i)
        invariant names == SelectedNames(selected, matchingQueries, i)
      {
        if selected[i] {
          if i >= |matchingQueries| {
            assert MissingQueries(selected, matchingQueries, |x|);
            return TypeError;
          }
          names := AddQueryKeys(names, matchingQueries[i]);
        }
        i := i + 1;
      }
      var data := FastaData(names, queries);
      file := Download(JoinLines(data));
    }
  }
}
