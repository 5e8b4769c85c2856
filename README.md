# cdplot: plot-data builder and point selection, in Dafny

cdplot plots the subjects that sequencing reads matched: each subject is a
point whose x is the length of its best-matching region and whose y is the
fraction of positive amino-acid matches in that region. Two parts are
modelled here.

- `title_lookup.dfy` (module `SubjectLookup`): `readForTitle`, which finds a
  subject's sequence by trying the title and the pieces Python's
  `str.split(maxsplit=1)` cuts it into. The candidate keys form a Python set,
  so the order they are tried in is an input (`order`). Python's split
  without a separator (on whitespace runs) is modelled exactly: its
  whitespace set, leading whitespace dropped, and the remainder keeping its
  trailing whitespace.
- `plot_json.dfy` (module `PlotJson`): `writeJSON`, the loop over title groups
  that builds the JSON document (`x`, `y`, `matchingQueries`, `text`,
  `subjects`, `queries`). `WriteJSON` is an imperative method proved equal to
  the left fold `Plot`. The lemmas about `Plot` give the point values, the
  parallel-list shape, the two maps and the exact fault conditions. The
  exceptions that end the run become `Err` results: `KeyError`,
  `AssertionError` and the two `ZeroDivisionError`s.
- `app_selection.dfy` (module `AppView`): the `App` component's selection
  state as a class, with the handlers for loading a file, clicking points,
  clearing the selection and exporting it as FASTA. Each handler is proved
  against a function on the `View` value. The lemmas show the invariant
  `Consistent`: colours show the flags, and both buttons are disabled exactly
  when nothing is selected. They also give the exported names and the lines
  of the exported file.

The `dark` library's title groups, best HSPs, coverage, read counts and
subject index are inputs: lists of records and a map from key to read.

## Model

| member | source | states |
|---|---|---|
| SubjectLookup.IsSpace | bin/dm-json-to-json.py:20 | the characters `str.split` without a separator splits on (Python's `str.isspace` set); `SplitOnceRebuilds` and its converses show that `SplitOnce` cuts exactly at these characters |
| SubjectLookup.SkipSpace | bin/dm-json-to-json.py:20 | the leading whitespace run that `split` discards: all whitespace, followed by a non-space or the end |
| SubjectLookup.FindSpace | bin/dm-json-to-json.py:20 | the first piece of `split` ends at the first whitespace character and holds none |
| SubjectLookup.SplitOnce | bin/dm-json-to-json.py:20 | `title.split(maxsplit=1)` returns at most two pieces, none empty |
| SubjectLookup.SplitOnceCuts | bin/dm-json-to-json.py:20 | `split(maxsplit=1)` cuts the title into leading whitespace, a token without whitespace, a whitespace run and a remainder starting with a non-space, and returns the token and the nonempty remainder |
| SubjectLookup.SplitOnceNoPiece | bin/dm-json-to-json.py:20 | no pieces only for an all-whitespace title |
| SubjectLookup.SplitOnceOnePiece | bin/dm-json-to-json.py:20 | one piece: a token without whitespace, with only whitespace around it in the title |
| SubjectLookup.SplitOnceTwoPieces | bin/dm-json-to-json.py:20 | two pieces: a token without whitespace and a remainder starting with a non-space, separated in the title by a nonempty whitespace run |
| SubjectLookup.SplitOnceRebuilds | bin/dm-json-to-json.py:20 | the pieces with whitespace around and between them rebuild the title; no pieces only for an all-whitespace title; the first piece has no whitespace; the second starts with a non-space |
| SubjectLookup.SplitOnceOfTwoPieces | bin/dm-json-to-json.py:20 | a token, whitespace and a remainder, with optional leading whitespace, split into exactly that token and remainder |
| SubjectLookup.SplitOnceOfOnePiece | bin/dm-json-to-json.py:20 | a single token padded with whitespace splits into that token alone |
| SubjectLookup.Candidates | bin/dm-json-to-json.py:20 | the keys tried, `set([title] + title.split(maxsplit=1))`; `PlainTitleIsOnlyCandidate` and `TwoWordTitleCandidates` give them for titles without and with whitespace |
| SubjectLookup.ReadForTitle | bin/dm-json-to-json.py:17-25 | trying the keys in the set's iteration order: KeyError(title) exactly when no key is in the index; otherwise the subject under the first key present |
| SubjectLookup.ReadForTitleResolves | bin/dm-json-to-json.py:17-25 | in any iteration order of the candidate set: KeyError(title) exactly when no candidate is in the index; otherwise a subject stored under a candidate; always found when the full title is a key |
| SubjectLookup.ReadForTitleOrderIrrelevant | bin/dm-json-to-json.py:20 | when all present candidates name the same subject, the set's iteration order does not change the result |
| SubjectLookup.PlainTitleIsOnlyCandidate | bin/dm-json-to-json.py:20 | a title without whitespace is its own and only candidate |
| SubjectLookup.TwoWordTitleCandidates | bin/dm-json-to-json.py:18-20 | for `a b` the candidates are the title, the first token and the remainder after the space |
| PlotJson.MatchLength | bin/dm-json-to-json.py:49 | x is `subjectEnd - subjectStart` of the best HSP; `PlotPoints` proves each plotted x is this value, nonzero and at most the subject length |
| PlotJson.MatchFraction | bin/dm-json-to-json.py:53 | y is the positive count over the match length by true division; `MatchFractionMeaning` gives its meaning and bounds |
| PlotJson.MatchFractionMeaning | bin/dm-json-to-json.py:49-54 | y times the match length is the positive count, so y is in [0, 1] when the count is in [0, match length] |
| PlotJson.QueryLengthAA | bin/dm-json-to-json.py:59-60 | `int(len / 3)` is the number of whole codons: 3n <= length < 3n + 3 |
| PlotJson.QueryNotes | bin/dm-json-to-json.py:58-70 | per-read notes in order, each the `Note` of lines 59-70 (length, codon length, unmatched codons and percentage); they fail with a division by zero exactly when some read is shorter than 3 residues |
| PlotJson.GroupRow | bin/dm-json-to-json.py:48-95 | one group's x, y, matching queries and label, or its AssertionError or ZeroDivisionError; `PlotRows` and `PlotPoints` prove each point is this row and what it holds |
| PlotJson.GroupFault | bin/dm-json-to-json.py:40-70 | a flat statement of when a group raises and which exception, in the order the loop body raises them; `StepFault` and `PlotFaults` prove the run fails exactly by it |
| PlotJson.Record | bin/dm-json-to-json.py:44-46 | each read's sequence assigned under its id, in order; `RecordKeys`, `RecordLastWins`, `RecordKeepsOthers` and `RecordAppend` give its keys and values |
| PlotJson.Step | bin/dm-json-to-json.py:40-95 | one pass of the group loop: the document with the group's subject, reads and row added, or the group's exception; `StepFault` says exactly when it fails |
| PlotJson.Plot | bin/dm-json-to-json.py:28-97 | the document writeJSON dumps, or the first exception; `PlotFaults`, `PlotRows`, `PlotPoints` and `PlotMaps` prove when it succeeds and what each list and map holds |
| PlotJson.MatchingQueries | bin/dm-json-to-json.py:56-72 | the inner loop yields the notes `QueryNotes` specifies and, when it completes, every read id in order |
| PlotJson.RecordQueries | bin/dm-json-to-json.py:44-46 | the inner loop leaves the `queries` dict as `Record` of the reads (each id assigned its sequence, in order) |
| PlotJson.AddTitle | bin/dm-json-to-json.py:40-95 | one loop pass returns exactly `Step`: the extended document, or the group's fault |
| PlotJson.WriteJSON | bin/dm-json-to-json.py:28-97 | the document dumped (or the fault raised) is `Plot` of the groups |
| PlotJson.PlotFaultIsFinal | bin/dm-json-to-json.py:39-95 | once a prefix of the groups faults, the whole run ends with that fault |
| PlotJson.StepFault | bin/dm-json-to-json.py:40-70 | one group fails exactly when `GroupFault` names a fault, and with that fault |
| PlotJson.PlotFaults | bin/dm-json-to-json.py:39-97 | the run completes exactly when no group faults; otherwise it ends with the first faulting group's fault |
| PlotJson.PlotRows | bin/dm-json-to-json.py:29-95 | on success `x`, `y`, `matchingQueries` and `text` have one entry per group, and entry i is group i's row; the sample name is kept |
| PlotJson.PlotPoints | bin/dm-json-to-json.py:48-95 | point i: x is the best HSP's length, nonzero and at most the subject length; y times x is the positive count; the matching queries are the group's read ids (`ReadIds`, line 62); every read is at least 3 long; the compact label is the resolved subject id |
| PlotJson.RowPoint | bin/dm-json-to-json.py:48-95 | a group's row has x the best HSP's length, nonzero and at most the subject length, the positive fraction as y, the read ids as matching queries, reads of at least 3, and the compact label as the subject id |
| PlotJson.RowFraction | bin/dm-json-to-json.py:53-54 | the appended y times the match length is the positive count, and y is in [0, 1] when the count is |
| PlotJson.NotesCoverReads | bin/dm-json-to-json.py:58-70 | when the notes loop completes without ZeroDivisionError, every read is at least 3 long |
| PlotJson.PlotExtends | bin/dm-json-to-json.py:39-95 | a completed prefix of the groups extends by one loop pass over the next group |
| PlotJson.MapsExtend | bin/dm-json-to-json.py:40-46 | one more resolving group assigns its subject under the subject's id and records its reads after the earlier groups' |
| PlotJson.PlotMaps | bin/dm-json-to-json.py:40-46 | on success `subjects` is each resolved subject assigned under its id, in group order, and `queries` is every alignment's read assigned under its id |
| PlotJson.QueriesKeys | bin/dm-json-to-json.py:44-46 | the keys of `queries` are exactly the read ids of all alignments |
| PlotJson.SubjectsKeys | bin/dm-json-to-json.py:40-42 | the keys of `subjects` are exactly the resolved subjects' ids |
| PlotJson.ResolveByCandidates | bin/dm-json-to-json.py:40 | a group's subject is missing exactly when none of its candidate keys is in the index, and otherwise comes from one of them |
| PlotJson.RecordKeys | bin/dm-json-to-json.py:45-46 | the recorded dict's keys are the old keys plus every read id |
| PlotJson.RecordLastWins | bin/dm-json-to-json.py:45-46 | a repeated id keeps the sequence of its last read |
| PlotJson.RecordKeepsOthers | bin/dm-json-to-json.py:45-46 | a key no read carries keeps its value |
| PlotJson.RecordAppend | bin/dm-json-to-json.py:39-46 | recording group after group is recording all their reads in one run |
| PlotJson.AllReadsMembers | bin/dm-json-to-json.py:39-46 | the reads seen by the loops are exactly the alignments' reads of all groups |
| AppView.CountSelected | src/App.js:265-270 | the count is at most the number of flags, and zero exactly when no flag is set |
| AppView.Colors | src/App.js:271-276 | one colour per flag: red exactly where selected, green exactly where not |
| AppView.Toggled | src/App.js:261-264 | the flags after negating each clicked point's flag in turn; `ToggledAt` proves each flag ends negated exactly when clicked an odd number of times |
| AppView.ToggledAt | src/App.js:261-264 | a point clicked an odd number of times in one event has its flag negated; otherwise the flag is unchanged |
| AppView.ToggleFlags | src/App.js:261-264 | the loop over the clicked points computes `Toggled` |
| AppView.CountFlags | src/App.js:265-270 | the loop over the flags computes `CountSelected` |
| AppView.PaintFlags | src/App.js:271-276 | the colour loop computes `Colors` of the flags |
| AppView.PushUnselected | src/App.js:408-412 | the loop pushes one false flag and one green colour per point of the new file: NoneSelected(n) and AllUnselected(n) |
| AppView.NoneSelectedCounts | src/App.js:408-412 | all-false flags count zero and are coloured all green |
| AppView.AfterDataChangeAsWritten | src/App.js:402-454 | handleDataChange as written: new all-false flags, all-green colours and the file's data, with the buttons' disabled flags left as they were; `DataChangeAsWrittenKeepsButtonsEnabled` shows it can break the invariant |
| AppView.AfterDataChange | src/App.js:402-454 | handleDataChange with both buttons disabled; `DataChangeResets` proves it leaves one false flag and one green colour per new point and keeps the invariant |
| AppView.AfterClick | src/App.js:260-304 | the flags toggled by the click, with colours and disabled flags recomputed from them; `ClickKeepsConsistent` proves the invariant, per-point parity and pass-through of x, y and text |
| AppView.AfterClear | src/App.js:356-392 | all flags false, all colours green, both buttons disabled; `ClearResets` proves the invariant with every flag false |
| AppView.App.constructor | src/App.js:200-243 | no points, no selection, both buttons disabled, and the invariant holds |
| AppView.App.HandleDataChange | src/App.js:402-454 | one false flag and one green colour per new point; the new data, queries and sample name are stored; both buttons are disabled (corrected, see Findings); the invariant is kept |
| AppView.DataChangeResets | src/App.js:402-454 | after loading, every flag is false and every colour green, one per new point, and the invariant holds |
| AppView.DataChangeAsWrittenKeepsButtonsEnabled | src/App.js:402-454 | as written, loading a file while a point is selected leaves both buttons enabled with nothing selected, breaking the invariant |
| AppView.App.HandleClick | src/App.js:260-304 | the new flags are the clicked points toggled, the colours and both disabled flags are recomputed from them, x, y and text are unchanged, and the invariant is kept |
| AppView.ClickKeepsConsistent | src/App.js:260-304 | from any state with one flag per point, a click establishes the invariant; each flag is negated iff its point was clicked an odd number of times; a button is disabled iff nothing is selected; red iff selected |
| AppView.App.HandleClearSelection | src/App.js:356-392 | all flags false, all colours green, both buttons disabled, the invariant kept |
| AppView.ClearResets | src/App.js:356-392 | after clearing, the invariant holds with every flag false; x, y and text are unchanged |
| AppView.AddNames | src/App.js:342-344 | the keys of the `queries` object after `queries[name] = true` for each name, in insertion order; `AddNamesSpec` gives its members and no duplicates |
| AppView.AddNamesSpec | src/App.js:342-344 | setting `queries[name] = true` adds each new name once: the keys are the old keys plus the names, without duplicates |
| AppView.AddQueryKeys | src/App.js:342-344 | the forEach over one point's matching queries leaves the object's keys as `AddNames` of the old keys |
| AppView.SelectedNames | src/App.js:338-346 | the keys collected from the selected points' matching queries among the first n points; `SelectedNamesSpec` proves they are exactly that union, each once |
| AppView.SelectedNamesSpec | src/App.js:338-346 | the collected names are exactly the matching queries of the selected points, each once |
| AppView.FastaData | src/App.js:348-351 | the forEach over the collected names pushes exactly `FastaLines` of them |
| AppView.FastaLines | src/App.js:348-351 | two lines per name: `>name`, then the read's sequence (`QueryText`, src/App.js:350: empty when unknown) |
| AppView.JoinLines | src/App.js:353 | `lines.join('\n')`; `SplitJoinLines` proves that splitting at newlines gives back lines that hold none |
| AppView.SplitJoinLines | src/App.js:353 | lines without newlines, joined with newlines, split back into the same lines |
| AppView.Export | src/App.js:338-353 | the downloaded text, the FASTA lines of the selected points' matching queries joined by newlines, or the TypeError a selected point without a query list raises (`MissingQueries`, src/App.js:342); `ExportedFile` proves the names are exactly the selected union, each once, and the file reads back as a header and a sequence per name |
| AppView.App.HandleExportSelection | src/App.js:338-353 | the handler's outcome is `Export` of the state: the FASTA lines of the selected points' matching queries joined by newlines, or a TypeError when a selected point has no query list |
| AppView.ExportedFile | src/App.js:338-353 | the exported names have no duplicates and are exactly the selected points' matching queries; read line by line, the file is a header and a sequence for each name |

## Left out

- Command-line parsing, file reading, the `dark` library's filtering (including the read-diversity filter), sorting of title groups, and `json.dump` (bin/dm-json-to-json.py:100-395). The title groups, their best HSP, coverage, read count and subject length, and the subject index are inputs.
- SubjectLookup.ReadForTitle: the iteration order of the Python set is not determined by the program, so it is an input, and no single order is modelled. Where all candidates that resolve name the same subject the order does not matter (`ReadForTitleOrderIrrelevant`). Only the set's key lookups are modelled, not `getSubjectSequence` itself.
- The candidate keys follow the code, not the comment at bin/dm-json-to-json.py:18-19 ("splitting it on its first space"). `title.split(maxsplit=1)` splits on the first run of any whitespace, and it also yields the remainder after that run, which is tried as a key too (`TwoWordTitleCandidates`).
- The verbose label's HTML and its `%d`/`%.2f` formatting: the label is a record of the interpolated values. Floating-point rounding is not modelled either: y and the percentages are exact rationals.
- The `assert` at line 50 is modelled as active (a fault). Under `python -O` it would be skipped.
- React's asynchronous `setState`, Plotly's layout and rendering, `handleHover`, `infoText`, `handleSearchChange`, `handlePlotUpdate`, `render`, and the browser `download` helper (src/App.js:254-258, 306-336, 394-400, and from 456 on). The exported text is the handler's result.
- The marker line colours of handleDataChange (src/App.js:404, 411, 429-435) are not modelled. They are all zero and no other handler reads them.
- AppView.App.HandleClick: a clicked point's index is required to be one of the plotted points. Plotly reports only its own points, and JavaScript would otherwise grow `selected` with holes.
- AppView.Export: names come out in first-seen order, where JavaScript's `Object.keys` (src/App.js:348) lists integer-like names (such as `"17"`) first, in numeric order.
- AppView.App.HandleExportSelection: names are exported in first-seen order. JavaScript's `Object.keys` lists integer-like names (such as `"17"`) first, in numeric order. Names such as `__proto__` are also treated as ordinary keys.
- AppView.App.constructor: `this.queries`, `this.matchingQueries` and `this.sampleName` are undefined before the first file. They are modelled as empty, which no handler can observe because there are no points to select.

## Findings

| source | as written | input that shows it | evidently intended | confidence | as-written member | corrected member |
|---|---|---|---|---|---|---|
| src/App.js:402-412 | handleDataChange resets every selection flag but leaves `clearSelectionDisabled` and `exportSelectionDisabled` as they were | click a point (both buttons become enabled), then drop a new JSON file: nothing is selected but both buttons stay enabled, and Export downloads an empty file | both buttons disabled, as after handleClearSelection, since the new selection is empty | medium, not executed | AppView.DataChangeAsWrittenKeepsButtonsEnabled | AppView.DataChangeResets |
