// The plot-data builder of bin/dm-json-to-json.py (writeJSON).
//
// For every title group that survived filtering, in iteration order, the
// script resolves the subject, records the subject's and the reads'
// sequences, and appends one entry each to the parallel lists x (match
// length), y (positive-match fraction), matchingQueries and text. The
// group's best HSP, coverage, read count and subject length come from the
// `dark` library and are inputs here. Any exception ends the run before the
// document is written, so a fault is the whole outcome.

module PlotJson {
  import opened SubjectLookup

  /** The parts of a high-scoring pair that writeJSON reads. */
  datatype Hsp = Hsp(subjectStart: int, subjectEnd: int, positiveCount: int)

  /**
   * A title group: its subject title and length, the read of each of its
   * alignments in iteration order, and the library's bestHsp(), coverage()
   * and readCount().
   */
  datatype TitleAlignments = TitleAlignments(
    subjectTitle: string,
    subjectLength: int,
    alignments: seq<Read>,
    bestHsp: Hsp,
    coverage: real,
    readCount: int)

  /** Where a division by zero happens: the positive fraction, or a query's unmatched percentage. */
  datatype Site = PositiveFraction | UnmatchedFraction

  /** The exceptions that abort writeJSON: KeyError, AssertionError, ZeroDivisionError. */
  datatype Fault =
    | MissingSubject(title: string)
    | SubjectTooShort
    | DivisionByZero(site: Site)

  datatype Result<T> = Ok(value: T) | Err(fault: Fault)

  datatype Option<T> = None | Some(value: T)

  /** The numbers the verbose label gives for one matching query. */
  datatype QueryNote = QueryNote(
    readId: string,
    queryLength: nat,
    queryLengthAA: nat,
    unmatchedAA: int,
    unmatchedPercent: real)

  /**
   * A point's label: the bare subject id, or the fields the verbose HTML
   * label interpolates (the HTML and the number formatting are not modelled).
   */
  datatype Label =
    | Compact(title: string)
    | Verbose(
        title: string,
        subjectLength: int,
        matchLength: int,
        positiveCount: int,
        positivePercent: real,
        coveragePercent: real,
        readCount: int,
        queries: seq<QueryNote>)

  /** What one group contributes to the four parallel lists. */
  datatype Row = Row(matchLength: int, matchFraction: real, matchingQueries: seq<string>, text: Label)

  /** The JSON document writeJSON dumps. */
  datatype PlotDoc = PlotDoc(
    sampleName: string,
    x: seq<int>,
    y: seq<real>,
    matchingQueries: seq<seq<string>>,
    text: seq<Label>,
    subjects: map<string, string>,
    queries: map<string, string>)

  function MatchLength(h: Hsp): int
  {
    h.subjectEnd - h.subjectStart
  }

  /** The y value: positive matches over the match length (Python's true division). */
  function MatchFraction(h: Hsp): real
    requires MatchLength(h) != 0
  {
    h.positiveCount as real / MatchLength(h) as real
  }

  /** The y value is the share of the matched region that is positive matches: in [0, 1] when the count is. */
  lemma MatchFractionMeaning(h: Hsp)
    requires MatchLength(h) != 0
    ensures MatchFraction(h) * MatchLength(h) as real == h.positiveCount as real
    ensures 0 <= h.positiveCount <= MatchLength(h) ==> 0.0 <= MatchFraction(h) <= 1.0
  {
    var m := MatchLength(h) as real;
    var p := h.positiveCount as real;
    assert p / m * m == p;
    if 0.0 <= p <= m {
      assert 0.0 < m;
      assert p / m <= m / m;
    }
  }

  /** `int(len(read) / 3)`: the read's length in whole codons. */
  function QueryLengthAA(read: Read): (n: nat)
    ensures 3 * n <= |read.sequence| < 3 * n + 3
  {
    |read.sequence| / 3
  }

  function Note(read: Read, matchLength: int): QueryNote
    requires QueryLengthAA(read) != 0
  {
    var aa := QueryLengthAA(read);
    var unmatched := aa - matchLength;
    QueryNote(read.id, |read.sequence|, aa, unmatched, unmatched as real / aa as real * 100.0)
  }

  /**
   * The per-query notes of a group, in iteration order; the unmatched
   * percentage divides by the codon length, so a read shorter than three
   * residues is a division by zero.
   */
  function QueryNotes(rs: seq<Read>, matchLength: int): (r: Result<seq<QueryNote>>)
    ensures r.Ok? <==> forall i :: 0 <= i < |rs| ==> |rs[i].sequence| >= 3
    ensures r.Err? ==> r.fault == DivisionByZero(UnmatchedFraction)
    ensures r.Ok? ==>
      |r.value| == |rs| &&
      forall i :: 0 <= i < |rs| ==> QueryLengthAA(rs[i]) != 0 && r.value[i] == Note(rs[i], matchLength)
    decreases |rs|
  {
    if rs == [] then Ok([])
    else
      var last := rs[|rs| - 1];
      match QueryNotes(rs[..|rs| - 1], matchLength)
      case Err(f) => Err(f)
      case Ok(notes) =>
        if QueryLengthAA(last) == 0 then Err(DivisionByZero(UnmatchedFraction))
        else Ok(notes + [Note(last, matchLength)])
  }

  /** The read id of each alignment, duplicates included. */
  function ReadIds(rs: seq<Read>): seq<string>
  {
    seq(|rs|, i requires 0 <= i < |rs| => rs[i].id)
  }

  /** The row of one group whose subject resolved to `subject`, or the fault that stops the run. */
  function GroupRow(g: TitleAlignments, subject: Read, verbose: bool): Result<Row>
  {
    var matchLength := MatchLength(g.bestHsp);
    if g.subjectLength < matchLength then Err(SubjectTooShort)
    else if matchLength == 0 then Err(DivisionByZero(PositiveFraction))
    else
      match QueryNotes(g.alignments, matchLength)
      case Err(f) => Err(f)
      case Ok(notes) =>
        var fraction := MatchFraction(g.bestHsp);
        var text :=
          if verbose then
            Verbose(subject.id, g.subjectLength, matchLength, g.bestHsp.positiveCount,
                    fraction * 100.0, g.coverage * 100.0, g.readCount, notes)
          else Compact(subject.id);
        Ok(Row(matchLength, fraction, ReadIds(g.alignments), text))
  }

  /** Every group's title has its candidate keys enumerated by `order`. */
  predicate OrderValid(order: string -> seq<string>, groups: seq<TitleAlignments>)
  {
    forall g :: g in groups ==> Enumerates(order(g.subjectTitle), Candidates(g.subjectTitle))
  }

  function Resolve(g: TitleAlignments, index: map<string, Read>, order: string -> seq<string>): Lookup
  {
    ReadForTitle(g.subjectTitle, order(g.subjectTitle), index)
  }

  /**
   * With each title's candidates tried in some order, a group's subject is
   * missing exactly when none of its candidate keys is in the index, and is
   * otherwise the subject stored under one of them.
   */
  lemma ResolveByCandidates(groups: seq<TitleAlignments>, index: map<string, Read>,
                            order: string -> seq<string>, i: nat)
    requires OrderValid(order, groups)
    requires i < |groups|
    ensures var t := groups[i].subjectTitle;
      (Resolve(groups[i], index, order).KeyError? <==> forall c :: c in Candidates(t) ==> c !in index) &&
      (Resolve(groups[i], index, order).Found? ==>
        exists c :: c in Candidates(t) && c in index && Resolve(groups[i], index, order).read == index[c])
  {
    assert groups[i] in groups;
    ReadForTitleResolves(groups[i].subjectTitle, order(groups[i].subjectTitle), index);
  }

  /** Dict assignment of each read's sequence under its id, in order: a later id overwrites. */
  function Record(m: map<string, string>, rs: seq<Read>): map<string, string>
    decreases |rs|
  {
    if rs == [] then m
    else
      var last := rs[|rs| - 1];
      Record(m, rs[..|rs| - 1])[last.id := last.sequence]
  }

  function EmptyDoc(sampleName: string): PlotDoc
  {
    PlotDoc(sampleName, [], [], [], [], map[], map[])
  }

  /** The document after one more group. */
  function AddGroup(doc: PlotDoc, subject: Read, rs: seq<Read>, row: Row): PlotDoc
  {
    doc.(
      x := doc.x + [row.matchLength],
      y := doc.y + [row.matchFraction],
      matchingQueries := doc.matchingQueries + [row.matchingQueries],
      text := doc.text + [row.text],
      subjects := doc.subjects[subject.id := subject.sequence],
      queries := Record(doc.queries, rs))
  }

  /** One pass of writeJSON's loop: the document after group `g`, or the fault `g` raises. */
  function Step(doc: PlotDoc, g: TitleAlignments, index: map<string, Read>, order: string -> seq<string>,
                verbose: bool): Result<PlotDoc>
  {
    match Resolve(g, index, order)
    case KeyError(t) => Err(MissingSubject(t))
    case Found(subject) =>
      match GroupRow(g, subject, verbose)
      case Err(f) => Err(f)
      case Ok(row) => Ok(AddGroup(doc, subject, g.alignments, row))
  }

  /** The document writeJSON dumps for `groups`, or the first fault. */
  function Plot(groups: seq<TitleAlignments>, index: map<string, Read>, order: string -> seq<string>,
                sampleName: string, verbose: bool): Result<PlotDoc>
    decreases |groups|
  {
    if groups == [] then Ok(EmptyDoc(sampleName))
    else
      var g := groups[|groups| - 1];
      match Plot(groups[..|groups| - 1], index, order, sampleName, verbose)
      case Err(f) => Err(f)
      case Ok(doc) => Step(doc, g, index, order, verbose)
  }

  /** A completed prefix of the groups extends by one loop pass over the next group. */
  lemma PlotExtends(groups: seq<TitleAlignments>, i: nat, index: map<string, Read>,
                    order: string -> seq<string>, sampleName: string, verbose: bool)
    requires i < |groups|
    requires Plot(groups[..i], index, order, sampleName, verbose).Ok?
    ensures Plot(groups[..i + 1], index, order, sampleName, verbose) ==
      Step(Plot(groups[..i], index, order, sampleName, verbose).value, groups[i], index, order, verbose)
  {
    assert groups[..i + 1][..i] == groups[..i];
  }

  /** Once a prefix of the groups faults, the run ends with that fault. */
  lemma {:induction false} PlotFaultIsFinal(groups: seq<TitleAlignments>, k: nat, index: map<string, Read>,
                                            order: string -> seq<string>, sampleName: string, verbose: bool)
    requires k <= |groups|
    requires Plot(groups[..k], index, order, sampleName, verbose).Err?
    ensures Plot(groups, index, order, sampleName, verbose) == Plot(groups[..k], index, order, sampleName, verbose)
    decreases |groups|
  {
    if k == |groups| {
      assert groups[..k] == groups;
    } else {
      var prefix := groups[..|groups| - 1];
      assert prefix[..k] == groups[..k];
      PlotFaultIsFinal(prefix, k, index, order, sampleName, verbose);
    }
  }

  /** Every read id that is a key of the recorded map, and no other new key. */
  lemma {:induction false} RecordKeys(m: map<string, string>, rs: seq<Read>)
    ensures forall k :: k in Record(m, rs) <==> k in m || exists r :: r in rs && r.id == k
    decreases |rs|
  {
    if rs != [] {
      var prefix := rs[..|rs| - 1];
      RecordKeys(m, prefix);
      assert rs == prefix + [rs[|rs| - 1]];
    }
  }

  /** The last read carrying an id is the one whose sequence the map keeps. */
  lemma {:induction false} RecordLastWins(m: map<string, string>, rs: seq<Read>, i: nat)
    requires i < |rs|
    requires forall j :: i < j < |rs| ==> rs[j].id != rs[i].id
    ensures rs[i].id in Record(m, rs) && Record(m, rs)[rs[i].id] == rs[i].sequence
    decreases |rs|
  {
    if i < |rs| - 1 {
      RecordLastWins(m, rs[..|rs| - 1], i);
    }
  }

  /** A key no read carries keeps its old value. */
  lemma {:induction false} RecordKeepsOthers(m: map<string, string>, rs: seq<Read>, k: string)
    requires k in m
    requires forall j :: 0 <= j < |rs| ==> rs[j].id != k
    ensures k in Record(m, rs) && Record(m, rs)[k] == m[k]
    decreases |rs|
  {
    if rs != [] {
      RecordKeepsOthers(m, rs[..|rs| - 1], k);
    }
  }

  /** Recording two runs of reads one after the other is recording their concatenation. */
  lemma {:induction false} RecordAppend(m: map<string, string>, a: seq<Read>, b: seq<Read>)
    ensures Record(Record(m, a), b) == Record(m, a + b)
    decreases |b|
  {
    if b == [] {
      assert a + b == a;
    } else {
      var b' := b[..|b| - 1];
      RecordAppend(m, a, b');
      assert (a + b)[..|a + b| - 1] == a + b';
    }
  }

  /** The reads of all alignments of all groups, group after group. */
  function AllReads(groups: seq<TitleAlignments>): seq<Read>
    decreases |groups|
  {
    if groups == [] then []
    else AllReads(groups[..|groups| - 1]) + groups[|groups| - 1].alignments
  }

  lemma {:induction false} AllReadsMembers(groups: seq<TitleAlignments>)
    ensures forall r :: r in AllReads(groups) <==> exists g :: g in groups && r in g.alignments
    decreases |groups|
  {
    if groups != [] {
      var prefix := groups[..|groups| - 1];
      AllReadsMembers(prefix);
      assert groups == prefix + [groups[|groups| - 1]];
    }
  }

  /** Every group's subject resolves. */
  predicate AllResolve(groups: seq<TitleAlignments>, index: map<string, Read>, order: string -> seq<string>)
  {
    forall g :: g in groups ==> Resolve(g, index, order).Found?
  }

  /** The resolved subject of each group, in order. */
  function Subjects(groups: seq<TitleAlignments>, index: map<string, Read>, order: string -> seq<string>): seq<Read>
    requires AllResolve(groups, index, order)
  {
    seq(|groups|, i requires 0 <= i < |groups| => Resolve(groups[i], index, order).read)
  }

  /**
   * The fault a group raises, found without building anything: a subject
   * no candidate key resolves, a best HSP longer than the subject, an empty
   * best HSP, or a read shorter than one codon.
   */
  function GroupFault(g: TitleAlignments, index: map<string, Read>, order: string -> seq<string>): Option<Fault>
  {
    var matchLength := MatchLength(g.bestHsp);
    if Resolve(g, index, order).KeyError? then Some(MissingSubject(g.subjectTitle))
    else if g.subjectLength < matchLength then Some(SubjectTooShort)
    else if matchLength == 0 then Some(DivisionByZero(PositiveFraction))
    else if exists r :: r in g.alignments && |r.sequence| < 3 then Some(DivisionByZero(UnmatchedFraction))
    else None
  }

  /** One group's step fails exactly with the fault GroupFault names. */
  lemma StepFault(doc: PlotDoc, g: TitleAlignments, index: map<string, Read>, order: string -> seq<string>,
                  verbose: bool)
    ensures Step(doc, g, index, order, verbose).Err? <==> GroupFault(g, index, order).Some?
    ensures Step(doc, g, index, order, verbose).Err? ==>
      Step(doc, g, index, order, verbose).fault == GroupFault(g, index, order).value
  {
    var matchLength := MatchLength(g.bestHsp);
    if Resolve(g, index, order).Found? && matchLength <= g.subjectLength && matchLength != 0 {
      if QueryNotes(g.alignments, matchLength).Err? {
        var i :| 0 <= i < |g.alignments| && !(|g.alignments[i].sequence| >= 3);
        assert g.alignments[i] in g.alignments;
      }
    }
  }

  /**
   * writeJSON completes exactly when no group faults; otherwise it stops
   * with the fault of the first group that has one.
   */
  lemma {:induction false} PlotFaults(groups: seq<TitleAlignments>, index: map<string, Read>,
                                      order: string -> seq<string>, sampleName: string, verbose: bool)
    ensures Plot(groups, index, order, sampleName, verbose).Ok? <==>
      forall g :: g in groups ==> GroupFault(g, index, order).None?
    ensures Plot(groups, index, order, sampleName, verbose).Err? ==>
      exists i :: 0 <= i < |groups| &&
        GroupFault(groups[i], index, order) == Some(Plot(groups, index, order, sampleName, verbose).fault) &&
        forall j :: 0 <= j < i ==> GroupFault(groups[j], index, order).None?
    decreases |groups|
  {
    if groups != [] {
      var n := |groups| - 1;
      var prefix := groups[..n];
      var g := groups[n];
      assert groups == prefix + [g];
      PlotFaults(prefix, index, order, sampleName, verbose);
      match Plot(prefix, index, order, sampleName, verbose)
      case Err(f) =>
        var i :| 0 <= i < |prefix| && GroupFault(prefix[i], index, order) == Some(f) &&
          forall j :: 0 <= j < i ==> GroupFault(prefix[j], index, order).None?;
        assert groups[i] == prefix[i];
      case Ok(doc) =>
        StepFault(doc, g, index, order, verbose);
        if Step(doc, g, index, order, verbose).Err? {
          assert forall j :: 0 <= j < n ==> GroupFault(groups[j], index, order).None? by {
            forall j | 0 <= j < n ensures GroupFault(groups[j], index, order).None? {
              assert groups[j] == prefix[j] && prefix[j] in prefix;
            }
          }
        }
    }
  }

  /**
   * When writeJSON completes, x, y, matchingQueries and text all have one
   * entry per group, and entry i of each is group i's row.
   */
  lemma {:induction false} PlotRows(groups: seq<TitleAlignments>, index: map<string, Read>,
                                    order: string -> seq<string>, sampleName: string, verbose: bool)
    ensures Plot(groups, index, order, sampleName, verbose).Ok? ==>
      var d := Plot(groups, index, order, sampleName, verbose).value;
      d.sampleName == sampleName &&
      |d.x| == |groups| && |d.y| == |groups| && |d.matchingQueries| == |groups| && |d.text| == |groups| &&
      forall i :: 0 <= i < |groups| ==>
        Resolve(groups[i], index, order).Found? &&
        GroupRow(groups[i], Resolve(groups[i], index, order).read, verbose) ==
          Ok(Row(d.x[i], d.y[i], d.matchingQueries[i], d.text[i]))
    decreases |groups|
  {
    if groups != [] {
      var n := |groups| - 1;
      var prefix := groups[..n];
      var g := groups[n];
      PlotRows(prefix, index, order, sampleName, verbose);
      var p := Plot(groups, index, order, sampleName, verbose);
      if p.Ok? {
        var doc := Plot(prefix, index, order, sampleName, verbose).value;
        assert p == Step(doc, g, index, order, verbose);
        var subject := Resolve(g, index, order).read;
        var row := GroupRow(g, subject, verbose).value;
        assert GroupRow(g, subject, verbose) == Ok(row);
        var d := p.value;
        assert d == AddGroup(doc, subject, g.alignments, row);
        forall i | 0 <= i < |groups|
          ensures Resolve(groups[i], index, order).Found? &&
            GroupRow(groups[i], Resolve(groups[i], index, order).read, verbose) ==
              Ok(Row(d.x[i], d.y[i], d.matchingQueries[i], d.text[i]))
        {
          if i < n {
            var h := groups[i];
            assert h == prefix[i] && h in prefix;
            assert Resolve(h, index, order).Found? &&
              GroupRow(h, Resolve(h, index, order).read, verbose) ==
                Ok(Row(doc.x[i], doc.y[i], doc.matchingQueries[i], doc.text[i]));
            assert d.x[i] == doc.x[i] && d.y[i] == doc.y[i];
            assert d.matchingQueries[i] == doc.matchingQueries[i] && d.text[i] == doc.text[i];
          } else {
            assert Row(d.x[i], d.y[i], d.matchingQueries[i], d.text[i]) == row;
          }
        }
      }
    }
  }

  /**
   * What each plotted point is: x is the best HSP's match length, never
   * longer than the subject and never zero; y times x is the positive count,
   * so y lies in [0, 1] when the count does not exceed the match length; the
   * matching queries are the group's read ids in order; and without verbose
   * labels the text is the resolved subject's id. Every read of the group is
   * at least one codon long.
   */
  lemma {:induction false} PlotPoints(groups: seq<TitleAlignments>, index: map<string, Read>,
                   order: string -> seq<string>, sampleName: string, verbose: bool, i: nat)
    requires Plot(groups, index, order, sampleName, verbose).Ok?
    requires i < |groups|
    ensures var d := Plot(groups, index, order, sampleName, verbose).value;
      var h := groups[i].bestHsp;
      i < |d.x| && i < |d.y| && i < |d.matchingQueries| && i < |d.text| &&
      d.x[i] == MatchLength(h) && d.x[i] <= groups[i].subjectLength && d.x[i] != 0 &&
      d.y[i] * d.x[i] as real == h.positiveCount as real &&
      (0 <= h.positiveCount <= d.x[i] ==> 0.0 <= d.y[i] <= 1.0) &&
      d.matchingQueries[i] == ReadIds(groups[i].alignments) &&
      (forall r :: r in groups[i].alignments ==> |r.sequence| >= 3) &&
      Resolve(groups[i], index, order).Found? &&
      (!verbose ==> d.text[i] == Compact(Resolve(groups[i], index, order).read.id))
  {
    PlotRows(groups, index, order, sampleName, verbose);
    var d := Plot(groups, index, order, sampleName, verbose).value;
    RowPoint(groups[i], Resolve(groups[i], index, order).read, verbose,
             Row(d.x[i], d.y[i], d.matchingQueries[i], d.text[i]));
  }

  /** The facts `PlotPoints` gives, for one row on its own. */
  lemma RowPoint(g: TitleAlignments, subject: Read, verbose: bool, row: Row)
    requires GroupRow(g, subject, verbose) == Ok(row)
    ensures var h := g.bestHsp;
      row.matchLength == MatchLength(h) && row.matchLength <= g.subjectLength && row.matchLength != 0 &&
      row.matchFraction * row.matchLength as real == h.positiveCount as real &&
      (0 <= h.positiveCount <= row.matchLength ==> 0.0 <= row.matchFraction <= 1.0) &&
      row.matchingQueries == ReadIds(g.alignments) &&
      (forall r :: r in g.alignments ==> |r.sequence| >= 3) &&
      (!verbose ==> row.text == Compact(subject.id))
  {
    var matchLength := MatchLength(g.bestHsp);
    assert matchLength <= g.subjectLength && matchLength != 0;
    assert QueryNotes(g.alignments, matchLength).Ok?;
    assert row.matchFraction == MatchFraction(g.bestHsp);
    RowFraction(g.bestHsp, row.matchFraction);
    NotesCoverReads(g.alignments, matchLength);
  }

  /** The y of a row is the best HSP's positive fraction, with its meaning and bound. */
  lemma RowFraction(h: Hsp, y: real)
    requires MatchLength(h) != 0
    requires y == MatchFraction(h)
    ensures y * MatchLength(h) as real == h.positiveCount as real
    ensures 0 <= h.positiveCount <= MatchLength(h) ==> 0.0 <= y <= 1.0
  {
    MatchFractionMeaning(h);
  }

  /** Notes for every read exist only when every read is at least one codon long. */
  lemma NotesCoverReads(rs: seq<Read>, matchLength: int)
    requires QueryNotes(rs, matchLength).Ok?
    ensures forall r :: r in rs ==> |r.sequence| >= 3
  {
    forall r | r in rs ensures |r.sequence| >= 3 {
      var j :| 0 <= j < |rs| && rs[j] == r;
    }
  }

  /**
   * The two maps: subjects holds each group's resolved subject under the
   * subject's id, queries each alignment's read under the read's id, both
   * assigned in iteration order so a repeated id keeps the last sequence.
   */
  lemma {:induction false} PlotMaps(groups: seq<TitleAlignments>, index: map<string, Read>,
                                    order: string -> seq<string>, sampleName: string, verbose: bool)
    ensures Plot(groups, index, order, sampleName, verbose).Ok? ==>
      AllResolve(groups, index, order) &&
      Plot(groups, index, order, sampleName, verbose).value.subjects == Record(map[], Subjects(groups, index, order)) &&
      Plot(groups, index, order, sampleName, verbose).value.queries == Record(map[], AllReads(groups))
    decreases |groups|
  {
    if groups != [] {
      var n := |groups| - 1;
      var prefix := groups[..n];
      var g := groups[n];
      PlotMaps(prefix, index, order, sampleName, verbose);
      var p := Plot(groups, index, order, sampleName, verbose);
      if p.Ok? {
        var doc := Plot(prefix, index, order, sampleName, verbose).value;
        assert p == Step(doc, g, index, order, verbose);
        var subject := Resolve(g, index, order).read;
        var row := GroupRow(g, subject, verbose).value;
        assert GroupRow(g, subject, verbose) == Ok(row);
        assert p.value == AddGroup(doc, subject, g.alignments, row);
        assert groups == prefix + [g];
        MapsExtend(prefix, g, index, order);
      }
    }
  }

  /** Adding one resolving group extends the resolved subjects and the reads by that group's. */
  lemma MapsExtend(prefix: seq<TitleAlignments>, g: TitleAlignments, index: map<string, Read>,
                   order: string -> seq<string>)
    requires AllResolve(prefix, index, order)
    requires Resolve(g, index, order).Found?
    ensures AllResolve(prefix + [g], index, order)
    ensures var subject := Resolve(g, index, order).read;
      Record(map[], Subjects(prefix + [g], index, order)) ==
        Record(map[], Subjects(prefix, index, order))[subject.id := subject.sequence]
    ensures Record(map[], AllReads(prefix + [g])) == Record(Record(map[], AllReads(prefix)), g.alignments)
  {
    var groups := prefix + [g];
    assert groups[..|prefix|] == prefix;
    forall h | h in groups ensures Resolve(h, index, order).Found? {
      if h != g {
        assert h in prefix;
      }
    }
    var before := Subjects(prefix, index, order);
    var s := Subjects(groups, index, order);
    assert s == before + [Resolve(g, index, order).read];
    assert s[..|s| - 1] == before;
    RecordAppend(map[], AllReads(prefix), g.alignments);
  }

  /** Corollary: the keys of queries are exactly the read ids of all alignments of all groups. */
  lemma QueriesKeys(groups: seq<TitleAlignments>, index: map<string, Read>,
                    order: string -> seq<string>, sampleName: string, verbose: bool)
    requires Plot(groups, index, order, sampleName, verbose).Ok?
    ensures forall k :: k in Plot(groups, index, order, sampleName, verbose).value.queries <==>
      exists g, r :: g in groups && r in g.alignments && r.id == k
  {
    PlotMaps(groups, index, order, sampleName, verbose);
    RecordKeys(map[], AllReads(groups));
    AllReadsMembers(groups);
  }

  /** Corollary: the keys of subjects are exactly the resolved subjects' ids. */
  lemma SubjectsKeys(groups: seq<TitleAlignments>, index: map<string, Read>,
                     order: string -> seq<string>, sampleName: string, verbose: bool)
    requires Plot(groups, index, order, sampleName, verbose).Ok?
    ensures AllResolve(groups, index, order)
    ensures forall k :: k in Plot(groups, index, order, sampleName, verbose).value.subjects <==>
      exists i :: 0 <= i < |groups| && Resolve(groups[i], index, order).read.id == k
  {
    PlotMaps(groups, index, order, sampleName, verbose);
    var s := Subjects(groups, index, order);
    var subjects := Plot(groups, index, order, sampleName, verbose).value.subjects;
    RecordKeys(map[], s);
    forall k | k in subjects
      ensures exists i :: 0 <= i < |groups| && Resolve(groups[i], index, order).read.id == k
    {
      var r :| r in s && r.id == k;
      var i :| 0 <= i < |s| && s[i] == r;
    }
    forall i | 0 <= i < |groups| ensures Resolve(groups[i], index, order).read.id in subjects {
      assert s[i] in s;
    }
  }

  /** The inner loop that records each alignment's read sequence under its id. */
  method RecordQueries(queries: map<string, string>, alignments: seq<Read>) returns (updated: map<string, string>)
    ensures updated == Record(queries, alignments)
  {
    updated := queries;
    var j := 0;
    while j < |alignments|
      invariant 0 <= j <= |alignments|
      invariant updated == Record(queries, alignments[..j])
    {
      assert alignments[..j + 1][..j] == alignments[..j];
      updated := updated[alignments[j].id := alignments[j].sequence];
      j := j + 1;
    }
    assert alignments[..j] == alignments;
  }

  /**
   * The inner loop that lists the matching queries and their notes; it stops
   * at the first read too short to have a codon length.
   */
  method MatchingQueries(alignments: seq<Read>, matchLength: int)
    returns (matching: seq<string>, notes: Result<seq<QueryNote>>)
    ensures notes == QueryNotes(alignments, matchLength)
    ensures notes.Ok? ==> matching == ReadIds(alignments)
  {
    matching := [];
    var noted: seq<QueryNote> := [];
    var j := 0;
    while j < |alignments|
      invariant 0 <= j <= |alignments|
      invariant matching == ReadIds(alignments[..j])
      invariant QueryNotes(alignments[..j], matchLength) == Ok(noted)
    {
      var read := alignments[j];
      var queryLength := |read.sequence|;
      var queryLengthAA := queryLength / 3;
      var unmatchedAA := queryLengthAA - matchLength;
      assert alignments[..j + 1][..j] == alignments[..j];
      assert alignments[..j + 1][j] == read;
      matching := matching + [read.id];
      if queryLengthAA == 0 {
        assert !(|alignments[j].sequence| >= 3);
        notes := Err(DivisionByZero(UnmatchedFraction));
        return;
      }
      noted := noted + [QueryNote(read.id, queryLength, queryLengthAA, unmatchedAA,
                                  unmatchedAA as real / queryLengthAA as real * 100.0)];
      j := j + 1;
    }
    assert alignments[..j] == alignments;
    notes := Ok(noted);
  }

  /** The body of writeJSON's loop over the title groups. */
  method AddTitle(result: PlotDoc, g: TitleAlignments, index: map<string, Read>, order: string -> seq<string>,
                  verboseLabels: bool) returns (outcome: Result<PlotDoc>)
    ensures outcome == Step(result, g, index, order, verboseLabels)
  {
    var found := ReadForTitle(g.subjectTitle, order(g.subjectTitle), index);
    if found.KeyError? {
      return Err(MissingSubject(found.key));
    }
    var subject := found.read;
    var doc := result.(subjects := result.subjects[subject.id := subject.sequence]);
    var queries := RecordQueries(doc.queries, g.alignments);
    doc := doc.(queries := queries);

    var bestHsp := g.bestHsp;
    var matchLength := bestHsp.subjectEnd - bestHsp.subjectStart;
    if g.subjectLength < matchLength {
      return Err(SubjectTooShort);
    }
    doc := doc.(x := doc.x + [matchLength]);
    if matchLength == 0 {
      return Err(DivisionByZero(PositiveFraction));
    }
    var matchFraction := bestHsp.positiveCount as real / matchLength as real;
    doc := doc.(y := doc.y + [matchFraction]);

    var matching, notes := MatchingQueries(g.alignments, matchLength);
    if notes.Err? {
      return Err(notes.fault);
    }
    doc := doc.(matchingQueries := doc.matchingQueries + [matching]);

    var text :=
      if verboseLabels then
        Verbose(subject.id, g.subjectLength, matchLength, bestHsp.positiveCount,
                matchFraction * 100.0, g.coverage * 100.0, g.readCount, notes.value)
      else Compact(subject.id);
    doc := doc.(text := doc.text + [text]);
    outcome := Ok(doc);
  }

  /**
   * writeJSON: one pass over the title groups, each adding its entries to
   * the result; the outcome is the document `Plot` describes.
   */
  method WriteJSON(groups: seq<TitleAlignments>, index: map<string, Read>, order: string -> seq<string>,
                   sampleName: string, verboseLabels: bool) returns (outcome: Result<PlotDoc>)
    ensures outcome == Plot(groups, index, order, sampleName, verboseLabels)
  {
    var result := EmptyDoc(sampleName);
    var i := 0;
    while i < |groups|
      invariant 0 <= i <= |groups|
      invariant Plot(groups[..i], index, order, sampleName, verboseLabels) == Ok(result)
    {
      PlotExtends(groups, i, index, order, sampleName, verboseLabels);
      var next := AddTitle(result, groups[i], index, order, verboseLabels);
      if next.Err? {
        PlotFaultIsFinal(groups, i + 1, index, order, sampleName, verboseLabels);
        return next;
      }
      result := next.value;
      i := i + 1;
    }
    assert groups[..i] == groups;
    outcome := Ok(result);
  }
}
