/**
 * The summary table (`create_summary_table`).  For every `.dat` entry of the
 * waveform directory the recording's descriptions are split from its header
 * and run through the class, subclass, severity and variable passes; the
 * trigger timestamps and event identifiers are read from the same header;
 * and one row per description is appended to the table, each field list
 * padded with `None` where it is shorter than the descriptions.  An
 * exception raised for any recording ends the whole run.
 */
module Summary {
  import opened Wrappers
  import opened Taxonomy
  import opened Splitter
  import opened Classes
  import opened Subclasses
  import opened Severity
  import opened Variables
  import opened Timestamps
  import opened EventIds

  /**
   * One entry of the directory listing.  `loaded` says whether
   * `comtrade.load` returned normally for it, and `hdr` is the header text
   * the shared `Comtrade` object holds afterwards: this recording's header,
   * or after a failed load whatever the object held before (`None` before
   * any header was read).
   */
  datatype DirEntry = DirEntry(name: string, loaded: bool, hdr: Option<string>)

  /** One row of the table, with the thirteen columns in table order. */
  datatype Row = Row(
    device: string, file: string, eventId: Option<string>, triggerTimestamp: Option<Timestamp>,
    date: Option<Date>, hour: Option<int>, minute: Option<int>, second: Option<int>, millisec: Option<int>,
    variable: Option<string>, cls: Option<string>, subClass: Option<string>, severity: Option<string>)

  /** The field lists computed for one recording. */
  datatype Columns = Columns(
    eventIds: seq<string>, timestamps: seq<Timestamp>, dates: seq<Date>, hours: seq<int>, minutes: seq<int>,
    seconds: seq<int>, millisecs: seq<int>, variables: seq<Option<string>>, classes: seq<Option<string>>,
    subClasses: seq<Option<string>>, severities: seq<Option<string>>)

  /** `xs[i] if i < len(xs) else None` */
  function At<T>(xs: seq<T>, i: nat): (r: Option<T>)
    ensures r.Some? <==> i < |xs|
    ensures r.Some? ==> r.value == xs[i]
  {
    if i < |xs| then Some(xs[i]) else None
  }

  /** The same for a list whose entries may themselves be `None`: both kinds of `None` are the same value. */
  function AtOrNone<T>(xs: seq<Option<T>>, i: nat): (r: Option<T>)
    ensures i >= |xs| ==> r.None?
    ensures i < |xs| ==> r == xs[i]
  {
    if i < |xs| then xs[i] else None
  }

  /** The row built for description `i`. */
  function RowAt(device: string, file: string, c: Columns, i: nat): Row {
    Row(device, file, At(c.eventIds, i), At(c.timestamps, i), At(c.dates, i), At(c.hours, i), At(c.minutes, i),
        At(c.seconds, i), At(c.millisecs, i), AtOrNone(c.variables, i), AtOrNone(c.classes, i),
        AtOrNone(c.subClasses, i), AtOrNone(c.severities, i))
  }

  /** The rows of one recording with `n` descriptions. */
  function Rows(device: string, file: string, c: Columns, n: nat): (rows: seq<Row>)
    ensures |rows| == n
    ensures forall i :: 0 <= i < n ==> rows[i].device == device && rows[i].file == file
    ensures forall i :: 0 <= i < n ==>
      (rows[i].eventId.Some? <==> i < |c.eventIds|) && (rows[i].triggerTimestamp.Some? <==> i < |c.timestamps|)
      && (i >= |c.variables| ==> rows[i].variable.None?) && (i >= |c.classes| ==> rows[i].cls.None?)
      && (i >= |c.subClasses| ==> rows[i].subClass.None?) && (i >= |c.severities| ==> rows[i].severity.None?)
  {
    seq(n, i requires 0 <= i < n => RowAt(device, file, c, i))
  }

  /** `file.endswith(".dat")` */
  predicate IsDatFile(name: string) {
    |name| >= 4 && name[|name| - 4..] == ".dat"
  }

  predicate AllDots(s: string) {
    forall k :: 0 <= k < |s| ==> s[k] == '.'
  }

  /** `s.rfind(c)`: the last index holding `c`, or -1. */
  function LastIndexOf(s: string, c: char): (i: int)
    ensures -1 <= i < |s|
    ensures i >= 0 ==> s[i] == c
    ensures forall k :: i < k < |s| ==> s[k] != c
  {
    if s == [] then -1
    else if s[|s| - 1] == c then |s| - 1
    else LastIndexOf(s[..|s| - 1], c)
  }

  /**
   * `os.path.splitext` (POSIX): the extension runs from the last dot to the
   * end when that dot lies in the last path component and is not preceded,
   * within the component, by dots only; otherwise the extension is empty.
   */
  function SplitExt(p: string): (r: (string, string))
    ensures r.0 + r.1 == p
  {
    var sep := LastIndexOf(p, '/');
    var dot := LastIndexOf(p, '.');
    if dot > sep && !AllDots(p[sep + 1..dot]) then (p[..dot], p[dot..]) else (p, "")
  }

  /** A non-empty extension is a dot followed by neither dots nor separators. */
  lemma SplitExtMeaning(p: string)
    ensures var ext := SplitExt(p).1;
      ext == [] || (ext[0] == '.' && forall k :: 1 <= k < |ext| ==> ext[k] != '.' && ext[k] != '/')
  {
    var dot := LastIndexOf(p, '.');
    if SplitExt(p).1 != [] {
      var ext := SplitExt(p).1;
      assert ext == p[dot..];
      forall k | 1 <= k < |ext| ensures ext[k] != '.' && ext[k] != '/' {
        assert ext[k] == p[dot + k];
      }
    }
  }

  /** The `file` column: the entry's name without its extension. */
  function FileStem(name: string): string {
    SplitExt(name).0
  }

  /** In a `.dat` name the last dot is the one of `.dat`, after any separator. */
  lemma DatLastDot(name: string)
    requires IsDatFile(name)
    ensures LastIndexOf(name, '.') == |name| - 4 && LastIndexOf(name, '/') < |name| - 4
  {
    var d := |name| - 4;
    assert name[d..] == ".dat";
    assert name[d] == '.' && name[d + 1] == 'd' && name[d + 2] == 'a' && name[d + 3] == 't' by {
      assert name[d..][0] == name[d] && name[d..][1] == name[d + 1];
      assert name[d..][2] == name[d + 2] && name[d..][3] == name[d + 3];
    }
  }

  /**
   * A `.dat` name loses exactly its `.dat`, unless everything before it in
   * the last component is dots (`.dat`, `...dat`), which keeps the whole name.
   */
  lemma DatFileStem(name: string)
    requires IsDatFile(name)
    ensures !AllDots(name[LastIndexOf(name, '/') + 1..|name| - 4]) ==> FileStem(name) + ".dat" == name
    ensures AllDots(name[LastIndexOf(name, '/') + 1..|name| - 4]) ==> FileStem(name) == name
  {
    DatLastDot(name);
    var d := |name| - 4;
    if !AllDots(name[LastIndexOf(name, '/') + 1..d]) {
      assert FileStem(name) == name[..d];
      assert name[..d] + name[d..] == name;
    }
  }

  /**
   * What one directory entry contributes, in the order the loop body runs:
   * the descriptions, the four passes, the trigger timestamps and their
   * decompositions, the event identifiers, then one row per description.
   */
  function RecordingRows(e: DirEntry): (r: Result<seq<Row>>)
    ensures !IsDatFile(e.name) ==> r == Success([])
    ensures r.Success? && IsDatFile(e.name) ==>
      FindMatches(e.loaded, e.hdr).Success? && |r.value| == |FindMatches(e.loaded, e.hdr).value|
      && forall i :: 0 <= i < |r.value| ==> r.value[i].device == Device() && r.value[i].file == FileStem(e.name)
  {
    if !IsDatFile(e.name) then Success([])
    else
      var matches :- FindMatches(e.loaded, e.hdr);
      var classes := ClassesOf(matches);
      var subClasses := SubclassesOf(matches, classes);
      var severities := Severities(matches);
      var variables :- VariablesOf(matches);
      var timestamps :- TriggerTimestamps(e.hdr);
      var eventIds := EventIdsOf(e.hdr).value;
      var c := Columns(eventIds, timestamps, Dates(timestamps), Hours(timestamps), Minutes(timestamps),
                       Seconds(timestamps), Millisecs(timestamps), variables, classes, subClasses, severities);
      Success(Rows(Device(), FileStem(e.name), c, |matches|))
  }

  /** The table for the entries, in listing order; the first exception raised ends the run. */
  function SummaryTable(entries: seq<DirEntry>): (r: Result<seq<Row>>)
    decreases |entries|
  {
    if entries == [] then Success([])
    else
      var rows :- RecordingRows(entries[0]);
      Prepend(rows, SummaryTable(entries[1..]))
  }

  /**
   * The row loop (lines 197-213): appends one row per description and
   * leaves the rows already in `data` as they were.
   */
  method AppendRows(data: seq<Row>, device: string, file: string, c: Columns, n: nat) returns (out: seq<Row>)
    ensures out == data + Rows(device, file, c, n)
    ensures |out| == |data| + n && out[..|data|] == data
  {
    out := data;
    var i := 0;
    while i < n
      invariant 0 <= i <= n
      invariant out == data + Rows(device, file, c, n)[..i]
    {
      assert Rows(device, file, c, n)[..i + 1] == Rows(device, file, c, n)[..i] + [RowAt(device, file, c, i)];
      out := out + [RowAt(device, file, c, i)];
      i := i + 1;
    }
    assert Rows(device, file, c, n)[..n] == Rows(device, file, c, n);
  }

  /** The loop body for one directory entry, appending to `data`. */
  method ProcessRecording(data: seq<Row>, e: DirEntry) returns (r: Result<seq<Row>>)
    ensures r == Prepend(data, RecordingRows(e))
  {
    if !IsDatFile(e.name) {
      PrependNothing(Success(data));
      assert data + [] == data;
      return Success(data);
    }
    var found := FindMatches(e.loaded, e.hdr);
    if found.Failure? {
      return Failure(found.error);
    }
    var matches := found.value;
    var classes := ExtractClasses(matches, ClassList);
    var subClasses := ExtractSubclass(matches, classes, SubClassTable);
    var severities := Severities(matches);
    var extracted := ExtractVariables(matches, TargetVariables);
    if extracted.Failure? {
      return Failure(extracted.error);
    }
    var timestamps := TriggerTimestamps(e.hdr);
    if timestamps.Failure? {
      return Failure(timestamps.error);
    }
    var eventIds := EventIdsOf(e.hdr).value;
    var ts := timestamps.value;
    var c := Columns(eventIds, ts, Dates(ts), Hours(ts), Minutes(ts), Seconds(ts), Millisecs(ts),
                     extracted.value, classes, subClasses, severities);
    var out := AppendRows(data, Device(), FileStem(e.name), c, |matches|);
    return Success(out);
  }

  /** `create_summary_table`: the loop over the directory listing. */
  method CreateSummaryTable(entries: seq<DirEntry>) returns (r: Result<seq<Row>>)
    ensures r == SummaryTable(entries)
  {
    var data: seq<Row> := [];
    var k := 0;
    PrependNothing(SummaryTable(entries));
    while k < |entries|
      invariant 0 <= k <= |entries|
      invariant Prepend(data, SummaryTable(entries[k..])) == SummaryTable(entries)
    {
      assert entries[k..][1..] == entries[k + 1..];
      var step := ProcessRecording(data, entries[k]);
      if step.Failure? {
        return Failure(step.error);
      }
      PrependAssociative(data, RecordingRows(entries[k]).value, SummaryTable(entries[k + 1..]));
      data := step.value;
      k := k + 1;
    }
    assert entries[k..] == [];
    assert data + [] == data;
    return Success(data);
  }

  /** The number of descriptions the `.dat` entries yield, when none of them raises. */
  function MatchCount(entries: seq<DirEntry>): nat
    decreases |entries|
  {
    if entries == [] then 0
    else
      var e := entries[0];
      (if IsDatFile(e.name) && FindMatches(e.loaded, e.hdr).Success? then |FindMatches(e.loaded, e.hdr).value| else 0)
      + MatchCount(entries[1..])
  }

  /**
   * The table is all or nothing: it exists exactly when no entry raises, and
   * then it holds one row per description of every `.dat` file, in listing
   * order, each file's rows after the rows of the files before it.
   */
  lemma {:induction false} SummaryTableMeaning(entries: seq<DirEntry>)
    ensures SummaryTable(entries).Success? <==>
      forall k :: 0 <= k < |entries| ==> RecordingRows(entries[k]).Success?
    ensures SummaryTable(entries).Success? ==> |SummaryTable(entries).value| == MatchCount(entries)
    ensures SummaryTable(entries).Success? && entries != [] ==>
      SummaryTable(entries).value == RecordingRows(entries[0]).value + SummaryTable(entries[1..]).value
    decreases |entries|
  {
    if entries != [] {
      SummaryTableMeaning(entries[1..]);
      assert forall k :: 1 <= k < |entries| ==> entries[1..][k - 1] == entries[k];
    }
  }

  /**
   * A recording whose files fail to load contributes no rows; if no header
   * has been read yet, the timestamp scan of the `None` header raises.
   */
  lemma FailedLoadNoRows(e: DirEntry)
    requires IsDatFile(e.name) && !e.loaded
    ensures RecordingRows(e).Success? ==> RecordingRows(e).value == []
    ensures e.hdr.None? ==> RecordingRows(e) == Failure(TypeError)
  {
  }

  /**
   * Row `i` of a recording holds entry `i` of every field list that is long
   * enough and `None` otherwise.
   */
  lemma RowsPadding(device: string, file: string, c: Columns, n: nat, i: nat)
    requires i < n
    ensures var row := Rows(device, file, c, n)[i];
      row.eventId == At(c.eventIds, i) && row.triggerTimestamp == At(c.timestamps, i)
      && row.date == At(c.dates, i) && row.hour == At(c.hours, i) && row.minute == At(c.minutes, i)
      && row.second == At(c.seconds, i) && row.millisec == At(c.millisecs, i)
      && row.variable == AtOrNone(c.variables, i) && row.cls == AtOrNone(c.classes, i)
      && row.subClass == AtOrNone(c.subClasses, i) && row.severity == AtOrNone(c.severities, i)
  {
  }
}
