/** `load_data`: the scan of the raw directory that turns every `.json` snapshot into
    one flat row, skipping the snapshots that lack a key. The directory listing is a
    parameter (in `os.listdir` order), each entry with the document `json.load`
    decodes from it; the log is the sequence of error lines the scan writes. */
module LoadRaw {
  import opened Wrappers
  import opened JsonDoc
  import opened Rows

  /** What `json.load` makes of a file: a document, or a decode error. */
  datatype Content = Parsed(doc: Json) | Undecodable

  datatype Entry = Entry(name: string, content: Content)

  /** The `[TRANSFORM] Missing key in <file>: <key>` error line. */
  datatype LogEntry = MissingKey(file: string, key: Key)

  /** An exception that escapes `load_data` and aborts the whole call. */
  datatype LoadError = DecodeError(file: string) | Uncaught(file: string, error: PyError)

  /** What one listing entry does to the scan. */
  datatype Step = Emit(row: Row) | Skip(log: seq<LogEntry>) | Abort(error: LoadError)

  /** The state of the scan: rows appended, lines logged, and the exception, if one escaped. */
  datatype Scan = Scan(rows: seq<Row>, log: seq<LogEntry>, failure: Option<LoadError>)

  predicate EndsWith(s: string, suffix: string)
  {
    |suffix| <= |s| && s[|s| - |suffix|..] == suffix
  }

  const Extension: string := ".json"

  /** The eight subscript chains the row dictionary reads, in the order Python
      evaluates them. */
  const Paths: seq<seq<Key>> := [
    [Name("name")],
    [Name("sys"), Name("country")],
    [Name("main"), Name("temp")],
    [Name("main"), Name("temp_min")],
    [Name("main"), Name("temp_max")],
    [Name("main"), Name("humidity")],
    [Name("weather"), Pos(0), Name("description")],
    [Name("wind"), Name("speed")]
  ]

  /** The values of the row dictionary, evaluated left to right as Python does:
      the first subscript chain that raises ends the construction with its exception. */
  function ReadFields(data: Json, paths: seq<seq<Key>>): (r: Result<seq<Cell>, PyError>)
    ensures r.Success? ==> |r.value| == |paths|
    decreases |paths|
  {
    if paths == [] then Success([])
    else
      var v :- GetPath(data, paths[0]);
      var rest :- ReadFields(data, paths[1..]);
      Success([ToCell(v)] + rest)
  }

  /** The row dictionary of `load_data`: the eight cells, in column order. */
  function Project(data: Json): Result<Row, PyError>
  {
    var c :- ReadFields(data, Paths);
    Success(Row(c[0], c[1], c[2], c[3], c[4], c[5], c[6], c[7], Null))
  }

  /** The row a document yields when every path is present: field i of the row is
      the cell of path i. */
  function RowOfPaths(data: Json): Row
    requires forall i :: 0 <= i < |Paths| ==> GetPath(data, Paths[i]).Success?
  {
    Row(ToCell(GetPath(data, Paths[0]).value), ToCell(GetPath(data, Paths[1]).value),
        ToCell(GetPath(data, Paths[2]).value), ToCell(GetPath(data, Paths[3]).value),
        ToCell(GetPath(data, Paths[4]).value), ToCell(GetPath(data, Paths[5]).value),
        ToCell(GetPath(data, Paths[6]).value), ToCell(GetPath(data, Paths[7]).value), Null)
  }

  /** One iteration of the loop: a name without the extension is passed over, a
      document that reads fully is a row, a KeyError is logged and recovered, and any
      other exception (an empty `weather` list, a decode error, a value that cannot be
      subscripted) escapes. */
  function Visit(e: Entry): Step
  {
    if !EndsWith(e.name, Extension) then Skip([])
    else match e.content
      case Undecodable => Abort(DecodeError(e.name))
      case Parsed(doc) =>
        match Project(doc)
        case Success(row) => Emit(row)
        case Failure(KeyError(k)) => Skip([MissingKey(e.name, k)])
        case Failure(err) => Abort(Uncaught(e.name, err))
  }

  /** One entry's effect on the scan; once an exception has escaped nothing changes. */
  function Advance(s: Scan, step: Step): Scan
  {
    if s.failure.Some? then s
    else match step
      case Emit(row) => s.(rows := s.rows + [row])
      case Skip(lines) => s.(log := s.log + lines)
      case Abort(err) => s.(failure := Some(err))
  }

  /** The steps of a listing, in listing order. */
  function Steps(dir: seq<Entry>): seq<Step>
  {
    seq(|dir|, i requires 0 <= i < |dir| => Visit(dir[i]))
  }

  /** The loop of `load_data` over a sequence of steps. */
  function Run(steps: seq<Step>): Scan
    decreases |steps|
  {
    if steps == [] then Scan([], [], None)
    else Advance(Run(steps[..|steps| - 1]), steps[|steps| - 1])
  }

  /** The scan of a listing, entry after entry. */
  function ScanDir(dir: seq<Entry>): Scan
  {
    Run(Steps(dir))
  }

  /** What `pd.DataFrame(rows)` makes of the collected rows. */
  function TableOf(rows: seq<Row>): Table
  {
    if rows == [] then Columnless else Frame(rows)
  }

  function RowsOf(s: Step): seq<Row>
  {
    if s.Emit? then [s.row] else []
  }

  function LinesOf(s: Step): seq<LogEntry>
  {
    if s.Skip? then s.log else []
  }

  /** Reference: the rows of the steps, concatenated in order. */
  function Emitted(steps: seq<Step>): seq<Row>
  {
    if steps == [] then [] else RowsOf(steps[0]) + Emitted(steps[1..])
  }

  /** Reference: the error lines of the steps, concatenated in order. */
  function Logged(steps: seq<Step>): seq<LogEntry>
  {
    if steps == [] then [] else LinesOf(steps[0]) + Logged(steps[1..])
  }

  /** `load_data` itself: a loop over the listing with the row list and the log as
      accumulators. An escaping exception ends the call with the log written so far. */
  method LoadData(dir: seq<Entry>) returns (result: Result<Table, LoadError>, log: seq<LogEntry>)
    ensures log == ScanDir(dir).log
    ensures ScanDir(dir).failure.Some? ==> result == Failure(ScanDir(dir).failure.value)
    ensures ScanDir(dir).failure.None? ==> result == Success(TableOf(ScanDir(dir).rows))
  {
    ghost var steps := Steps(dir);
    var rows: seq<Row> := [];
    log := [];
    var i := 0;
    while i < |dir|
      invariant 0 <= i <= |dir|
      invariant Run(steps[..i]) == Scan(rows, log, None)
    {
      var file := dir[i];
      RunPrefix(steps, i);
      if !EndsWith(file.name, Extension) {
        i := i + 1;
        continue;
      }
      match file.content {
        case Undecodable =>
          AbortEndsRun(steps, i);
          return Failure(DecodeError(file.name)), log;
        case Parsed(data) =>
          var projected := Project(data);
          match projected {
            case Success(row) =>
              rows := rows + [row];
            case Failure(KeyError(k)) =>
              log := log + [MissingKey(file.name, k)];
            case Failure(err) =>
              AbortEndsRun(steps, i);
              return Failure(Uncaught(file.name, err)), log;
          }
      }
      i := i + 1;
    }
    assert steps[..i] == steps;
    result := Success(TableOf(rows));
  }

  // ---------------------------------------------------------------------------
  // One document

  /** The row dictionary reads exactly the eight paths: it succeeds if and only if
      every path can be read, and then maps path i to column i; when it fails, the
      exception is that of the first path that cannot be read. */
  lemma ProjectByPaths(data: Json)
    ensures Project(data).Success? <==> forall i :: 0 <= i < |Paths| ==> GetPath(data, Paths[i]).Success?
    ensures Project(data).Success? ==> Project(data).value == RowOfPaths(data)
    ensures Project(data).Failure? ==>
              exists i :: 0 <= i < |Paths| && GetPath(data, Paths[i]) == Failure(Project(data).error) &&
                          forall j :: 0 <= j < i ==> GetPath(data, Paths[j]).Success?
  {
    ReadFieldsByPaths(data, Paths);
  }

  /** Evaluating the values left to right succeeds exactly when every chain can be
      read, then yields the cell of each chain in order; on failure the exception is
      that of the first chain that cannot be read. */
  lemma {:induction false} ReadFieldsByPaths(data: Json, paths: seq<seq<Key>>)
    ensures ReadFields(data, paths).Success? <==> forall i :: 0 <= i < |paths| ==> GetPath(data, paths[i]).Success?
    ensures ReadFields(data, paths).Success? ==>
              forall i :: 0 <= i < |paths| ==> ReadFields(data, paths).value[i] == ToCell(GetPath(data, paths[i]).value)
    ensures ReadFields(data, paths).Failure? ==>
              exists i :: 0 <= i < |paths| && GetPath(data, paths[i]) == Failure(ReadFields(data, paths).error) &&
                          forall j :: 0 <= j < i ==> GetPath(data, paths[j]).Success?
    decreases |paths|
  {
    if paths != [] {
      var tail := paths[1..];
      ReadFieldsByPaths(data, tail);
      assert forall i :: 1 <= i < |paths| ==> paths[i] == tail[i - 1];
      var r := ReadFields(data, paths);
      if r.Failure? && GetPath(data, paths[0]).Success? {
        var k :| 0 <= k < |tail| && GetPath(data, tail[k]) == Failure(r.error) &&
                 forall j :: 0 <= j < k ==> GetPath(data, tail[j]).Success?;
        assert GetPath(data, paths[k + 1]) == Failure(r.error);
      }
    }
  }

  /** An empty `weather` list is not recovered: once the six fields before it have
      been read, `weather[0]` raises IndexError and the document's entry aborts the
      scan. */
  lemma EmptyWeatherIsFatal(name: string, data: Json)
    requires EndsWith(name, Extension)
    requires forall i :: 0 <= i < 6 ==> GetPath(data, Paths[i]).Success?
    requires Subscript(data, Name("weather")) == Success(JArray([]))
    ensures Project(data) == Failure(IndexError)
    ensures Visit(Entry(name, Parsed(data))) == Abort(Uncaught(name, IndexError))
  {
    GetPathStep(data, Name("weather"), [Pos(0), Name("description")]);
    GetPathStep(JArray([]), Pos(0), [Name("description")]);
    ProjectByPaths(data);
  }

  // ---------------------------------------------------------------------------
  // The loop

  lemma RunPrefix(steps: seq<Step>, i: nat)
    requires i < |steps|
    ensures Run(steps[..i + 1]) == Advance(Run(steps[..i]), steps[i])
  {
    var upto := steps[..i + 1];
    assert upto[..|upto| - 1] == steps[..i];
  }

  /** After an exception escapes, later steps change nothing. */
  lemma {:induction false} RunAbortIsFinal(a: seq<Step>, b: seq<Step>)
    requires Run(a).failure.Some?
    ensures Run(a + b) == Run(a)
    decreases |b|
  {
    if b == [] {
      assert a + b == a;
    } else {
      var b' := b[..|b| - 1];
      assert (a + b)[..|a + b| - 1] == a + b';
      RunAbortIsFinal(a, b');
    }
  }

  /** A step that raises ends the loop there. */
  lemma AbortEndsRun(steps: seq<Step>, i: nat)
    requires i < |steps| && steps[i].Abort? && Run(steps[..i]).failure.None?
    ensures Run(steps) == Run(steps[..i]).(failure := Some(steps[i].error))
  {
    var failed := Run(steps[..i]).(failure := Some(steps[i].error));
    RunPrefix(steps, i);
    assert Run(steps[..i + 1]) == failed;
    RunAbortIsFinal(steps[..i + 1], steps[i + 1..]);
    assert steps[..i + 1] + steps[i + 1..] == steps;
  }

  lemma {:induction false} EmittedAppend(steps: seq<Step>, s: Step)
    ensures Emitted(steps + [s]) == Emitted(steps) + RowsOf(s)
    ensures Logged(steps + [s]) == Logged(steps) + LinesOf(s)
  {
    if steps != [] {
      assert (steps + [s])[1..] == steps[1..] + [s];
      EmittedAppend(steps[1..], s);
    }
  }

  /** Without an escaping exception, the rows are those of the steps in order, each
      step contributing independently of the others, and so are the error lines. */
  lemma {:induction false} RunCollects(steps: seq<Step>)
    requires Run(steps).failure.None?
    ensures Run(steps).rows == Emitted(steps)
    ensures Run(steps).log == Logged(steps)
    decreases |steps|
  {
    if steps != [] {
      var init, last := steps[..|steps| - 1], steps[|steps| - 1];
      assert steps == init + [last];
      RunCollects(init);
      EmittedAppend(init, last);
    }
  }

  /** The loop ends without an exception exactly when no step raises one. */
  lemma {:induction false} RunNoFailureIff(steps: seq<Step>)
    ensures Run(steps).failure.None? <==> forall i :: 0 <= i < |steps| ==> !steps[i].Abort?
    decreases |steps|
  {
    if steps != [] {
      var init := steps[..|steps| - 1];
      RunNoFailureIff(init);
      assert forall i :: 0 <= i < |init| ==> init[i] == steps[i];
    }
  }

  // ---------------------------------------------------------------------------
  // The scan of a listing

  lemma StepsAppend(dir: seq<Entry>, e: Entry)
    ensures Steps(dir + [e]) == Steps(dir) + [Visit(e)]
  {
  }

  /** A name without the `.json` extension contributes nothing, and the scan goes
      on with the next entry. */
  lemma ScanSkipsForeign(dir: seq<Entry>, e: Entry)
    requires !EndsWith(e.name, Extension)
    ensures ScanDir(dir + [e]) == ScanDir(dir)
  {
    StepsAppend(dir, e);
    var steps := Steps(dir + [e]);
    assert steps[..|dir|] == Steps(dir);
  }

  /** A document whose row dictionary can be built appends exactly that row and
      leaves the log alone. */
  lemma ScanAppendsRow(dir: seq<Entry>, name: string, data: Json, row: Row)
    requires ScanDir(dir).failure.None?
    requires EndsWith(name, Extension)
    requires Project(data) == Success(row)
    ensures ScanDir(dir + [Entry(name, Parsed(data))]) == ScanDir(dir).(rows := ScanDir(dir).rows + [row])
  {
    var e := Entry(name, Parsed(data));
    StepsAppend(dir, e);
    var steps := Steps(dir + [e]);
    assert steps[..|dir|] == Steps(dir);
  }

  /** A document missing a key appends no row and one error line naming the file
      and the key. */
  lemma ScanLogsMissingKey(dir: seq<Entry>, name: string, data: Json, k: Key)
    requires ScanDir(dir).failure.None?
    requires EndsWith(name, Extension)
    requires Project(data) == Failure(KeyError(k))
    ensures ScanDir(dir + [Entry(name, Parsed(data))]) ==
              ScanDir(dir).(log := ScanDir(dir).log + [MissingKey(name, k)])
  {
    var e := Entry(name, Parsed(data));
    StepsAppend(dir, e);
    var steps := Steps(dir + [e]);
    assert steps[..|dir|] == Steps(dir);
  }

  /** The scan ends without an exception exactly when no entry raises one; then its
      rows and its log are those of the entries, in listing order. */
  lemma ScanCollects(dir: seq<Entry>)
    ensures ScanDir(dir).failure.None? <==> forall i :: 0 <= i < |dir| ==> !Visit(dir[i]).Abort?
    ensures ScanDir(dir).failure.None? ==>
              ScanDir(dir).rows == Emitted(Steps(dir)) && ScanDir(dir).log == Logged(Steps(dir))
  {
    var steps := Steps(dir);
    assert |steps| == |dir| && forall i :: 0 <= i < |dir| ==> steps[i] == Visit(dir[i]);
    RunNoFailureIff(steps);
    if ScanDir(dir).failure.None? {
      RunCollects(Steps(dir));
    }
  }

  /** When entry i is the first to raise, the call fails with that exception, after
      the rows and the log of the entries before it. */
  lemma ScanFailsAtFirstAbort(dir: seq<Entry>, i: nat)
    requires i < |dir| && Visit(dir[i]).Abort?
    requires forall j :: 0 <= j < i ==> !Visit(dir[j]).Abort?
    ensures ScanDir(dir) == ScanDir(dir[..i]).(failure := Some(Visit(dir[i]).error))
  {
    var steps := Steps(dir);
    assert Steps(dir[..i]) == steps[..i];
    RunNoFailureIff(steps[..i]);
    AbortEndsRun(steps, i);
  }
}
