/** The state of the local-file adapter as a value: the per-table entries and a
    simulated file system mapping each path to its text. Each operation of the
    adapter is a function from the old state to the new state and an outcome;
    the adapter class is proved to do exactly what these functions say. */
module AdapterModel {
  import opened LineFormat

  datatype Option<T> = None | Some(value: T)

  /** How a file was opened: 'wb' truncates it, 'a' keeps what is there
      (creating an empty file when there is none) and writes after it. */
  datatype Mode = Truncate | Append

  /** A file handle: the path it was opened on, its mode and whether it is
      still open. */
  datatype Handle = Handle(path: string, mode: Mode, isOpen: bool)

  /** One entry of the adapter's `tables` map: the schema's field names, set by
      the pipeline, and the 'output_path' and 'fh' slots the adapter fills. */
  datatype Table = Table(fieldNames: seq<string>, outputPath: Option<string>, handle: Option<Handle>)

  /** What an operation raises: a missing table (KeyError on the table name),
      a missing 'output_path' or 'fh' slot (KeyError on the slot), a write to a
      closed handle (ValueError) or an `open` refused by the operating system
      (IOError). */
  datatype Error = NoSuchTable | NoOutputPath | NoHandle | ClosedHandle | OpenFailed

  datatype Outcome = Ok | Fail(error: Error)

  datatype AdapterState = AdapterState(repository: string, tables: map<string, Table>, files: map<string, string>)

  /** The file of table `name`: the repository directory, a '/', the name. */
  function PathJoin(repository: string, name: string): (path: string)
    ensures |path| == |repository| + 1 + |name| && path[|repository|] == '/'
  {
    repository + "/" + name
  }

  /** Distinct tables of one repository get distinct files. */
  lemma PathJoinInjective(repository: string, a: string, b: string)
    requires PathJoin(repository, a) == PathJoin(repository, b)
    ensures a == b
  {
    assert a == (repository + "/" + a)[|repository| + 1..];
    assert b == (repository + "/" + b)[|repository| + 1..];
  }

  /** The text of the file at `path`; a missing file reads as empty. */
  function Content(files: map<string, string>, path: string): string
  {
    if path in files then files[path] else ""
  }

  /** `write_record`: append the joined fields and a newline through the
      table's handle. Fails without any change when the table, its handle or
      an open handle is missing. */
  function WriteRecord(s: AdapterState, encoded: seq<string>, name: string): (r: (AdapterState, Outcome))
    ensures r.1 == Ok <==> IsOpen(s, name)
    ensures r.1 != Ok ==> r.0 == s
    ensures name !in s.tables ==> r.1 == Fail(NoSuchTable)
    ensures name in s.tables && s.tables[name].handle.None? ==> r.1 == Fail(NoHandle)
    ensures name in s.tables && s.tables[name].handle.Some? && !s.tables[name].handle.value.isOpen ==> r.1 == Fail(ClosedHandle)
  {
    if name !in s.tables then (s, Fail(NoSuchTable))
    else if s.tables[name].handle.None? then (s, Fail(NoHandle))
    else
      var fh := s.tables[name].handle.value;
      if !fh.isOpen then (s, Fail(ClosedHandle))
      else (s.(files := s.files[fh.path := Content(s.files, fh.path) + Line(encoded)]), Ok)
  }

  /** A successful write appends exactly one line, the record's, to the file
      its handle is on, and changes nothing else. */
  lemma WriteRecordAppends(s: AdapterState, encoded: seq<string>, name: string)
    requires IsOpen(s, name)
    ensures var r := WriteRecord(s, encoded, name).0;
      var path := s.tables[name].handle.value.path;
      && r.repository == s.repository
      && r.tables == s.tables
      && r.files == s.files[path := Content(s.files, path) + Line(encoded)]
  {
  }

  /** `create_table`: record the table's path, open it truncating and write
      the header line of field names through `write_record`. `canOpen` is
      whether the operating system lets the file be opened; when it does not,
      the path has already been recorded. */
  function CreateTable(s: AdapterState, name: string, canOpen: bool): (r: (AdapterState, Outcome))
    ensures r.1 == Ok <==> name in s.tables && canOpen
    ensures name !in s.tables ==> r == (s, Fail(NoSuchTable))
    ensures name in s.tables && !canOpen ==> r.1 == Fail(OpenFailed)
  {
    if name !in s.tables then (s, Fail(NoSuchTable))
    else
      var path := PathJoin(s.repository, name);
      var recorded := s.(tables := s.tables[name := s.tables[name].(outputPath := Some(path))]);
      if !canOpen then (recorded, Fail(OpenFailed))
      else
        var truncated := recorded.(
          files := recorded.files[path := ""],
          tables := recorded.tables[name := recorded.tables[name].(handle := Some(Handle(path, Truncate, true)))]);
        WriteRecord(truncated, truncated.tables[name].fieldNames, name)
  }

  /** What `create_table` leaves behind: the table's own path recorded in
      every case; when the file could be opened, an open truncating handle on
      it and a file holding just the header line, whatever it held before;
      no other entry and no other file touched. */
  lemma CreateTableTruncates(s: AdapterState, name: string, canOpen: bool)
    requires name in s.tables
    ensures var r := CreateTable(s, name, canOpen).0;
      var path := PathJoin(s.repository, name);
      var entry := s.tables[name].(outputPath := Some(path));
      && r.repository == s.repository
      && (canOpen ==>
            && r.tables == s.tables[name := entry.(handle := Some(Handle(path, Truncate, true)))]
            && r.files == s.files[path := Line(s.tables[name].fieldNames)])
      && (!canOpen ==> r.tables == s.tables[name := entry] && r.files == s.files)
  {
    if canOpen {
      var path := PathJoin(s.repository, name);
      var header := s.tables[name].fieldNames;
      var recorded := s.(tables := s.tables[name := s.tables[name].(outputPath := Some(path))]);
      var truncated := recorded.(
        files := recorded.files[path := ""],
        tables := recorded.tables[name := recorded.tables[name].(handle := Some(Handle(path, Truncate, true)))]);
      assert CreateTable(s, name, true) == WriteRecord(truncated, header, name);
      WriteRecordAppends(truncated, header, name);
      assert Content(truncated.files, path) + Line(header) == Line(header);
      assert truncated.files[path := Line(header)] == s.files[path := Line(header)];
    }
  }

  /** `close_table_complete`, and through it `pause_table` and
      `close_table_error`: close the table's handle. Closing a closed handle
      is allowed. */
  function CloseTable(s: AdapterState, name: string): (r: (AdapterState, Outcome))
    ensures r.1 == Ok <==> name in s.tables && s.tables[name].handle.Some?
    ensures r.1 != Ok ==> r.0 == s
    ensures name !in s.tables ==> r.1 == Fail(NoSuchTable)
    ensures name in s.tables && s.tables[name].handle.None? ==> r.1 == Fail(NoHandle)
  {
    if name !in s.tables then (s, Fail(NoSuchTable))
    else if s.tables[name].handle.None? then (s, Fail(NoHandle))
    else
      var fh := s.tables[name].handle.value;
      (s.(tables := s.tables[name := s.tables[name].(handle := Some(fh.(isOpen := false)))]), Ok)
  }

  /** A successful close marks the handle closed, keeps its path and mode and
      the recorded path, and leaves every file as it was. */
  lemma CloseTableCloses(s: AdapterState, name: string)
    requires name in s.tables && s.tables[name].handle.Some?
    ensures var r := CloseTable(s, name).0;
      var fh := s.tables[name].handle.value;
      && r.repository == s.repository
      && r.files == s.files
      && r.tables == s.tables[name := s.tables[name].(handle := Some(Handle(fh.path, fh.mode, false)))]
  {
  }

  /** `reopen_table`: open the recorded path again in append mode. Nothing
      checks that the table was paused. */
  function ReopenTable(s: AdapterState, name: string, canOpen: bool): (r: (AdapterState, Outcome))
    ensures r.1 == Ok <==> name in s.tables && s.tables[name].outputPath.Some? && canOpen
    ensures r.1 != Ok ==> r.0 == s
    ensures name !in s.tables ==> r.1 == Fail(NoSuchTable)
    ensures name in s.tables && s.tables[name].outputPath.None? ==> r.1 == Fail(NoOutputPath)
    ensures name in s.tables && s.tables[name].outputPath.Some? && !canOpen ==> r.1 == Fail(OpenFailed)
  {
    if name !in s.tables then (s, Fail(NoSuchTable))
    else if s.tables[name].outputPath.None? then (s, Fail(NoOutputPath))
    else
      var path := s.tables[name].outputPath.value;
      if !canOpen then (s, Fail(OpenFailed))
      else
        (s.(files := s.files[path := Content(s.files, path)],
            tables := s.tables[name := s.tables[name].(handle := Some(Handle(path, Append, true)))]), Ok)
  }

  /** A successful reopen puts an open append handle on the recorded path,
      which it does not change, and keeps the text of every file (a missing
      file is created empty). */
  lemma ReopenTableAppends(s: AdapterState, name: string)
    requires name in s.tables && s.tables[name].outputPath.Some?
    ensures var r := ReopenTable(s, name, true).0;
      var path := s.tables[name].outputPath.value;
      && r.repository == s.repository
      && r.tables == s.tables[name := s.tables[name].(handle := Some(Handle(path, Append, true)))]
      && r.files == s.files[path := Content(s.files, path)]
      && forall p :: Content(r.files, p) == Content(s.files, p)
  {
  }

  /** A call the pipeline makes on the adapter. */
  datatype Op =
    | Create(name: string, canOpen: bool)
    | Write(name: string, encoded: seq<string>)
    | CloseComplete(name: string)
    | Pause(name: string)
    | CloseError(name: string)
    | Reopen(name: string, canOpen: bool)

  function Step(s: AdapterState, op: Op): (AdapterState, Outcome)
  {
    match op
    case Create(name, canOpen) => CreateTable(s, name, canOpen)
    case Write(name, encoded) => WriteRecord(s, encoded, name)
    case CloseComplete(name) => CloseTable(s, name)
    case Pause(name) => CloseTable(s, name)
    case CloseError(name) => CloseTable(s, name)
    case Reopen(name, canOpen) => ReopenTable(s, name, canOpen)
  }

  /** The state after a sequence of calls, each applied to the state the
      previous one left, whatever its outcome. */
  function Run(s: AdapterState, ops: seq<Op>): AdapterState
    decreases |ops|
  {
    if ops == [] then s else Run(Step(s, ops[0]).0, ops[1..])
  }

  /** The record one call writes to table `name`: its record when it is a
      successful `write_record` on that table, nothing otherwise. */
  function Emitted(s: AdapterState, op: Op, name: string): seq<seq<string>>
  {
    if op.Write? && op.name == name && Step(s, op).1 == Ok then [op.encoded] else []
  }

  /** The records that the calls in `ops` wrote to table `name` successfully,
      in call order. */
  function WrittenTo(s: AdapterState, ops: seq<Op>, name: string): seq<seq<string>>
    decreases |ops|
  {
    if ops == [] then [] else Emitted(s, ops[0], name) + WrittenTo(Step(s, ops[0]).0, ops[1..], name)
  }

  /** `write_record` calls, one per record, in order. */
  function Writes(name: string, records: seq<seq<string>>): (ops: seq<Op>)
    ensures |ops| == |records|
    ensures forall k :: 0 <= k < |records| ==> ops[k] == Write(name, records[k])
  {
    if records == [] then [] else [Write(name, records[0])] + Writes(name, records[1..])
  }

  /** What the adapter keeps true of an entry: a recorded path is the table's
      own path, and a handle exists only on that recorded path, whose file then
      exists. */
  ghost predicate EntryWellFormed(s: AdapterState, name: string)
    requires name in s.tables
  {
    && (s.tables[name].outputPath.Some? ==> s.tables[name].outputPath.value == PathJoin(s.repository, name))
    && (s.tables[name].handle.Some? ==>
          && s.tables[name].outputPath.Some?
          && s.tables[name].handle.value.path == PathJoin(s.repository, name)
          && PathJoin(s.repository, name) in s.files)
  }

  ghost predicate WellFormed(s: AdapterState)
  {
    forall name :: name in s.tables ==> EntryWellFormed(s, name)
  }

  /** A table whose handle is open. */
  predicate IsOpen(s: AdapterState, name: string)
  {
    name in s.tables && s.tables[name].handle.Some? && s.tables[name].handle.value.isOpen
  }
}
