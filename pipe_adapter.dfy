/** The local-file output adapter as an object: its `tables` map and the file
    system it writes to are fields that its methods update step by step, as
    the adapter does. Each method is proved to have exactly the effect of the
    corresponding function of `AdapterModel`, so every theorem proved there
    about sequences of calls holds of the object. */
module PipeAdapter {
  import opened LineFormat
  import opened AdapterModel

  class PipeOutputAdapter {
    /** The directory the table files are written to. */
    const repository: string
    /** Table name to entry; the pipeline creates one entry per table, with
        its schema, before any call. */
    var tables: map<string, Table>
    /** The simulated file system: path to text. */
    var files: map<string, string>

    /** The adapter's state as a value. */
    function Model(): AdapterState
      reads this
    {
      AdapterState(repository, tables, files)
    }

    ghost predicate Valid()
      reads this
    {
      WellFormed(Model())
    }

    /** An adapter over `repository` whose tables have the given schemas and
        whose file system starts as `files`; no table has a path or a handle
        yet. */
    constructor (repository: string, schemas: map<string, seq<string>>, files: map<string, string>)
      ensures Valid()
      ensures this.repository == repository && this.files == files
      ensures tables.Keys == schemas.Keys
      ensures forall name :: name in schemas ==> tables[name] == Table(schemas[name], None, None)
    {
      this.repository := repository;
      this.tables := map name | name in schemas :: Table(schemas[name], None, None);
      this.files := files;
    }

    /** `create_table`. */
    method CreateTable(name: string, canOpen: bool) returns (outcome: Outcome)
      requires Valid()
      modifies this
      ensures Valid()
      ensures (Model(), outcome) == AdapterModel.CreateTable(old(Model()), name, canOpen)
    {
      if name !in tables {
        return Fail(NoSuchTable);
      }
      var outputPath := PathJoin(repository, name);
      tables := tables[name := tables[name].(outputPath := Some(outputPath))];
      assert EntryWellFormed(Model(), name);
      if !canOpen {
        return Fail(OpenFailed);
      }
      files := files[outputPath := ""];
      tables := tables[name := tables[name].(handle := Some(Handle(outputPath, Truncate, true)))];
      assert EntryWellFormed(Model(), name);
      var header := tables[name].fieldNames;
      outcome := WriteRecord(header, name);
    }

    /** `write_record`: the joined fields, then the newline, through the
        table's handle. */
    method WriteRecord(encoded: seq<string>, name: string) returns (outcome: Outcome)
      requires Valid()
      modifies this
      ensures Valid()
      ensures (Model(), outcome) == AdapterModel.WriteRecord(old(Model()), encoded, name)
    {
      if name !in tables {
        return Fail(NoSuchTable);
      }
      if tables[name].handle.None? {
        return Fail(NoHandle);
      }
      var fh := tables[name].handle.value;
      if !fh.isOpen {
        return Fail(ClosedHandle);
      }
      ghost var oldFiles := files;
      var before := Content(files, fh.path);
      files := files[fh.path := before + Join(encoded)];
      files := files[fh.path := files[fh.path] + "\n"];
      AppendAssoc(before, Join(encoded), "\n");
      assert files == oldFiles[fh.path := before + Line(encoded)];
      outcome := Ok;
    }

    /** `close_table_complete`: close the table's handle. */
    method CloseTableComplete(name: string) returns (outcome: Outcome)
      requires Valid()
      modifies this
      ensures Valid()
      ensures (Model(), outcome) == AdapterModel.CloseTable(old(Model()), name)
    {
      if name !in tables {
        return Fail(NoSuchTable);
      }
      if tables[name].handle.None? {
        return Fail(NoHandle);
      }
      var fh := tables[name].handle.value;
      tables := tables[name := tables[name].(handle := Some(fh.(isOpen := false)))];
      assert EntryWellFormed(Model(), name);
      outcome := Ok;
    }

    /** `pause_table`: the same as `close_table_complete`. */
    method PauseTable(name: string) returns (outcome: Outcome)
      requires Valid()
      modifies this
      ensures Valid()
      ensures (Model(), outcome) == AdapterModel.CloseTable(old(Model()), name)
    {
      outcome := CloseTableComplete(name);
    }

    /** `close_table_error`: the same as `close_table_complete`. */
    method CloseTableError(name: string) returns (outcome: Outcome)
      requires Valid()
      modifies this
      ensures Valid()
      ensures (Model(), outcome) == AdapterModel.CloseTable(old(Model()), name)
    {
      outcome := CloseTableComplete(name);
    }

    /** `reopen_table`: open the recorded path in append mode. */
    method ReopenTable(name: string, canOpen: bool) returns (outcome: Outcome)
      requires Valid()
      modifies this
      ensures Valid()
      ensures (Model(), outcome) == AdapterModel.ReopenTable(old(Model()), name, canOpen)
    {
      if name !in tables {
        return Fail(NoSuchTable);
      }
      if tables[name].outputPath.None? {
        return Fail(NoOutputPath);
      }
      var outputPath := tables[name].outputPath.value;
      if !canOpen {
        return Fail(OpenFailed);
      }
      files := files[outputPath := Content(files, outputPath)];
      tables := tables[name := tables[name].(handle := Some(Handle(outputPath, Append, true)))];
      assert EntryWellFormed(Model(), name);
      outcome := Ok;
    }
  }

  /** The texts of the users example, as `map_types` and the line format
      produce them. */
  lemma UsersRecords()
    ensures MapTypes([Int(1), Text("Alice")], ["id", "name"], Unicode) == ["1", "Alice"]
    ensures MapTypes([Int(2), Text("Bob")], ["id", "name"], Unicode) == ["2", "Bob"]
  {
    assert Unicode(Int(1)) == "1";
    assert Unicode(Int(2)) == "2";
  }

  /** A record of two fields is written as the first, '|', the second, and a
      newline. */
  lemma LineOfPair(a: string, b: string)
    ensures Line([a, b]) == a + "|" + b + "\n"
  {
    assert [a, b][1..] == [b];
    assert Join([b]) == b;
  }

  /** The lines of the users example. */
  lemma UsersLines()
    ensures Line(["id", "name"]) + Line(["1", "Alice"]) + Line(["2", "Bob"]) == "id|name\n1|Alice\n2|Bob\n"
  {
    LineOfPair("id", "name");
    LineOfPair("1", "Alice");
    LineOfPair("2", "Bob");
  }

  /** The users example: schema `id`, `name`; create, write (1, "Alice"),
      pause, reopen, write (2, "Bob"). The file holds the header and both
      records, each once, in order. */
  method UsersExample() returns (content: string)
    ensures content == "id|name\n1|Alice\n2|Bob\n"
  {
    UsersRecords();
    UsersLines();
    var header := ["id", "name"];
    var adapter := new PipeOutputAdapter("out", map["users" := header], map[]);
    var path := PathJoin("out", "users");
    var alice := MapTypes([Int(1), Text("Alice")], header, Unicode);
    var bob := MapTypes([Int(2), Text("Bob")], header, Unicode);

    ghost var s0 := adapter.Model();
    var outcome := adapter.CreateTable("users", true);
    CreateTableTruncates(s0, "users", true);
    assert adapter.files[path] == Line(header);

    ghost var s1 := adapter.Model();
    outcome := adapter.WriteRecord(alice, "users");
    WriteRecordAppends(s1, alice, "users");
    assert adapter.files[path] == Line(header) + Line(alice);

    ghost var s2 := adapter.Model();
    outcome := adapter.PauseTable("users");
    CloseTableCloses(s2, "users");

    ghost var s3 := adapter.Model();
    outcome := adapter.ReopenTable("users", true);
    ReopenTableAppends(s3, "users");
    assert adapter.files[path] == Line(header) + Line(alice);

    ghost var s4 := adapter.Model();
    outcome := adapter.WriteRecord(bob, "users");
    WriteRecordAppends(s4, bob, "users");
    content := adapter.files[path];
    assert content == Line(header) + Line(alice) + Line(bob);
  }
}
