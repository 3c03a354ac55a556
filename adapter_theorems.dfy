/** What the adapter guarantees over whole sequences of calls: every call keeps
    the entries well formed, touches only its own table's entry and file, and a
    table's file holds its header line followed by exactly the records written
    to it, in call order, across pause and reopen. */
module AdapterTheorems {
  import opened LineFormat
  import opened AdapterModel

  /** The frame of one call: it keeps the repository and the set of tables,
      may change only the entry of its own table (keeping that entry's schema
      and leaving it well formed) and may change only the file of its own
      table, never removing a file. */
  lemma StepFrame(s: AdapterState, op: Op)
    requires WellFormed(s)
    ensures var r := Step(s, op).0;
      var path := PathJoin(s.repository, op.name);
      && r.repository == s.repository
      && r.tables.Keys == s.tables.Keys
      && (op.name in s.tables ==>
            && r.tables == s.tables[op.name := r.tables[op.name]]
            && r.tables[op.name].fieldNames == s.tables[op.name].fieldNames
            && EntryWellFormed(r, op.name))
      && (op.name !in s.tables ==> r.tables == s.tables)
      && s.files.Keys <= r.files.Keys
      && (r.files == s.files || (path in r.files && r.files == s.files[path := r.files[path]]))
  {
    var name := op.name;
    var r := Step(s, op);
    if name in s.tables {
      assert EntryWellFormed(s, name);
    }
    match op
    case Create(_, canOpen) =>
      if name in s.tables {
        CreateTableTruncates(s, name, canOpen);
      }
    case Write(_, encoded) =>
      if IsOpen(s, name) {
        WriteRecordAppends(s, encoded, name);
      }
    case CloseComplete(_) =>
      if r.1 == Ok {
        CloseTableCloses(s, name);
      }
    case Pause(_) =>
      if r.1 == Ok {
        CloseTableCloses(s, name);
      }
    case CloseError(_) =>
      if r.1 == Ok {
        CloseTableCloses(s, name);
      }
    case Reopen(_, canOpen) =>
      if r.1 == Ok {
        ReopenTableAppends(s, name);
      }
  }

  /** One call keeps every entry well formed, keeps the repository, the set of
      tables and their schemas, and never removes a file. */
  lemma StepPreservesWellFormed(s: AdapterState, op: Op)
    requires WellFormed(s)
    ensures var r := Step(s, op).0;
      && WellFormed(r)
      && r.repository == s.repository
      && r.tables.Keys == s.tables.Keys
      && s.files.Keys <= r.files.Keys
      && forall name :: name in s.tables ==> r.tables[name].fieldNames == s.tables[name].fieldNames
  {
    var r := Step(s, op).0;
    StepFrame(s, op);
    forall name | name in r.tables
      ensures EntryWellFormed(r, name) && r.tables[name].fieldNames == s.tables[name].fieldNames
    {
      if name != op.name {
        assert r.tables[name] == s.tables[name];
        assert EntryWellFormed(s, name);
      }
    }
  }

  /** A call on one table leaves every other table's entry and file exactly
      as they were. */
  lemma StepIsolation(s: AdapterState, op: Op, other: string)
    requires WellFormed(s) && other != op.name
    ensures var r := Step(s, op).0;
      && (other in s.tables ==> other in r.tables && r.tables[other] == s.tables[other])
      && Content(r.files, PathJoin(s.repository, other)) == Content(s.files, PathJoin(s.repository, other))
  {
    StepFrame(s, op);
    if PathJoin(s.repository, other) == PathJoin(s.repository, op.name) {
      PathJoinInjective(s.repository, other, op.name);
    }
  }

  /** A call other than a successful write to table `name` or a successful
      create of it leaves the text of its file as it was. */
  lemma StepKeepsContent(s: AdapterState, op: Op, name: string)
    requires WellFormed(s) && name in s.tables
    requires op != Create(name, true)
    requires !(op.Write? && op.name == name && IsOpen(s, name))
    ensures Content(Step(s, op).0.files, PathJoin(s.repository, name)) == Content(s.files, PathJoin(s.repository, name))
  {
    if op.name != name {
      StepIsolation(s, op, name);
    } else if Step(s, op).1 == Ok {
      match op
      case Write(_, _) =>
      case Create(_, _) =>
        assert false;
      case CloseComplete(_) =>
        CloseTableCloses(s, name);
      case Pause(_) =>
        CloseTableCloses(s, name);
      case CloseError(_) =>
        CloseTableCloses(s, name);
      case Reopen(_, _) =>
        ReopenTableAppends(s, name);
    } else if op.Create? {
      CreateTableTruncates(s, name, false);
    }
  }

  /** The contribution of one call to the file of table `name`: one line for
      a successful write to it, nothing for anything else except a successful
      create of `name` itself, which is excluded here. */
  lemma StepContent(s: AdapterState, op: Op, name: string)
    requires WellFormed(s) && name in s.tables
    requires op != Create(name, true)
    ensures Content(Step(s, op).0.files, PathJoin(s.repository, name))
            == Content(s.files, PathJoin(s.repository, name)) + Lines(Emitted(s, op, name))
  {
    var path := PathJoin(s.repository, name);
    if op.Write? && op.name == name && IsOpen(s, name) {
      assert EntryWellFormed(s, name);
      WriteRecordAppends(s, op.encoded, name);
      assert Lines([op.encoded]) == Line(op.encoded) + Lines([]);
    } else {
      StepKeepsContent(s, op, name);
      assert Emitted(s, op, name) == [];
      assert Content(s.files, path) + Lines([]) == Content(s.files, path);
    }
  }

  /** Running `a + b` is running `a` and then `b`. */
  lemma {:induction false} RunConcat(s: AdapterState, a: seq<Op>, b: seq<Op>)
    ensures Run(s, a + b) == Run(Run(s, a), b)
    decreases |a|
  {
    if a == [] {
      assert a + b == b;
    } else {
      assert (a + b)[0] == a[0];
      assert (a + b)[1..] == a[1..] + b;
      RunConcat(Step(s, a[0]).0, a[1..], b);
    }
  }

  /** The records written by `a + b` are those written by `a`, then those
      written by `b` from where `a` left off. */
  lemma {:induction false} WrittenToConcat(s: AdapterState, a: seq<Op>, b: seq<Op>, name: string)
    ensures WrittenTo(s, a + b, name) == WrittenTo(s, a, name) + WrittenTo(Run(s, a), b, name)
    decreases |a|
  {
    if a == [] {
      assert a + b == b;
    } else {
      var op := a[0];
      var next := Step(s, op).0;
      var e := Emitted(s, op, name);
      WrittenToConcat(next, a[1..], b, name);
      assert WrittenTo(s, a + b, name) == e + WrittenTo(next, a[1..] + b, name) by {
        assert (a + b)[0] == op;
        assert (a + b)[1..] == a[1..] + b;
      }
      assert Run(s, a) == Run(next, a[1..]);
      AppendAssoc(e, WrittenTo(next, a[1..], name), WrittenTo(Run(next, a[1..]), b, name));
    }
  }

  /** Four phases run one after the other. */
  lemma RunPhases(s: AdapterState, a: seq<Op>, b: seq<Op>, c: seq<Op>, d: seq<Op>)
    ensures Run(s, a + b + c + d) == Run(Run(Run(Run(s, a), b), c), d)
  {
    RunConcat(s, a + b + c, d);
    RunConcat(s, a + b, c);
    RunConcat(s, a, b);
  }

  /** Any sequence of calls keeps every entry well formed and keeps the
      repository, the tables and their schemas. */
  lemma {:induction false} RunPreservesWellFormed(s: AdapterState, ops: seq<Op>)
    requires WellFormed(s)
    ensures var r := Run(s, ops);
      && WellFormed(r)
      && r.repository == s.repository
      && r.tables.Keys == s.tables.Keys
      && forall name :: name in s.tables ==> r.tables[name].fieldNames == s.tables[name].fieldNames
    decreases |ops|
  {
    if ops != [] {
      StepPreservesWellFormed(s, ops[0]);
      RunPreservesWellFormed(Step(s, ops[0]).0, ops[1..]);
    }
  }

  /** Unless table `name` is created again, a sequence of calls only ever
      appends to its file, and what it appends is exactly the lines of the
      records written to it successfully, in call order. */
  lemma {:induction false} RunAppendsOnly(s: AdapterState, ops: seq<Op>, name: string)
    requires WellFormed(s) && name in s.tables
    requires forall k :: 0 <= k < |ops| ==> ops[k] != Create(name, true)
    ensures Content(Run(s, ops).files, PathJoin(s.repository, name))
            == Content(s.files, PathJoin(s.repository, name)) + Lines(WrittenTo(s, ops, name))
    decreases |ops|
  {
    if ops != [] {
      var path := PathJoin(s.repository, name);
      var op := ops[0];
      var next := Step(s, op).0;
      var rest := ops[1..];
      assert op != Create(name, true);
      StepContent(s, op, name);
      StepPreservesWellFormed(s, op);
      forall k | 0 <= k < |rest| ensures rest[k] != Create(name, true) {
        assert rest[k] == ops[k + 1];
      }
      RunAppendsOnly(next, rest, name);
      var e := Emitted(s, op, name);
      var tail := WrittenTo(next, rest, name);
      LinesConcat(e, tail);
      AppendAssoc(Content(s.files, path), Lines(e), Lines(tail));
    }
  }

  /** The central guarantee: after `create_table` and any later calls that do
      not create the table again, its file holds the header line of its field
      names followed by exactly the records written to it, in order. */
  lemma CreatedFileContent(s: AdapterState, name: string, ops: seq<Op>)
    requires WellFormed(s) && name in s.tables
    requires forall k :: 0 <= k < |ops| ==> ops[k] != Create(name, true)
    ensures var created := Step(s, Create(name, true)).0;
      var path := PathJoin(s.repository, name);
      && path in Run(created, ops).files
      && Run(created, ops).files[path] == Line(s.tables[name].fieldNames) + Lines(WrittenTo(created, ops, name))
  {
    var path := PathJoin(s.repository, name);
    var header := Line(s.tables[name].fieldNames);
    var created := Step(s, Create(name, true)).0;
    assert created == CreateTable(s, name, true).0;
    CreateTableTruncates(s, name, true);
    assert created.repository == s.repository && name in created.tables;
    assert path in created.files && Content(created.files, path) == header;
    StepPreservesWellFormed(s, Create(name, true));
    RunAppendsOnly(created, ops, name);
    RunKeepsFiles(created, ops);
    var final := Run(created, ops);
    assert path in final.files;
    assert Content(final.files, path) == header + Lines(WrittenTo(created, ops, name));
  }

  /** No call removes a file. */
  lemma {:induction false} RunKeepsFiles(s: AdapterState, ops: seq<Op>)
    requires WellFormed(s)
    ensures s.files.Keys <= Run(s, ops).files.Keys
    decreases |ops|
  {
    if ops != [] {
      StepPreservesWellFormed(s, ops[0]);
      RunKeepsFiles(Step(s, ops[0]).0, ops[1..]);
    }
  }

  /** On an open table, every one of a sequence of writes succeeds, in
      order, and the table stays open. */
  lemma {:induction false} WritesStayOpen(s: AdapterState, name: string, records: seq<seq<string>>)
    requires WellFormed(s) && IsOpen(s, name)
    ensures WrittenTo(s, Writes(name, records), name) == records
    ensures IsOpen(Run(s, Writes(name, records)), name)
    decreases |records|
  {
    if records != [] {
      var ops := Writes(name, records);
      var next := Step(s, ops[0]).0;
      assert ops[0] == Write(name, records[0]);
      assert ops[1..] == Writes(name, records[1..]);
      WriteRecordAppends(s, records[0], name);
      assert next.tables == s.tables;
      StepPreservesWellFormed(s, ops[0]);
      WritesStayOpen(next, name, records[1..]);
      assert [records[0]] + records[1..] == records;
    }
  }

  /** On an open table, a sequence of writes appends all their lines, in
      order, and leaves the table open. */
  lemma WritesWhileOpen(s: AdapterState, name: string, records: seq<seq<string>>)
    requires WellFormed(s) && IsOpen(s, name)
    ensures WrittenTo(s, Writes(name, records), name) == records
    ensures IsOpen(Run(s, Writes(name, records)), name)
    ensures Content(Run(s, Writes(name, records)).files, PathJoin(s.repository, name))
            == Content(s.files, PathJoin(s.repository, name)) + Lines(records)
  {
    var ops := Writes(name, records);
    WritesStayOpen(s, name, records);
    forall k | 0 <= k < |ops| ensures ops[k] != Create(name, true) {
    }
    RunAppendsOnly(s, ops, name);
  }

  /** Running a single call is taking its step. */
  lemma RunOne(s: AdapterState, op: Op)
    ensures Run(s, [op]) == Step(s, op).0
  {
    assert [op][1..] == [];
  }

  /** Running two calls is taking one step after the other. */
  lemma RunTwo(s: AdapterState, a: Op, b: Op)
    ensures Run(s, [a, b]) == Step(Step(s, a).0, b).0
  {
    assert [a, b][1..] == [b];
    RunOne(Step(s, a).0, b);
  }

  /** Pausing and reopening a table with a handle leaves its file and every
      other file untouched, keeps its recorded path, and leaves it open. */
  lemma PauseReopen(s: AdapterState, name: string)
    requires WellFormed(s) && name in s.tables && s.tables[name].handle.Some?
    ensures var r := Run(s, [Pause(name), Reopen(name, true)]);
      && r.files == s.files
      && IsOpen(r, name)
      && r.tables[name].outputPath == s.tables[name].outputPath
      && r.tables - {name} == s.tables - {name}
  {
    RunTwo(s, Pause(name), Reopen(name, true));
    var paused := CloseTable(s, name).0;
    var r := ReopenTable(paused, name, true).0;
    var path := PathJoin(s.repository, name);
    assert paused.files == s.files;
    assert path in s.files;
    assert r.files == s.files by {
      forall p | p in r.files ensures p in s.files && r.files[p] == s.files[p] {
        if p != path {
          assert r.files[p] == (r.files - {path})[p];
          assert (paused.files - {path})[p] == s.files[p];
        }
      }
      forall p | p in s.files ensures p in r.files {
        if p != path {
          assert p in (paused.files - {path});
        }
      }
    }
  }

  /** Writes before a pause and writes after the reopen all end up in the
      file once each, in call order, after the header. */
  lemma PauseReopenKeepsEveryRecord(s: AdapterState, name: string, before: seq<seq<string>>, after: seq<seq<string>>)
    requires WellFormed(s) && name in s.tables
    ensures var r := Run(s, [Create(name, true)] + Writes(name, before) + [Pause(name), Reopen(name, true)] + Writes(name, after));
      Content(r.files, PathJoin(s.repository, name)) == Line(s.tables[name].fieldNames) + Lines(before + after)
  {
    var create, writes1, cycle, writes2 := [Create(name, true)], Writes(name, before), [Pause(name), Reopen(name, true)], Writes(name, after);
    RunPhases(s, create, writes1, cycle, writes2);
    PhasesContent(s, name, before, after);
  }

  /** The phases of `PauseReopenKeepsEveryRecord`, one state at a time. */
  lemma PhasesContent(s: AdapterState, name: string, before: seq<seq<string>>, after: seq<seq<string>>)
    requires WellFormed(s) && name in s.tables
    ensures
      var s1 := Run(s, [Create(name, true)]);
      var s2 := Run(s1, Writes(name, before));
      var s3 := Run(s2, [Pause(name), Reopen(name, true)]);
      var s4 := Run(s3, Writes(name, after));
      Content(s4.files, PathJoin(s.repository, name)) == Line(s.tables[name].fieldNames) + Lines(before + after)
  {
    var path := PathJoin(s.repository, name);
    var header := Line(s.tables[name].fieldNames);
    var s1 := Run(s, [Create(name, true)]);
    RunOne(s, Create(name, true));
    StepPreservesWellFormed(s, Create(name, true));
    var created := CreateTable(s, name, true);
    assert Step(s, Create(name, true)) == created;
    assert s1 == created.0;
    assert IsOpen(s1, name) && s1.repository == s.repository;
    assert Content(s1.files, path) == header;
    var s2 := Run(s1, Writes(name, before));
    WritesWhileOpen(s1, name, before);
    RunPreservesWellFormed(s1, Writes(name, before));
    assert Content(s2.files, path) == header + Lines(before);
    var s3 := Run(s2, [Pause(name), Reopen(name, true)]);
    PauseReopen(s2, name);
    RunPreservesWellFormed(s2, [Pause(name), Reopen(name, true)]);
    assert Content(s3.files, path) == header + Lines(before);
    var s4 := Run(s3, Writes(name, after));
    WritesWhileOpen(s3, name, after);
    assert Content(s4.files, path) == (header + Lines(before)) + Lines(after);
    LinesConcat(before, after);
    AppendAssoc(header, Lines(before), Lines(after));
  }

  /** Creating a table and closing it at once leaves only the header line. */
  lemma CreateThenClose(s: AdapterState, name: string)
    requires name in s.tables
    ensures var r := Run(s, [Create(name, true), CloseComplete(name)]);
      var path := PathJoin(s.repository, name);
      && path in r.files
      && r.files[path] == Line(s.tables[name].fieldNames)
      && !IsOpen(r, name)
  {
    RunTwo(s, Create(name, true), CloseComplete(name));
    var path := PathJoin(s.repository, name);
    var created := CreateTable(s, name, true);
    assert Step(s, Create(name, true)) == created;
    assert created.1 == Ok && created.0.tables[name].handle.Some?;
    assert path in created.0.files && created.0.files[path] == Line(s.tables[name].fieldNames);
    var closed := CloseTable(created.0, name);
    assert Step(created.0, CloseComplete(name)) == closed;
    assert closed.0.files == created.0.files;
  }

  /** `pause_table` and `close_table_error` have exactly the effect of
      `close_table_complete`, and closing twice is the same as closing once. */
  lemma CloseVariantsAgree(s: AdapterState, name: string)
    ensures Step(s, Pause(name)) == Step(s, CloseComplete(name))
    ensures Step(s, CloseError(name)) == Step(s, CloseComplete(name))
    ensures var once := CloseTable(s, name); CloseTable(once.0, name) == once
  {
    var once := CloseTable(s, name);
    if once.1 == Ok {
      var t := once.0.tables[name];
      assert t.handle.Some? && !t.handle.value.isOpen;
      assert t.(handle := Some(t.handle.value.(isOpen := false))) == t;
      assert once.0.tables[name := t] == once.0.tables;
    }
  }

  /** A write after a pause or a close fails and changes nothing. */
  lemma WriteAfterCloseFails(s: AdapterState, name: string, encoded: seq<string>)
    requires name in s.tables && s.tables[name].handle.Some?
    ensures var closed := CloseTable(s, name).0;
      WriteRecord(closed, encoded, name) == (closed, Fail(ClosedHandle))
  {
  }

  /** The adapter does not make closing terminal: a table closed as complete
      can be reopened, and a write then appends after what is there. */
  lemma ReopenAfterCompleteAppends(s: AdapterState, name: string, encoded: seq<string>)
    requires WellFormed(s) && name in s.tables && s.tables[name].handle.Some?
    ensures var closed := CloseTable(s, name).0;
      var reopened := ReopenTable(closed, name, true).0;
      var r := WriteRecord(reopened, encoded, name);
      var path := PathJoin(s.repository, name);
      && r.1 == Ok
      && path in r.0.files
      && r.0.files[path] == s.files[path] + Line(encoded)
  {
  }
}
