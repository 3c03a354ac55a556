# Local pipe-delimited file output adapter, modelled in Dafny

`MyPipeOutputAdapter` (`lib/my_output_adapter.py`) is a ParseKit output adapter
that writes each table of a parse to a local text file. The file is
`<repository>/<table name>`. It starts with a header line of the schema's
field names, followed by one line per record: the fields' text joined by `|`,
then a newline. The adapter keeps, per table, an entry in its `tables` map.
`create_table` fills the entry's `output_path` slot and opens the file
truncating it (`'wb'`) into the `fh` slot. `write_record` writes through
`fh`. `close_table_complete` closes `fh`, and so do `pause_table` and
`close_table_error`, which only call it. `reopen_table` opens the recorded
path again in append mode (`'a'`).

The project has four modules:

- `LineFormat` (`line_format.dfy`) is pure. It holds the text of a field
  (`Unicode`), `map_types` (`MapTypes`), and the line format (`Join`, `Line`,
  `Lines`). It also holds a reader for the format (`Split`, `ParseFile`),
  used to state what a file means: text made of records that have at least
  one field and hold no `|` or newline reads back as exactly those records.
- `AdapterModel` (`adapter_model.dfy`) is the adapter's state as a value: the
  `tables` map and a simulated file system that maps each path to its text.
  Each operation is a function from the old state to the new state and an
  `Outcome`. The outcome is `Ok`, or the exception Python would raise:
  - `NoSuchTable`: a `KeyError` on the table name.
  - `NoOutputPath` or `NoHandle`: a `KeyError` on a missing slot.
  - `ClosedHandle`: a `ValueError` from writing to a closed file.
  - `OpenFailed`: an `IOError` from `open`.

  `Step` and `Run` apply any sequence of calls the pipeline makes.
- `AdapterTheorems` (`adapter_theorems.dfy`) proves what holds over whole
  call sequences:
  - every call keeps the entries well formed;
  - a call touches only its own table's entry and file (files are told apart
    by their path text, see "Left out");
  - after `create_table`, a table's file is its header line followed by
    exactly the records written to it successfully, in call order, across
    any number of pauses and reopens.
- `PipeAdapter` (`pipe_adapter.dfy`) is the adapter as a class whose fields
  `tables` and `files` its methods update step by step. Each method is proved
  to have exactly the effect of the matching `AdapterModel` function, so the
  theorems apply to the object. `UsersExample` runs the object through
  create, write, pause, reopen and write, and proves the file's final text.

Where the adapter's documentation and its code differ, the model follows the
code:
- No operation checks the state of the table. Reopening a table closed as
  complete or as failed succeeds, and later writes append
  (`ReopenAfterCompleteAppends`).
- A failure in `open` surfaces as the `IOError` itself. There is no separate
  reopen error.
- `close_table_error`, `pause_table` and `close_table_complete` are the same
  operation (`CloseVariantsAgree`).
- `create_table` records `output_path` before it opens the file. A failed open
  therefore leaves the path recorded, and a later `reopen_table` can use it
  (`CreateTableTruncates`).
- `map_types` ignores the schema: its result has one text per field of the
  record, whatever the schema's length.

## Model

| member | source | states |
|---|---|---|
| LineFormat.Unicode | lib/my_output_adapter.py:45 | The text of a string field is the string itself. The text of an integer is non-empty and starts with '-' exactly when the integer is negative. |
| LineFormat.Decimal | lib/my_output_adapter.py:45 | The decimal text of a natural number is non-empty, all digits, and starts with '0' only for zero. |
| LineFormat.DecimalValue | lib/my_output_adapter.py:45 | The digits `unicode` writes for a natural number denote that number. |
| LineFormat.MapTypes | lib/my_output_adapter.py:43-45 | `map_types` gives one text per field of the record, in the same order: entry k is the text of field k. The schema plays no part. |
| LineFormat.Join | lib/my_output_adapter.py:53 | The joined text starts with the first field, followed by a '\|' when there is more than one field. What it means is stated by `SplitJoin`. |
| LineFormat.Line | lib/my_output_adapter.py:53-54 | A written record is the fields joined by '\|' followed by a newline. |
| LineFormat.LineEndsOnce | lib/my_output_adapter.py:53-54 | When no field holds a newline, the newline that ends a record's line is the only newline in it, so each record is exactly one line of the file. |
| LineFormat.LinesConcat | lib/my_output_adapter.py:53-54 | Writing two runs of records one after the other gives the text of writing them all in order. |
| LineFormat.SplitJoin | lib/my_output_adapter.py:53 | Splitting a joined line on '\|' gives back the fields, for at least one field with no '\|' in any of them. |
| LineFormat.ParseLinesOfRecords | lib/my_output_adapter.py:53-54 | Text written from records that have at least one field, none holding '\|' or a newline, reads back as exactly those records, in order. A record with no fields is written as a bare newline and would read back as one empty field. |
| LineFormat.LineAmbiguous | lib/my_output_adapter.py:53 | Without escaping, distinct records can give the same line: no fields and one empty field, or a field holding '\|' and two fields. |
| AdapterModel.PathJoin | lib/my_output_adapter.py:25 | A table's path is the repository, one '/', then the name: its length is theirs plus one and the '/' follows the repository. `PathJoinInjective` gives it its meaning. |
| AdapterModel.PathJoinInjective | lib/my_output_adapter.py:25 | Two tables of one repository with the same file path are the same table. |
| AdapterModel.WriteRecord | lib/my_output_adapter.py:51-54 | The write succeeds exactly when the table has an open handle; otherwise nothing changes. The error raised is a missing table, a missing 'fh' slot, or a closed file, in that order of checks. |
| AdapterModel.WriteRecordAppends | lib/my_output_adapter.py:51-54 | A successful write appends the record's line to the handle's file and changes no entry and no other file. |
| AdapterModel.CreateTable | lib/my_output_adapter.py:18-34 | Create succeeds exactly when the table exists and the file can be opened. A missing table changes nothing. A refused open raises the open error. |
| AdapterModel.CreateTableTruncates | lib/my_output_adapter.py:25-34 | The table's own path is recorded even when the open fails. On success, the file holds just the header line whatever it held before, and the table has an open truncating handle on it. No other entry or file changes. |
| AdapterModel.CloseTable | lib/my_output_adapter.py:61-63 | Close succeeds exactly when the table has a handle, open or already closed; otherwise nothing changes. The error is a missing table or a missing 'fh' slot. |
| AdapterModel.CloseTableCloses | lib/my_output_adapter.py:61-63 | A successful close marks the handle closed, keeps its path and mode, and leaves every file unchanged. |
| AdapterModel.ReopenTable | lib/my_output_adapter.py:79-82 | Reopen succeeds exactly when the table has a recorded path and the file can be opened; otherwise nothing changes. The error is a missing table, a missing 'output_path' slot, or a refused open. |
| AdapterModel.ReopenTableAppends | lib/my_output_adapter.py:79-82 | A successful reopen puts an open append handle on the recorded path and keeps the text of every file. A missing file is created empty. |
| AdapterModel.Writes | lib/my_output_adapter.py:51 | The write calls for a list of records: one per record, in order. |
| AdapterTheorems.StepFrame | lib/my_output_adapter.py:18-82 | One call keeps the repository, the set of tables and each table's schema. It changes at most its own table's entry, leaving it well formed. It changes at most its own table's file and never removes a file. |
| AdapterTheorems.StepPreservesWellFormed | lib/my_output_adapter.py:18-82 | Every call keeps every entry well formed: a recorded path is the table's own path, and a handle exists only on it, whose file exists. |
| AdapterTheorems.StepIsolation | lib/my_output_adapter.py:18-82 | A call on one table leaves every other table's entry and the text of its file exactly as they were. |
| AdapterTheorems.StepKeepsContent | lib/my_output_adapter.py:61-82 | Any call other than a successful write to a table or a successful create of it leaves the text of that table's file unchanged. |
| AdapterTheorems.StepContent | lib/my_output_adapter.py:51-82 | Apart from a create of the table itself, one call adds to a table's file exactly the lines it wrote to that table: one line for a successful write to it, nothing otherwise. |
| AdapterTheorems.RunConcat | lib/my_output_adapter.py:18-82 | Running two sequences of calls one after the other is running their concatenation. |
| AdapterTheorems.WrittenToConcat | lib/my_output_adapter.py:51-54 | The records written by two sequences of calls run in turn are those written by the first, then those written by the second. |
| AdapterTheorems.RunPreservesWellFormed | lib/my_output_adapter.py:18-82 | Any sequence of calls keeps every entry well formed, and keeps the repository, the tables and their schemas. |
| AdapterTheorems.RunKeepsFiles | lib/my_output_adapter.py:18-82 | No sequence of calls removes a file. |
| AdapterTheorems.RunAppendsOnly | lib/my_output_adapter.py:51-82 | Unless a table is created again, a sequence of calls only appends to its file. What it appends is exactly the lines of the records written to it successfully, in call order. |
| AdapterTheorems.CreatedFileContent | lib/my_output_adapter.py:25-34 | After `create_table` and any later calls that do not create the table again, its file is the header line followed by exactly the records written to it, in order. |
| AdapterTheorems.WritesStayOpen | lib/my_output_adapter.py:51-54 | On an open table, every write of a sequence succeeds, in order, and the table stays open. |
| AdapterTheorems.WritesWhileOpen | lib/my_output_adapter.py:51-54 | On an open table, a sequence of writes appends all their lines to its file, in order, and leaves the table open. |
| AdapterTheorems.PauseReopen | lib/my_output_adapter.py:67-82 | After a pause and then a successful reopen, every file is as it was, the table is open, and its recorded path is kept. No other entry changes. |
| AdapterTheorems.PauseReopenKeepsEveryRecord | lib/my_output_adapter.py:67-86 | Take a create, writes, a pause, a reopen and more writes. The file is the header followed by every record of both runs of writes, each once, in order: reopening loses nothing. |
| AdapterTheorems.CreateThenClose | lib/my_output_adapter.py:25-34 | Creating a table and closing it at once leaves a file holding only the header line, and the table is no longer open. |
| AdapterTheorems.CloseVariantsAgree | lib/my_output_adapter.py:67-77 | `pause_table` and `close_table_error` have exactly the effect and outcome of `close_table_complete`. Closing twice is closing once. |
| AdapterTheorems.WriteAfterCloseFails | lib/my_output_adapter.py:53 | A write after a close or a pause raises the closed-file error and changes nothing. |
| AdapterTheorems.ReopenAfterCompleteAppends | lib/my_output_adapter.py:61-82 | Closing is not terminal: a table closed as complete can be reopened, and a write then appends its line after the existing text. |
| PipeAdapter.PipeOutputAdapter.CreateTable | lib/my_output_adapter.py:18-34 | The object's new state and outcome are those of `AdapterModel.CreateTable` on its old state, and its entries stay well formed. |
| PipeAdapter.PipeOutputAdapter.WriteRecord | lib/my_output_adapter.py:51-54 | Writing the joined fields and then the newline gives the state and outcome of `AdapterModel.WriteRecord` on the old state. |
| PipeAdapter.PipeOutputAdapter.CloseTableComplete | lib/my_output_adapter.py:61-63 | The new state and outcome are those of `AdapterModel.CloseTable` on the old state. |
| PipeAdapter.PipeOutputAdapter.PauseTable | lib/my_output_adapter.py:67-69 | Same as `close_table_complete`: `AdapterModel.CloseTable` on the old state. |
| PipeAdapter.PipeOutputAdapter.CloseTableError | lib/my_output_adapter.py:75-77 | Same as `close_table_complete`: `AdapterModel.CloseTable` on the old state. |
| PipeAdapter.PipeOutputAdapter.ReopenTable | lib/my_output_adapter.py:79-82 | The new state and outcome are those of `AdapterModel.ReopenTable` on the old state. |
| PipeAdapter.UsersRecords | lib/my_output_adapter.py:43-45 | `map_types` turns (1, "Alice") into ["1", "Alice"] and (2, "Bob") into ["2", "Bob"]. |
| PipeAdapter.UsersExample | lib/my_output_adapter.py:18-82 | The table `users` (schema `id`, `name`) is created, then (1, "Alice") is written, the table is paused and reopened, and (2, "Bob") is written. The file is then "id\|name\n1\|Alice\n2\|Bob\n". |

## Left out

- I/O is simulated. `open`, `write` and `close` act on a map from path to text. Buffering, flushing, disk errors during a write, and encodings are not modelled. Whether the operating system lets `open` succeed is a `canOpen` parameter.
- `os.path.join` is modelled as `repository + "/" + name`. Its special cases are not modelled: an absolute table name that discards the repository, a repository already ending in '/', and an empty repository (Python gives the bare name, the model a leading '/').
- Files are keyed by their path text. Paths that name the same file on disk but differ as text (`r/x` and `r/./x`, links, case-insensitive file systems) are distinct files in the model. `StepIsolation` and the other frame results hold only for tables whose paths name distinct files.
- `unicode` is modelled only for integers and strings (`LineFormat.Value`). Other Python and ParseKit types, and their own string forms, are not modelled.
- `connect` and `disconnect` (lines 8-16) do nothing and are not modelled.
- The log message in `create_table` (line 35) is not modelled.
- The `OutputAdapter` base class, the pipeline that fills `self.tables` with schemas and calls the adapter, and `self.log` are not part of this model. The constructor of `PipeOutputAdapter` stands in for that set-up.
- Concurrency is not modelled. Calls are applied one at a time, in order.
- Re-creating or reopening a table whose handle is still open replaces the handle in the entry. The model does not track the replaced Python file object or when it is closed and flushed.
- Bytes versus text: the file opened with `'wb'` receives text. The model treats a file's content as characters throughout.
- Closing a file that was never flushed and the data reaching disk are treated as one event. The model has no separate commit step.
