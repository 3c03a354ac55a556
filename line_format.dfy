/** The pipe-delimited line format of the local-file adapter, and the coercion of
    record fields to text. Everything here is pure. */
module LineFormat {

  /** A field value as the pipeline hands it over; only the two kinds the
      examples use are modelled. */
  datatype Value = Int(i: int) | Text(s: string)

  /** One decimal digit. */
  function DigitChar(d: nat): (c: char)
    requires d < 10
    ensures '0' <= c <= '9'
    ensures c as int - '0' as int == d
  {
    (('0' as int) + d) as char
  }

  /** The decimal digits of `n`, most significant first, with no leading zero. */
  function Decimal(n: nat): (s: string)
    ensures |s| >= 1
    ensures forall k :: 0 <= k < |s| ==> '0' <= s[k] <= '9'
    ensures s[0] == '0' ==> n == 0
  {
    if n < 10 then [DigitChar(n)] else Decimal(n / 10) + [DigitChar(n % 10)]
  }

  /** The number a string of decimal digits denotes, most significant first. */
  function DigitsValue(s: string): int
  {
    if s == [] then 0 else 10 * DigitsValue(s[..|s| - 1]) + (s[|s| - 1] as int - '0' as int)
  }

  /** `Decimal` writes `n` itself: its digits denote `n`. */
  lemma {:induction false} DecimalValue(n: nat)
    ensures DigitsValue(Decimal(n)) == n
  {
    if n >= 10 {
      var s := Decimal(n);
      assert s[..|s| - 1] == Decimal(n / 10);
      DecimalValue(n / 10);
    }
  }

  /** The default text of a value: an integer in decimal with a leading '-'
      when negative, a string as itself. */
  function Unicode(v: Value): (s: string)
    ensures v.Text? ==> s == v.s
    ensures v.Int? ==> |s| >= 1 && (s[0] == '-' <==> v.i < 0)
  {
    match v
    case Int(i) => if i < 0 then "-" + Decimal(-i) else Decimal(i)
    case Text(t) => t
  }

  /** `map_types`: one text per field of the record, in the same order. The
      schema is accepted and ignored, as in the adapter; `toText` stands for
      the stringification of one field. */
  function MapTypes<F>(record: seq<F>, schema: seq<string>, toText: F -> string): (encoded: seq<string>)
    ensures |encoded| == |record|
    ensures forall k :: 0 <= k < |record| ==> encoded[k] == toText(record[k])
  {
    if record == [] then [] else [toText(record[0])] + MapTypes(record[1..], schema, toText)
  }

  /** The fields joined by a single '|', with no escaping: the first field
      comes first and, when there are more, a '|' right after it. */
  function Join(fields: seq<string>): (joined: string)
    ensures |fields| >= 1 ==> |fields[0]| <= |joined| && joined[..|fields[0]|] == fields[0]
    ensures |fields| >= 2 ==> |fields[0]| < |joined| && joined[|fields[0]|] == '|'
  {
    if |fields| == 0 then ""
    else if |fields| == 1 then fields[0]
    else fields[0] + "|" + Join(fields[1..])
  }

  /** One record as it is written to a file: joined fields, then a newline. */
  function Line(fields: seq<string>): (line: string)
    ensures |line| >= 1 && line[|line| - 1] == '\n'
    ensures line[..|line| - 1] == Join(fields)
  {
    Join(fields) + "\n"
  }

  /** The text of several records written one after the other. */
  function Lines(records: seq<seq<string>>): string
  {
    if records == [] then "" else Line(records[0]) + Lines(records[1..])
  }

  /** Concatenation is associative. */
  lemma AppendAssoc<T>(a: seq<T>, b: seq<T>, c: seq<T>)
    ensures (a + b) + c == a + (b + c)
  {
  }

  /** Writing `a` and then `b` gives the same text as writing `a + b`. */
  lemma {:induction false} LinesConcat(a: seq<seq<string>>, b: seq<seq<string>>)
    ensures Lines(a + b) == Lines(a) + Lines(b)
  {
    if a == [] {
      assert a + b == b;
    } else {
      assert (a + b)[1..] == a[1..] + b;
      LinesConcat(a[1..], b);
      AppendAssoc(Line(a[0]), Lines(a[1..]), Lines(b));
    }
  }

  /** A field that can be told apart after joining: it holds neither the
      field delimiter nor the line terminator. */
  predicate Plain(field: string)
  {
    '|' !in field && '\n' !in field
  }

  /** A record whose line can be read back unambiguously. */
  predicate PlainRecord(fields: seq<string>)
  {
    |fields| >= 1 && forall k :: 0 <= k < |fields| ==> Plain(fields[k])
  }

  /** Python's `str.split(sep)`: the pieces between separators, always at
      least one. */
  function Split(s: string, sep: char): (parts: seq<string>)
    ensures |parts| >= 1
  {
    if s == [] then [""]
    else
      var rest := Split(s[1..], sep);
      if s[0] == sep then [""] + rest else [[s[0]] + rest[0]] + rest[1..]
  }

  /** A piece without the separator splits into itself. */
  lemma {:induction false} SplitNoSeparator(w: string, sep: char)
    requires sep !in w
    ensures Split(w, sep) == [w]
  {
    if w != [] {
      SplitNoSeparator(w[1..], sep);
      assert [w[0]] + w[1..] == w;
    }
  }

  /** A separator-free piece followed by the separator splits off first. */
  lemma {:induction false} SplitAfterPiece(w: string, sep: char, rest: string)
    requires sep !in w
    ensures Split(w + [sep] + rest, sep) == [w] + Split(rest, sep)
  {
    var s := w + [sep] + rest;
    if w == [] {
      assert s == [sep] + rest;
      assert s[1..] == rest;
    } else {
      assert s[0] == w[0];
      assert s[1..] == w[1..] + [sep] + rest;
      SplitAfterPiece(w[1..], sep, rest);
      assert [w[0]] + w[1..] == w;
    }
  }

  /** A character that is in no field and is not '|' is not in the joined line. */
  lemma {:induction false} JoinAvoids(fields: seq<string>, c: char)
    requires c != '|'
    requires forall k :: 0 <= k < |fields| ==> c !in fields[k]
    ensures c !in Join(fields)
  {
    if |fields| > 1 {
      JoinAvoids(fields[1..], c);
      assert c !in fields[0];
    }
  }

  /** When no field holds a newline, the newline that ends a record's line is
      the only one in it. */
  lemma LineEndsOnce(fields: seq<string>)
    requires forall k :: 0 <= k < |fields| ==> '\n' !in fields[k]
    ensures var line := Line(fields); forall i :: 0 <= i < |line| ==> (line[i] == '\n' <==> i == |line| - 1)
  {
    JoinAvoids(fields, '\n');
    var line := Line(fields);
    forall i | 0 <= i < |line| - 1 ensures line[i] != '\n' {
      assert line[i] == line[..|line| - 1][i];
    }
  }

  /** Splitting a joined line on '|' gives the fields back, provided there is
      at least one field and no field contains '|'. */
  lemma {:induction false} SplitJoin(fields: seq<string>)
    requires |fields| >= 1
    requires forall k :: 0 <= k < |fields| ==> '|' !in fields[k]
    ensures Split(Join(fields), '|') == fields
  {
    if |fields| == 1 {
      SplitNoSeparator(fields[0], '|');
    } else {
      SplitJoin(fields[1..]);
      assert '|' !in fields[0];
      SplitAfterPiece(fields[0], '|', Join(fields[1..]));
      assert fields[0] + "|" + Join(fields[1..]) == fields[0] + ['|'] + Join(fields[1..]);
      assert [fields[0]] + fields[1..] == fields;
    }
  }

  /** The complete lines of a split text, each split into fields; the piece
      after the last newline is not a complete line and is dropped. */
  function ParseLines(lines: seq<string>): (records: seq<seq<string>>)
    ensures |lines| >= 1 ==> |records| == |lines| - 1
  {
    if |lines| <= 1 then [] else [Split(lines[0], '|')] + ParseLines(lines[1..])
  }

  /** Reading a file back: its lines, each split into fields. */
  function ParseFile(content: string): seq<seq<string>>
  {
    ParseLines(Split(content, '\n'))
  }

  /** Text made of plain records reads back as exactly those records, in
      order: nothing lost, nothing duplicated. */
  lemma {:induction false} ParseLinesOfRecords(records: seq<seq<string>>)
    requires forall j :: 0 <= j < |records| ==> PlainRecord(records[j])
    ensures ParseFile(Lines(records)) == records
  {
    if records != [] {
      var r := records[0];
      assert PlainRecord(r);
      JoinAvoids(r, '\n');
      SplitAfterPiece(Join(r), '\n', Lines(records[1..]));
      assert Lines(records) == Join(r) + ['\n'] + Lines(records[1..]);
      ParseLinesOfRecords(records[1..]);
      SplitJoin(r);
      assert [r] + records[1..] == records;
    }
  }

  /** Without escaping, different records can give the same line: an empty
      record and a record of one empty field, or a field holding '|' and two
      fields. */
  lemma LineAmbiguous()
    ensures Line([]) == Line([""])
    ensures Line(["a|b"]) == Line(["a", "b"])
  {
  }
}
