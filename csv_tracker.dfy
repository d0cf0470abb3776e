/**
 * The per-project CSV file of findings: a header line, then one line per
 * finding with every field in double quotes. Only the code and remediation
 * fields have their own double quotes doubled; the reader is a quote-aware
 * field splitter. The file is modelled as a string field that is absent
 * (`None`) until the header is first written.
 */
module CsvTracker {
  import opened Wrappers
  import opened Records
  import Seqs
  import JsText

  const HeaderLine := "Filename," + "Function," + "LineNum," + "Code," + "Category," + "Severity," + "Remediation"
  /** The text written to a file that does not exist yet. */
  const Header := HeaderLine + "\n"

  // ---- writing

  /** A field in double quotes, as the row template writes it. */
  function Quoted(x: string): string {
    ['"'] + x + ['"']
  }

  /**
   * The seven cells of a finding's row: every field in quotes; the line
   * number in decimal; the code and the remediation with every `"`
   * doubled, the other fields as they are.
   */
  function Cells(f: Finding): seq<string> {
    [Quoted(f.filename), Quoted(f.functionName), Quoted(JsText.Decimal(f.lineNum)), Quoted(JsText.Double(f.code, '"')),
     Quoted(f.category), Quoted(f.severity), Quoted(JsText.Double(f.remediation, '"'))]
  }

  /** The row of one finding: its cells separated by commas. */
  function Row(f: Finding): string {
    JsText.Join(Cells(f), ',')
  }

  function Rows(fs: seq<Finding>): (r: seq<string>)
    ensures |r| == |fs| && forall k :: 0 <= k < |fs| ==> r[k] == Row(fs[k])
  {
    seq(|fs|, k requires 0 <= k < |fs| => Row(fs[k]))
  }

  /** What `addFindings(fs)` appends: nothing for no findings, else the rows joined by newlines and a final newline. */
  function Appendix(fs: seq<Finding>): string {
    var csvRows := JsText.Join(Rows(fs), '\n');
    if csvRows != "" then csvRows + "\n" else ""
  }

  /** The file after `addFindings(fs)`: the header first if the file was absent, then the appendix. */
  function Appended(file: Option<string>, fs: seq<Finding>): string {
    (if file.None? then Header else file.value) + Appendix(fs)
  }

  /** Every line followed by a newline. */
  function Lines(rows: seq<string>): string {
    if rows == [] then "" else rows[0] + "\n" + Lines(rows[1..])
  }

  lemma {:induction false} JoinLines(rows: seq<string>)
    requires rows != []
    ensures JsText.Join(rows, '\n') + "\n" == Lines(rows)
  {
    if |rows| > 1 {
      JoinLines(rows[1..]);
    }
  }

  lemma {:induction false} LinesConcat(a: seq<string>, b: seq<string>)
    ensures Lines(a + b) == Lines(a) + Lines(b)
  {
    if a == [] {
      assert a + b == b;
    } else {
      assert (a + b)[0] == a[0];
      assert (a + b)[1..] == a[1..] + b;
      LinesConcat(a[1..], b);
    }
  }

  /** The appendix is each row of the findings followed by a newline. */
  lemma AppendixLines(fs: seq<Finding>)
    ensures Appendix(fs) == Lines(Rows(fs))
  {
    if fs != [] {
      JoinLines(Rows(fs));
      assert Row(fs[0])[0] == '"';
      JoinStart(Rows(fs), '\n');
    }
  }

  lemma JoinStart(parts: seq<string>, sep: char)
    requires parts != [] && parts[0] != []
    ensures JsText.Join(parts, sep) != [] && JsText.Join(parts, sep)[0] == parts[0][0]
  {
  }

  lemma RowsConcat(a: seq<Finding>, b: seq<Finding>)
    ensures Rows(a + b) == Rows(a) + Rows(b)
  {
  }

  /** `addFindings([])` leaves an existing file as it is. */
  lemma AddNothing(content: string)
    ensures Appended(Some(content), []) == content
  {
    assert Rows([]) == [];
  }

  // ---- reading

  /**
   * The state machine of `parseCSVLine` on the rest `s` of the line, with
   * the field read so far, whether it is inside quotes, and the fields
   * completed so far. Inside quotes `""` is one `"`; any other `"` toggles
   * the quote state and is dropped; a comma outside quotes ends a field.
   */
  function Scan(s: string, current: string, inQuotes: bool, result: seq<string>): (r: seq<string>)
    ensures |r| >= |result| + 1
    decreases |s|
  {
    if s == [] then result + [current]
    else if s[0] == '"' then
      if inQuotes && |s| > 1 && s[1] == '"' then Scan(s[2..], current + ['"'], inQuotes, result)
      else Scan(s[1..], current, !inQuotes, result)
    else if s[0] == ',' && !inQuotes then Scan(s[1..], "", false, result + [current])
    else Scan(s[1..], current + [s[0]], inQuotes, result)
  }

  /** The fields `parseCSVLine(line)` returns: never none. */
  function Fields(line: string): (r: seq<string>)
    ensures |r| >= 1
  {
    Scan(line, "", false, [])
  }

  /** The commas of `s` read outside quotes, quotes read as the splitter reads them. */
  function CommasOutside(s: string, inQuotes: bool): nat
    decreases |s|
  {
    if s == [] then 0
    else if s[0] == '"' then
      if inQuotes && |s| > 1 && s[1] == '"' then CommasOutside(s[2..], inQuotes) else CommasOutside(s[1..], !inQuotes)
    else (if s[0] == ',' && !inQuotes then 1 else 0) + CommasOutside(s[1..], inQuotes)
  }

  lemma {:induction false} ScanCount(s: string, current: string, inQuotes: bool, result: seq<string>)
    ensures |Scan(s, current, inQuotes, result)| == |result| + 1 + CommasOutside(s, inQuotes)
    decreases |s|
  {
    if s != [] {
      if s[0] == '"' {
        if inQuotes && |s| > 1 && s[1] == '"' {
          ScanCount(s[2..], current + ['"'], inQuotes, result);
        } else {
          ScanCount(s[1..], current, !inQuotes, result);
        }
      } else if s[0] == ',' && !inQuotes {
        ScanCount(s[1..], "", false, result + [current]);
      } else {
        ScanCount(s[1..], current + [s[0]], inQuotes, result);
      }
    }
  }

  /** A line has one field more than it has commas outside quotes. */
  lemma FieldCount(line: string)
    ensures |Fields(line)| == 1 + CommasOutside(line, false)
  {
    ScanCount(line, "", false, []);
  }

  /**
   * `parseCSVLine`: one pass over the characters; a `""` inside quotes is
   * consumed as one `"` by skipping the second quote.
   */
  method ParseCsvLine(line: string) returns (result: seq<string>)
    ensures result == Fields(line)
  {
    result := [];
    var current := "";
    var inQuotes := false;
    var i := 0;
    while i < |line|
      invariant 0 <= i <= |line|
      invariant Scan(line[i..], current, inQuotes, result) == Fields(line)
      decreases |line| - i
    {
      var c := line[i];
      assert line[i..][0] == c;
      if c == '"' {
        if inQuotes && i + 1 < |line| && line[i + 1] == '"' {
          assert line[i..][2..] == line[i + 2..];
          current := current + ['"'];
          i := i + 1;
        } else {
          assert line[i..][1..] == line[i + 1..];
          inQuotes := !inQuotes;
        }
      } else if c == ',' && !inQuotes {
        assert line[i..][1..] == line[i + 1..];
        result := result + [current];
        current := "";
      } else {
        assert line[i..][1..] == line[i + 1..];
        current := current + [c];
      }
      i := i + 1;
    }
    result := result + [current];
  }

  /** A doubled text and its closing quote read back as the text, inside quotes. */
  lemma {:induction false} ScanDoubled(x: string, rest: string, current: string, result: seq<string>)
    requires rest == [] || rest[0] != '"'
    ensures Scan(JsText.Double(x, '"') + ['"'] + rest, current, true, result) == Scan(rest, current + x, false, result)
    decreases |x|
  {
    if x == [] {
      assert JsText.Double(x, '"') + ['"'] + rest == ['"'] + rest;
      ScanClosing(rest, current, result);
      assert current + x == current;
    } else {
      var head := if x[0] == '"' then ['"', '"'] else [x[0]];
      var d := JsText.Double(x[1..], '"');
      assert JsText.Double(x, '"') == head + d;
      Seqs.Assoc3(head, d, ['"']);
      Seqs.Assoc3(head, d + ['"'], rest);
      ScanDoubled(x[1..], rest, current + [x[0]], result);
      ScanInside(x[0], d + ['"'] + rest, current, result);
      Seqs.Assoc3(current, [x[0]], x[1..]);
      assert [x[0]] + x[1..] == x;
    }
  }

  /** Inside quotes, a closing quote that is not followed by another ends the quoted part. */
  lemma ScanClosing(rest: string, current: string, result: seq<string>)
    requires rest == [] || rest[0] != '"'
    ensures Scan(['"'] + rest, current, true, result) == Scan(rest, current, false, result)
  {
    assert (['"'] + rest)[1..] == rest;
  }

  /** Inside quotes, a character (a `"` written twice) is added to the current field. */
  lemma ScanInside(c: char, t: string, current: string, result: seq<string>)
    ensures Scan((if c == '"' then ['"', '"'] else [c]) + t, current, true, result) == Scan(t, current + [c], true, result)
  {
    var s := (if c == '"' then ['"', '"'] else [c]) + t;
    if c == '"' {
      assert s[2..] == t;
    } else {
      assert s[1..] == t;
    }
  }

  /** The fields written with every `"` doubled, each in quotes. */
  function Encoded(xs: seq<string>): (r: seq<string>)
    ensures |r| == |xs| && forall k :: 0 <= k < |xs| ==> r[k] == Quoted(JsText.Double(xs[k], '"'))
  {
    seq(|xs|, k requires 0 <= k < |xs| => Quoted(JsText.Double(xs[k], '"')))
  }

  /** One quoted cell reads back as its text, whatever follows unless it is a quote. */
  lemma ScanCell(x: string, rest: string, result: seq<string>)
    requires rest == [] || rest[0] != '"'
    ensures Scan(Quoted(JsText.Double(x, '"')) + rest, "", false, result) == Scan(rest, x, false, result)
  {
    var d := JsText.Double(x, '"');
    var t := d + ['"'] + rest;
    assert Quoted(d) + rest == ['"'] + t by {
      Seqs.Assoc(['"'], d, ['"'], rest);
      Seqs.Assoc3(['"'], d, ['"'] + rest);
      Seqs.Assoc3(d, ['"'], rest);
    }
    ScanOpening(t, result);
    ScanDoubled(x, rest, "", result);
    assert "" + x == x;
  }

  /** Outside quotes, a quote at the start of a field opens the quoted part. */
  lemma ScanOpening(t: string, result: seq<string>)
    ensures Scan(['"'] + t, "", false, result) == Scan(t, "", true, result)
  {
    assert (['"'] + t)[1..] == t;
  }

  /** The splitter reads back the fields written in quotes and separated by commas. */
  lemma {:induction false} ScanEncoded(xs: seq<string>, result: seq<string>)
    requires xs != []
    ensures Scan(JsText.Join(Encoded(xs), ','), "", false, result) == result + xs
    decreases |xs|
  {
    var e := Encoded(xs);
    if |xs| == 1 {
      assert JsText.Join(e, ',') == e[0] + [];
      ScanCell(xs[0], [], result);
      assert [xs[0]] == xs;
    } else {
      var j := JsText.Join(e[1..], ',');
      Seqs.Assoc3(e[0], [','], j);
      ScanCell(xs[0], [','] + j, result);
      assert ([','] + j)[1..] == j;
      assert e[1..] == Encoded(xs[1..]);
      ScanEncoded(xs[1..], result + [xs[0]]);
      Seqs.Cons(xs, []);
      assert xs + [] == xs;
      Seqs.Assoc3(result, [xs[0]], xs[1..]);
    }
  }

  /** The seven fields of a finding as they should come back. */
  function FieldsOf(f: Finding): seq<string> {
    [f.filename, f.functionName, JsText.Decimal(f.lineNum), f.code, f.category, f.severity, f.remediation]
  }

  /**
   * A finding whose row reads back: no `"` in the four fields written
   * without doubling, no newline in any field.
   */
  predicate Storable(f: Finding) {
    && '"' !in f.filename && '"' !in f.functionName && '"' !in f.category && '"' !in f.severity
    && '\n' !in f.filename && '\n' !in f.functionName && '\n' !in f.code
    && '\n' !in f.category && '\n' !in f.severity && '\n' !in f.remediation
  }

  lemma DecimalPlain(n: nat)
    ensures '"' !in JsText.Decimal(n) && '\n' !in JsText.Decimal(n)
  {
    var s := JsText.Decimal(n);
    forall i | 0 <= i < |s| ensures s[i] != '"' && s[i] != '\n' {
      assert JsText.IsDigit(s[i]);
    }
  }

  /** For a storable finding the cells are the fields encoded uniformly. */
  lemma CellsEncoded(f: Finding)
    requires Storable(f)
    ensures Cells(f) == Encoded(FieldsOf(f))
  {
    var e := Encoded(FieldsOf(f));
    DecimalPlain(f.lineNum);
    JsText.DoubleWithout(f.filename, '"');
    JsText.DoubleWithout(f.functionName, '"');
    JsText.DoubleWithout(JsText.Decimal(f.lineNum), '"');
    JsText.DoubleWithout(f.category, '"');
    JsText.DoubleWithout(f.severity, '"');
    var c := Cells(f);
    forall k | 0 <= k < 7 ensures c[k] == e[k] {
    }
  }

  /** Round trip of one row: `parseCSVLine` gives back the seven fields. */
  lemma RowRoundTrip(f: Finding)
    requires Storable(f)
    ensures Fields(Row(f)) == FieldsOf(f)
  {
    CellsEncoded(f);
    ScanEncoded(FieldsOf(f), []);
  }

  /** A parsed record; `None` is a field that is `undefined`, or a line number that is `NaN`. */
  datatype Record = Record(
    filename: Option<string>,
    functionName: Option<string>,
    lineNum: Option<int>,
    code: Option<string>,
    category: Option<string>,
    severity: Option<string>,
    remediation: Option<string>)

  function At(values: seq<string>, k: nat): Option<string> {
    if k < |values| then Some(values[k]) else None
  }

  /** The object `getFindings` builds from the fields of one line; the line number goes through `parseInt`. */
  function RecordOf(values: seq<string>): Record {
    Record(At(values, 0), At(values, 1), if 2 < |values| then JsText.ParseInt(values[2]) else None,
           At(values, 3), At(values, 4), At(values, 5), At(values, 6))
  }

  /** The record that reading back a stored finding should give. */
  function Stored(f: Finding): Record {
    Record(Some(f.filename), Some(f.functionName), Some(f.lineNum), Some(f.code),
           Some(f.category), Some(f.severity), Some(f.remediation))
  }

  lemma RecordRoundTrip(f: Finding)
    requires Storable(f)
    ensures RecordOf(Fields(Row(f))) == Stored(f)
  {
    RowRoundTrip(f);
    JsText.ParseIntDecimal(f.lineNum);
  }

  /** The lines that survive `filter(line => line.trim())`. */
  function NonBlank(lines: seq<string>): (r: seq<string>)
    ensures |r| <= |lines|
  {
    if lines == [] then [] else (if JsText.Trim(lines[0]) != [] then [lines[0]] else []) + NonBlank(lines[1..])
  }

  lemma {:induction false} NonBlankConcat(a: seq<string>, b: seq<string>)
    ensures NonBlank(a + b) == NonBlank(a) + NonBlank(b)
  {
    if a == [] {
      assert a + b == b;
    } else {
      assert (a + b)[0] == a[0];
      assert (a + b)[1..] == a[1..] + b;
      NonBlankConcat(a[1..], b);
    }
  }

  /** Lines that do not start with whitespace all survive the filter. */
  lemma {:induction false} NonBlankKeeps(lines: seq<string>)
    requires forall k :: 0 <= k < |lines| ==> lines[k] != [] && !JsText.IsWhitespace(lines[k][0])
    ensures NonBlank(lines) == lines
  {
    if lines != [] {
      assert !JsText.IsBlank(lines[0]);
      NonBlankKeeps(lines[1..]);
    }
  }

  /**
   * `getFindings`: split into lines, drop the blank ones, and read every
   * line after the first (the header) as a record; nothing when the file
   * cannot be read or holds at most one non-blank line.
   */
  function FindingsIn(file: Option<string>): seq<Record> {
    if file.None? then []
    else
      var lines := NonBlank(JsText.Split(file.value, '\n'));
      if |lines| <= 1 then [] else Parsed(lines[1..])
  }

  /** Every line read as a record. */
  function Parsed(lines: seq<string>): (r: seq<Record>)
    ensures |r| == |lines| && forall k :: 0 <= k < |lines| ==> r[k] == RecordOf(Fields(lines[k]))
  {
    seq(|lines|, k requires 0 <= k < |lines| => RecordOf(Fields(lines[k])))
  }

  /** The records that reading back stored findings should give, in order. */
  function StoredAll(fs: seq<Finding>): (r: seq<Record>)
    ensures |r| == |fs| && forall k :: 0 <= k < |fs| ==> r[k] == Stored(fs[k])
  {
    seq(|fs|, k requires 0 <= k < |fs| => Stored(fs[k]))
  }

  lemma ParsedRows(fs: seq<Finding>)
    requires AllStorable(fs)
    ensures Parsed(Rows(fs)) == StoredAll(fs)
  {
    forall k | 0 <= k < |fs| ensures Parsed(Rows(fs))[k] == StoredAll(fs)[k] {
      RecordRoundTrip(fs[k]);
    }
  }

  predicate AllStorable(fs: seq<Finding>) {
    forall k :: 0 <= k < |fs| ==> Storable(fs[k])
  }

  lemma {:induction false} DoubleKeeps(x: string, c: char)
    requires c != '"' && c !in x
    ensures c !in JsText.Double(x, '"')
  {
    if x != [] {
      DoubleKeeps(x[1..], c);
      var head := if x[0] == '"' then ['"', '"'] else [x[0]];
      Seqs.InConcat(head, JsText.Double(x[1..], '"'), c);
    }
  }

  lemma QuotedKeeps(x: string, c: char)
    requires c != '"' && c !in x
    ensures c !in Quoted(x)
  {
    Seqs.InConcat(['"'] + x, ['"'], c);
    Seqs.InConcat(['"'], x, c);
  }

  lemma {:induction false} JoinKeeps(parts: seq<string>, sep: char, c: char)
    requires c != sep && forall k :: 0 <= k < |parts| ==> c !in parts[k]
    ensures c !in JsText.Join(parts, sep)
  {
    if |parts| > 1 {
      JoinKeeps(parts[1..], sep, c);
      Seqs.InConcat(parts[0] + [sep], JsText.Join(parts[1..], sep), c);
      Seqs.InConcat(parts[0], [sep], c);
    }
  }

  lemma RowNoNewline(f: Finding)
    requires Storable(f)
    ensures '\n' !in Row(f)
  {
    DecimalPlain(f.lineNum);
    DoubleKeeps(f.code, '\n');
    DoubleKeeps(f.remediation, '\n');
    QuotedKeeps(f.filename, '\n');
    QuotedKeeps(f.functionName, '\n');
    QuotedKeeps(JsText.Decimal(f.lineNum), '\n');
    QuotedKeeps(JsText.Double(f.code, '"'), '\n');
    QuotedKeeps(f.category, '\n');
    QuotedKeeps(f.severity, '\n');
    QuotedKeeps(JsText.Double(f.remediation, '"'), '\n');
    JoinKeeps(Cells(f), ',', '\n');
  }

  /** Lines free of newlines split back out of their text, line by line. */
  lemma {:induction false} SplitLines(rows: seq<string>, tail: string)
    requires forall k :: 0 <= k < |rows| ==> '\n' !in rows[k]
    ensures JsText.Split(Lines(rows) + tail, '\n') == rows + JsText.Split(tail, '\n')
  {
    if rows == [] {
      assert Lines(rows) + tail == tail;
    } else {
      SplitLines(rows[1..], tail);
      Seqs.Assoc(rows[0], "\n", Lines(rows[1..]), tail);
      JsText.SplitAfter(rows[0], Lines(rows[1..]) + tail, '\n');
      Seqs.Cons(rows, JsText.Split(tail, '\n'));
    }
  }

  /** A file that holds the header and then the rows of `fs`. */
  predicate Holds(file: Option<string>, fs: seq<Finding>) {
    file == Some(Header + Lines(Rows(fs)))
  }

  /** The first `addFindings` on an absent file writes the header and the rows. */
  lemma AddToAbsent(fs: seq<Finding>)
    ensures Holds(Some(Appended(None, fs)), fs)
  {
    AppendixLines(fs);
  }

  /** Appending keeps what is stored: the file then holds the earlier rows followed by the new ones. */
  lemma AddKeeps(file: Option<string>, fs: seq<Finding>, more: seq<Finding>)
    requires Holds(file, fs)
    ensures Holds(Some(Appended(file, more)), fs + more)
  {
    var old_ := Lines(Rows(fs));
    var new_ := Lines(Rows(more));
    AppendixLines(more);
    assert Appended(file, more) == Header + old_ + new_;
    Seqs.Assoc3(Header, old_, new_);
    RowsConcat(fs, more);
    LinesConcat(Rows(fs), Rows(more));
  }

  lemma HeaderPlain()
    ensures '\n' !in HeaderLine && HeaderLine[0] == 'F'
  {
  }

  /** A stored file splits into the header line, the rows and a last empty piece. */
  lemma SplitStored(rows: seq<string>)
    requires forall k :: 0 <= k < |rows| ==> '\n' !in rows[k]
    ensures JsText.Split(Header + Lines(rows), '\n') == [HeaderLine] + rows + [""]
  {
    HeaderPlain();
    SplitLines(rows, "");
    assert Lines(rows) + "" == Lines(rows);
    Seqs.Assoc3(HeaderLine, "\n", Lines(rows));
    JsText.SplitAfter(HeaderLine, Lines(rows), '\n');
    assert JsText.Split("", '\n') == [""];
    Seqs.Assoc3([HeaderLine], rows, [""]);
  }

  /** The header and the rows all survive the blank-line filter; the last empty piece does not. */
  lemma StoredNonBlank(fs: seq<Finding>)
    ensures NonBlank([HeaderLine] + Rows(fs) + [""]) == [HeaderLine] + Rows(fs)
  {
    var parts := [HeaderLine] + Rows(fs);
    HeaderPlain();
    NonBlankConcat(parts, [""]);
    assert NonBlank([""]) == [] by {
      assert JsText.IsBlank("");
    }
    forall k | 0 <= k < |parts| ensures parts[k] != [] && !JsText.IsWhitespace(parts[k][0]) {
      if k > 0 {
        assert parts[k] == Row(fs[k - 1]);
        JoinStart(Cells(fs[k - 1]), ',');
      }
    }
    NonBlankKeeps(parts);
  }

  /** Reading back a file that holds storable findings gives their records, in order. */
  lemma ReadBack(file: Option<string>, fs: seq<Finding>)
    requires Holds(file, fs) && AllStorable(fs)
    ensures FindingsIn(file) == StoredAll(fs)
  {
    var rows := Rows(fs);
    assert NonBlank(JsText.Split(file.value, '\n')) == [HeaderLine] + rows by {
      forall k | 0 <= k < |rows| ensures '\n' !in rows[k] {
        RowNoNewline(fs[k]);
      }
      SplitStored(rows);
      StoredNonBlank(fs);
    }
    assert ([HeaderLine] + rows)[1..] == rows;
    ParsedRows(fs);
  }

  /** Two appends on a fresh tracker read back as the two lists, one after the other. */
  lemma AppendRoundTrip(a: seq<Finding>, b: seq<Finding>)
    requires AllStorable(a) && AllStorable(b)
    ensures FindingsIn(Some(Appended(Some(Appended(None, a)), b))) == StoredAll(a + b)
  {
    AddToAbsent(a);
    AddKeeps(Some(Appended(None, a)), a, b);
    assert AllStorable(a + b) by {
      forall k | 0 <= k < |a + b| ensures Storable((a + b)[k]) {
        Seqs.ConcatIndex(a, b, k);
      }
    }
    ReadBack(Some(Appended(Some(Appended(None, a)), b)), a + b);
  }

  /** A file holding only the header has no findings. */
  lemma HeaderOnly()
    ensures FindingsIn(Some(Header)) == []
  {
    HeaderPlain();
    assert Header == HeaderLine + ['\n'] + "";
    JsText.SplitAfter(HeaderLine, "", '\n');
    NonBlankConcat([HeaderLine], [""]);
  }

  // ---- the tracker

  /** A tracker of one project's CSV file; `file` is its content, `None` while it does not exist. */
  class Tracker {
    const projectName: string
    var file: Option<string>

    constructor(projectName: string, existing: Option<string>)
      ensures this.projectName == projectName && file == existing
    {
      this.projectName := projectName;
      file := existing;
    }

    /** `initializeCSV`: write the header when the file does not exist, else leave it. */
    method InitializeCsv()
      modifies this
      ensures file == if old(file).None? then Some(Header) else old(file)
    {
      if file.None? {
        file := Some(Header);
      }
    }

    /** `addFindings`: make sure the file exists, then append the rows, if any. */
    method AddFindings(findings: seq<Finding>)
      modifies this
      ensures file == Some(Appended(old(file), findings))
    {
      InitializeCsv();
      ghost var start := file.value;
      var csvRows := JsText.Join(Rows(findings), '\n');
      if csvRows != "" {
        file := Some(file.value + csvRows + "\n");
      }
      assert file.value == start + Appendix(findings);
    }

    /** `getFindings`: the file's non-blank lines after the header, each parsed into a record. */
    method GetFindings() returns (records: seq<Record>)
      ensures records == FindingsIn(file)
    {
      if file.None? {
        return [];
      }
      var lines := NonBlank(JsText.Split(file.value, '\n'));
      if |lines| <= 1 {
        return [];
      }
      records := [];
      var i := 1;
      while i < |lines|
        invariant 1 <= i <= |lines|
        invariant |records| == i - 1
        invariant forall k :: 0 <= k < i - 1 ==> records[k] == RecordOf(Fields(lines[k + 1]))
      {
        var values := ParseCsvLine(lines[i]);
        records := records + [RecordOf(values)];
        i := i + 1;
      }
      assert records == Parsed(lines[1..]);
    }
  }
}
