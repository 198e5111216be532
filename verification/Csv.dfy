/**
 The CSV printer: quoting, joining, and the two forms of output. Records are separated by LF,
 which is what the code writes; otherwise the reader follows section 2 of RFC 4180.
 */
module Csv {
  import opened Text

  // ----- printing

  predicate NeedsQuote(s: string) {
    '"' in s || ',' in s || '\n' in s
  }

  /** What toISOString and String(n) return for dates and finite numbers never needs quotes. */
  type Plain = s: string | !NeedsQuote(s) witness ""

  datatype Cell = Null | Date(iso: Plain) | Bool(b: bool) | Finite(digits: Plain) | NonFinite | Str(s: string)

  /** The text of a cell before quoting. */
  function Render(c: Cell): string {
    match c
    case Null => ""
    case Date(iso) => iso
    case Bool(b) => if b then "true" else "false"
    case Finite(digits) => digits
    case NonFinite => ""
    case Str(s) => s
  }

  /** What a value reads as: nothing for null and for numbers that are not finite, the words for booleans, and texts as they are. */
  lemma RenderedValues(s: string, b: bool)
    ensures Render(Null) == "" && Render(NonFinite) == "" && Render(Str(s)) == s
    ensures Render(Bool(b)) == (match b case true => "true" case false => "false")
    ensures !NeedsQuote(s) ==> Render(Date(s)) == s && Render(Finite(s)) == s
  {
  }

  function Quote(val: string): string {
    var escaped := ReplaceAll(val, '"', "\"\"");
    if NeedsQuote(val) then "\"" + escaped + "\"" else escaped
  }

  /** Null and dates are returned as they are; everything else goes through quoting. */
  function ToCsvValue(c: Cell): string {
    if c.Null? then ""
    else if c.Date? then c.iso
    else Quote(Render(c))
  }

  datatype Column<!T> = Column(header: string, select: T -> Cell)

  function HeaderLine<T>(columns: seq<Column<T>>): string {
    Join(seq(|columns|, i requires 0 <= i < |columns| => ToCsvValue(Str(columns[i].header))), ",")
  }

  function DataLine<T>(columns: seq<Column<T>>, row: T): string {
    Join(seq(|columns|, i requires 0 <= i < |columns| => ToCsvValue(columns[i].select(row))), ",")
  }

  function Lines<T>(columns: seq<Column<T>>, rows: seq<T>): seq<string> {
    [HeaderLine(columns)] + seq(|rows|, i requires 0 <= i < |rows| => DataLine(columns, rows[i]))
  }

  function BuildCsv<T>(columns: seq<Column<T>>, rows: seq<T>): string {
    Join(Lines(columns, rows), "\n")
  }

  /** The HTTP response that a CSV is streamed into. */
  class Response {
    var headers: map<string, string>
    var body: string
    var ended: bool

    constructor ()
      ensures headers == map[] && body == "" && !ended
    {
      headers, body, ended := map[], "", false;
    }

    method SetHeader(name: string, value: string)
      modifies this`headers
      ensures headers == old(headers)[name := value]
    {
      headers := headers[name := value];
    }

    method Write(chunk: string)
      requires !ended
      modifies this`body
      ensures body == old(body) + chunk
    {
      body := body + chunk;
    }

    method End()
      modifies this`ended
      ensures ended
    {
      ended := true;
    }
  }

  lemma JoinOne(part: string, separator: string)
    ensures Join([part], separator) == part
  {
  }

  /** A join grows at its end by a separator and a part. */
  lemma {:induction false} JoinSnoc(parts: seq<string>, last: string, separator: string)
    requires parts != []
    ensures Join(parts + [last], separator) == Join(parts, separator) + separator + last
  {
    if |parts| == 1 {
      assert (parts + [last])[1..] == [last];
    } else {
      assert (parts + [last])[1..] == parts[1..] + [last];
      JoinSnoc(parts[1..], last, separator);
    }
  }

  /** What is streamed is the whole CSV text and one more newline. */
  method StreamCsv<T>(res: Response, filename: string, columns: seq<Column<T>>, rows: seq<T>)
    requires !res.ended
    modifies res
    ensures res.ended
    ensures res.body == old(res.body) + BuildCsv(columns, rows) + "\n"
    ensures res.headers
         == old(res.headers)["Content-Type" := "text/csv"]["Content-Disposition" := "attachment; filename=\"" + filename + "\""]
  {
    hide HeaderLine, DataLine, Join;
    res.SetHeader("Content-Type", "text/csv");
    res.SetHeader("Content-Disposition", "attachment; filename=\"" + filename + "\"");
    res.Write(HeaderLine(columns) + "\n");
    var lines := Lines(columns, rows);
    assert lines[..1] == [HeaderLine(columns)];
    JoinOne(HeaderLine(columns), "\n");
    for i := 0 to |rows|
      invariant !res.ended
      invariant res.headers
             == old(res.headers)["Content-Type" := "text/csv"]["Content-Disposition" := "attachment; filename=\"" + filename + "\""]
      invariant res.body == old(res.body) + Join(lines[..i + 1], "\n") + "\n"
    {
      var line := DataLine(columns, rows[i]);
      assert lines[..i + 2] == lines[..i + 1] + [line];
      JoinSnoc(lines[..i + 1], line, "\n");
      res.Write(line + "\n");
    }
    assert lines[..|rows| + 1] == lines;
    res.End();
  }

  // ----- reading

  predicate EndsField(s: string) {
    s == "" || s[0] == ',' || s[0] == '\n'
  }

  /** The rest of a quoted field: two quotes stand for one, a single quote ends the field. */
  function ReadQuoted(s: string): (r: Option<Taken<string>>)
    ensures r.Some? ==> |r.value.rest| < |s|
  {
    if s == "" then None
    else if s[0] != '"' then
      var t :- ReadQuoted(s[1..]);
      Some(Taken([s[0]] + t.value, t.rest))
    else if |s| > 1 && s[1] == '"' then
      var t :- ReadQuoted(s[2..]);
      Some(Taken("\"" + t.value, t.rest))
    else if EndsField(s[1..]) then Some(Taken("", s[1..]))
    else None
  }

  /** A field that is not quoted has no quote, comma or newline in it. */
  function ReadBare(s: string): (r: Option<Taken<string>>)
    ensures r.Some? ==> |r.value.rest| <= |s|
  {
    if EndsField(s) then Some(Taken("", s))
    else if s[0] == '"' then None
    else
      var t :- ReadBare(s[1..]);
      Some(Taken([s[0]] + t.value, t.rest))
  }

  function ReadField(s: string): (r: Option<Taken<string>>)
    ensures r.Some? ==> |r.value.rest| <= |s|
  {
    if s != "" && s[0] == '"' then ReadQuoted(s[1..]) else ReadBare(s)
  }

  datatype Record = Record(fields: seq<string>, rest: string)

  function ReadRecord(s: string): (r: Option<Record>)
    ensures r.Some? ==> |r.value.rest| <= |s|
    decreases |s|
  {
    var field :- ReadField(s);
    if "," <= field.rest then
      var more :- ReadRecord(field.rest[1..]);
      Some(Record([field.value] + more.fields, more.rest))
    else Some(Record([field.value], field.rest))
  }

  function ReadTable(s: string): Option<seq<seq<string>>>
    decreases |s|
  {
    var first :- ReadRecord(s);
    if first.rest == "" then Some([first.fields])
    else
      var others :- ReadTable(first.rest[1..]);
      Some([first.fields] + others)
  }

  // ----- the round trip

  lemma {:induction false} QuotedReadsBack(val: string, rest: string)
    requires EndsField(rest)
    ensures ReadQuoted(ReplaceAll(val, '"', "\"\"") + ("\"" + rest)) == Some(Taken(val, rest))
  {
    var escaped := ReplaceAll(val, '"', "\"\"");
    if val == "" {
      assert escaped + ("\"" + rest) == "\"" + rest;
      assert ("\"" + rest)[1..] == rest;
    } else {
      var tail := ReplaceAll(val[1..], '"', "\"\"") + ("\"" + rest);
      QuotedReadsBack(val[1..], rest);
      if val[0] == '"' {
        assert (escaped + ("\"" + rest))[2..] == tail;
      } else {
        assert (escaped + ("\"" + rest))[1..] == tail;
      }
      assert val == [val[0]] + val[1..];
    }
  }

  lemma {:induction false} NothingToEscape(val: string)
    requires '"' !in val
    ensures ReplaceAll(val, '"', "\"\"") == val
  {
    if val != "" {
      assert val == [val[0]] + val[1..];
      NothingToEscape(val[1..]);
    }
  }

  lemma {:induction false} BareReadsBack(val: string, rest: string)
    requires !NeedsQuote(val) && EndsField(rest)
    ensures ReadBare(val + rest) == Some(Taken(val, rest))
  {
    if val == "" {
      assert val + rest == rest;
    } else {
      var tail := val[1..];
      assert forall c :: c in tail ==> c in val;
      assert val[0] in val && (val + rest)[0] == val[0] && (val + rest)[1..] == tail + rest;
      BareReadsBack(tail, rest);
      assert val == [val[0]] + tail;
    }
  }

  /** Every cell reads back as its rendering, whatever characters it has. */
  lemma CellReadsBack(c: Cell, rest: string)
    requires EndsField(rest)
    ensures ReadField(ToCsvValue(c) + rest) == Some(Taken(Render(c), rest))
  {
    hide ReplaceAll, ReadQuoted;
    var val := Render(c);
    var escaped := ReplaceAll(val, '"', "\"\"");
    if NeedsQuote(val) {
      QuotedReadsBack(val, rest);
      assert ToCsvValue(c) + rest == "\"" + (escaped + ("\"" + rest));
    } else {
      BareReadsBack(val, rest);
      NothingToEscape(val);
      assert ToCsvValue(c) == val;
      assert val + rest != "" ==> (val + rest)[0] != '"';
    }
  }

  function Rendered(cells: seq<Cell>): (r: seq<string>)
    ensures |r| == |cells|
  {
    seq(|cells|, i requires 0 <= i < |cells| => Render(cells[i]))
  }

  function Printed(cells: seq<Cell>): seq<string> {
    seq(|cells|, i requires 0 <= i < |cells| => ToCsvValue(cells[i]))
  }

  lemma {:induction false} RecordReadsBack(cells: seq<Cell>, rest: string)
    requires cells != [] && (rest == "" || rest[0] == '\n')
    ensures ReadRecord(Join(Printed(cells), ",") + rest) == Some(Record(Rendered(cells), rest))
  {
    hide ReadField, ToCsvValue, Render;
    var s := Join(Printed(cells), ",") + rest;
    assert Printed(cells)[1..] == Printed(cells[1..]);
    if |cells| == 1 {
      CellReadsBack(cells[0], rest);
      assert Join(Printed(cells), ",") == ToCsvValue(cells[0]);
      assert Rendered(cells) == [Render(cells[0])];
    } else {
      var more := Join(Printed(cells[1..]), ",") + rest;
      assert s == ToCsvValue(cells[0]) + ("," + more);
      CellReadsBack(cells[0], "," + more);
      assert ("," + more)[1..] == more;
      RecordReadsBack(cells[1..], rest);
      assert Rendered(cells) == [Render(cells[0])] + Rendered(cells[1..]);
    }
  }

  function PrintedLines(table: seq<seq<Cell>>): seq<string> {
    seq(|table|, i requires 0 <= i < |table| => Join(Printed(table[i]), ","))
  }

  function RenderedTable(table: seq<seq<Cell>>): seq<seq<string>> {
    seq(|table|, i requires 0 <= i < |table| => Rendered(table[i]))
  }

  lemma {:induction false} TableReadsBack(table: seq<seq<Cell>>)
    requires table != [] && forall i :: 0 <= i < |table| ==> table[i] != []
    ensures ReadTable(Join(PrintedLines(table), "\n")) == Some(RenderedTable(table))
  {
    var line := Join(Printed(table[0]), ",");
    assert PrintedLines(table)[1..] == PrintedLines(table[1..]);
    assert RenderedTable(table) == [Rendered(table[0])] + RenderedTable(table[1..]);
    hide ReadRecord, Rendered, Printed;
    if |table| == 1 {
      RecordReadsBack(table[0], "");
      assert line + "" == line;
      assert Join(PrintedLines(table), "\n") == line;
      assert RenderedTable(table) == [Rendered(table[0])];
      assert ReadTable(line) == Some([Rendered(table[0])]);
    } else {
      var more := Join(PrintedLines(table[1..]), "\n");
      assert Join(PrintedLines(table), "\n") == line + ("\n" + more);
      RecordReadsBack(table[0], "\n" + more);
      assert ("\n" + more)[1..] == more;
      TableReadsBack(table[1..]);
    }
  }

  /** The cells of a table: the headers, then one record per row. */
  function Cells<T>(columns: seq<Column<T>>, rows: seq<T>): (table: seq<seq<Cell>>)
    ensures |table| == 1 + |rows|
    ensures forall i :: 0 <= i < |table| ==> |table[i]| == |columns|
  {
    [seq(|columns|, j requires 0 <= j < |columns| => Str(columns[j].header))]
    + seq(|rows|, i requires 0 <= i < |rows| => seq(|columns|, j requires 0 <= j < |columns| => columns[j].select(rows[i])))
  }

  lemma LinesOfCells<T>(columns: seq<Column<T>>, rows: seq<T>)
    ensures Lines(columns, rows) == PrintedLines(Cells(columns, rows))
  {
    hide Join, ToCsvValue;
    var table := Cells(columns, rows);
    assert Printed(table[0]) == seq(|columns|, i requires 0 <= i < |columns| => ToCsvValue(Str(columns[i].header)));
    assert HeaderLine(columns) == Join(Printed(table[0]), ",");
    forall i | 0 <= i < |rows|
      ensures DataLine(columns, rows[i]) == Join(Printed(table[i + 1]), ",")
    {
      assert Printed(table[i + 1]) == seq(|columns|, j requires 0 <= j < |columns| => ToCsvValue(columns[j].select(rows[i])));
    }
  }

  lemma EmptyTextIsNotEmpty(s: string)
    ensures ReadTable(s).Some? ==> ReadTable(s).value != [] && ReadTable(s).value[0] != []
  {
  }

  /** Headers and cells are recovered exactly when the table has a column at all. */
  lemma CsvRoundTrip<T>(columns: seq<Column<T>>, rows: seq<T>)
    ensures ReadTable(BuildCsv(columns, rows)) == Some(RenderedTable(Cells(columns, rows))) <==> |columns| >= 1
  {
    var table := Cells(columns, rows);
    LinesOfCells(columns, rows);
    if |columns| >= 1 {
      TableReadsBack(table);
    } else {
      EmptyTextIsNotEmpty(BuildCsv(columns, rows));
      assert RenderedTable(table)[0] == [];
    }
  }

  // ----- the streamed text, with its final newline

  /** The record of one empty field, which a final newline adds. */
  const BLANK: seq<seq<Cell>> := [[Str("")]]

  lemma PrintedBlank(table: seq<seq<Cell>>)
    requires table != []
    ensures Join(PrintedLines(table + BLANK), "\n") == Join(PrintedLines(table), "\n") + "\n"
    ensures RenderedTable(table + BLANK) == RenderedTable(table) + [[""]]
  {
    assert !NeedsQuote("") && Quote("") == "";
    assert Printed(BLANK[0]) == [""] && Rendered(BLANK[0]) == [""];
    assert PrintedLines(table + BLANK) == PrintedLines(table) + [""];
    JoinSnoc(PrintedLines(table), "", "\n");
  }

  /** What is printed depends on the renderings only. */
  lemma SamePrinted(a: seq<seq<Cell>>, b: seq<seq<Cell>>)
    requires RenderedTable(a) == RenderedTable(b)
    ensures PrintedLines(a) == PrintedLines(b)
  {
    assert |a| == |RenderedTable(a)| == |b|;
    forall i | 0 <= i < |a|
      ensures Printed(a[i]) == Printed(b[i])
    {
      assert RenderedTable(a)[i] == RenderedTable(b)[i];
      assert Rendered(a[i]) == Rendered(b[i]);
      forall j | 0 <= j < |a[i]|
        ensures ToCsvValue(a[i][j]) == ToCsvValue(b[i][j])
      {
        assert Rendered(a[i])[j] == Rendered(b[i])[j];
        PrintedIsQuoted(a[i][j]);
        PrintedIsQuoted(b[i][j]);
      }
    }
  }

  lemma PrintedIsQuoted(c: Cell)
    ensures ToCsvValue(c) == Quote(Render(c))
  {
    if c.Date? {
      NothingToEscape(c.iso);
    }
  }

  lemma {:induction false} JoinBlanks(lines: seq<string>)
    requires lines != [] && forall i :: 0 <= i < |lines| ==> lines[i] == ""
    ensures Join(lines, "\n") == seq(|lines| - 1, i => '\n')
  {
    if |lines| > 1 {
      JoinBlanks(lines[1..]);
      assert Join(lines, "\n") == ['\n'] + seq(|lines| - 2, i => '\n');
    }
  }

  /** Without columns only the number of rows is printed. */
  lemma NoColumns<T>(columns: seq<Column<T>>, rows: seq<T>)
    requires columns == []
    ensures BuildCsv(columns, rows) == seq(|rows|, i => '\n')
  {
    JoinBlanks(Lines(columns, rows));
  }

  /** The streamed text is read back as the table and a record of one empty field, exactly when there is a column. */
  lemma StreamedReadsBack<T>(columns: seq<Column<T>>, rows: seq<T>)
    ensures ReadTable(BuildCsv(columns, rows) + "\n") == Some(RenderedTable(Cells(columns, rows)) + [[""]]) <==> |columns| >= 1
  {
    var table := Cells(columns, rows);
    LinesOfCells(columns, rows);
    PrintedBlank(table);
    if |columns| >= 1 {
      TableReadsBack(table + BLANK);
    } else {
      EmptyTextIsNotEmpty(BuildCsv(columns, rows) + "\n");
      assert (RenderedTable(table) + [[""]])[0] == [];
    }
  }

  /**
   Exactly when the final newline is mistaken for rows: another list of rows prints the same text
   if it renders as the first one and a row of one empty cell, which takes a table of one column,
   or if there are no columns and it has one row more.
   */
  lemma FinalNewlineIff<T>(columns: seq<Column<T>>, rows: seq<T>, more: seq<T>)
    ensures BuildCsv(columns, more) == BuildCsv(columns, rows) + "\n"
       <==> if columns == [] then |more| == |rows| + 1
            else |columns| == 1 && RenderedTable(Cells(columns, more)) == RenderedTable(Cells(columns, rows)) + [[""]]
  {
    hide Cells, Lines, Join, ReadTable, RenderedTable, PrintedLines;
    if columns == [] {
      NoColumns(columns, rows);
      NoColumns(columns, more);
      assert |BuildCsv(columns, rows) + "\n"| == |rows| + 1;
      if |more| == |rows| + 1 {
        assert BuildCsv(columns, more) == BuildCsv(columns, rows) + "\n";
      }
    } else {
      var table, longer := Cells(columns, rows), Cells(columns, more);
      StreamedReadsBack(columns, rows);
      CsvRoundTrip(columns, more);
      LinesOfCells(columns, rows);
      LinesOfCells(columns, more);
      PrintedBlank(table);
      if RenderedTable(longer) == RenderedTable(table) + [[""]] {
        SamePrinted(longer, table + BLANK);
        OneColumn(columns, more, RenderedTable(table));
      }
    }
  }

  lemma OneColumn<T>(columns: seq<Column<T>>, rows: seq<T>, before: seq<seq<string>>)
    requires RenderedTable(Cells(columns, rows)) == before + [[""]]
    ensures |columns| == 1
  {
    var table, last := Cells(columns, rows), |before|;
    assert RenderedTable(table)[last] == [""];
    assert Rendered(table[last]) == [""];
  }
}
