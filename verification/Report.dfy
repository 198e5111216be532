/** A generated report: one list of admin actions, printed as CSV and as PDF. */
module Report {
  import opened Text
  import opened Csv
  import PdfWriter
  import PdfReader
  import PdfRoundTrip

  datatype Admin = Admin(fullName: string, email: string)

  /** A row of the admin action table; texts that may be null are empty then. */
  datatype Action = Action(
    performedAt: Option<Plain>, actionType: string, actionLabel: string, resourceType: string,
    resourceId: string, status: string, reason: string, admin: Option<Admin>)

  datatype Entry = Entry(
    performedAt: Option<Plain>, adminName: string, actionType: string, actionLabel: string,
    resourceType: string, resourceId: string, status: string, reason: string)

  function AdminName(admin: Option<Admin>): string {
    match admin
    case None => ""
    case Some(a) => if a.fullName != "" then a.fullName else a.email
  }

  function EntryOf(r: Action): Entry {
    Entry(r.performedAt, AdminName(r.admin), r.actionType, r.actionLabel, r.resourceType, r.resourceId, r.status, r.reason)
  }

  function Entries(rows: seq<Action>): seq<Entry> {
    seq(|rows|, i requires 0 <= i < |rows| => EntryOf(rows[i]))
  }

  function PerformedAt(r: Entry): Cell { if r.performedAt.None? then Null else Date(r.performedAt.value) }
  function AdminCell(r: Entry): Cell { Str(r.adminName) }
  function ActionType(r: Entry): Cell { Str(r.actionType) }
  function ActionLabel(r: Entry): Cell { Str(r.actionLabel) }
  function ResourceType(r: Entry): Cell { Str(r.resourceType) }
  function ResourceId(r: Entry): Cell { Str(r.resourceId) }
  function Status(r: Entry): Cell { Str(r.status) }
  function Reason(r: Entry): Cell { Str(r.reason) }

  function Columns(): seq<Column<Entry>> {
    [Column("Performed At", PerformedAt), Column("Admin", AdminCell), Column("Action Type", ActionType),
     Column("Action Label", ActionLabel), Column("Resource Type", ResourceType), Column("Resource ID", ResourceId),
     Column("Status", Status), Column("Reason", Reason)]
  }

  // ----- clipping

  /** How many bytes the UTF-8 character with this first byte has. */
  function Width(first: char): (w: nat)
    ensures 1 <= w <= 4
  {
    if first as int < 0xC0 then 1 else if first as int < 0xE0 then 2 else if first as int < 0xF0 then 3 else 4
  }

  /** The character in front of a text that is not empty. */
  function FirstCharacter(s: string): (c: string)
    requires s != ""
    ensures c != "" && c <= s && |c| <= Width(s[0])
  {
    if |s| < Width(s[0]) then s else s[..Width(s[0])]
  }

  /** UTF-16 needs two units for the characters of four bytes and one for all others. */
  function UnitsOf(c: string): (n: nat)
    ensures 1 <= n <= 2
  {
    if |c| == 4 then 2 else 1
  }

  /** The length property of a text. */
  function Units(s: string): nat {
    if s == "" then 0 else UnitsOf(FirstCharacter(s)) + Units(s[|FirstCharacter(s)|..])
  }

  /** Half of a character of two units is written as U+FFFD. */
  const REPLACEMENT: string := [0xEF as char, 0xBF as char, 0xBD as char]

  /** slice(0, n), which counts UTF-16 units, on the UTF-8 bytes of a text. */
  function Clip(s: string, n: nat): string {
    if s == "" || n == 0 then ""
    else
      var c := FirstCharacter(s);
      if UnitsOf(c) > n then REPLACEMENT else c + Clip(s[|c|..], n - UnitsOf(c))
  }

  /** A prefix of a text and the mark of half a character. */
  predicate EndsInHalf(clipped: string, s: string) {
    |clipped| >= 3 && clipped[|clipped| - 3..] == REPLACEMENT && clipped[..|clipped| - 3] <= s
  }

  lemma UnitsOfFirst(c: string, rest: string)
    requires c != "" && Width(c[0]) == |c|
    ensures Units(c + rest) == UnitsOf(c) + Units(rest)
  {
    assert FirstCharacter(c + rest) == c && (c + rest)[|c|..] == rest;
  }

  lemma ClipStep(s: string, n: nat)
    requires s != "" && n > 0
    ensures s == FirstCharacter(s) + s[|FirstCharacter(s)|..]
    ensures var c := FirstCharacter(s);
            if UnitsOf(c) > n then Clip(s, n) == REPLACEMENT && EndsInHalf(Clip(s, n), s)
            else Clip(s, n) == c + Clip(s[|c|..], n - UnitsOf(c))
  {
  }

  /** A clipped text is a prefix of the text, up to half of a character at the cut. */
  lemma {:induction false} ClipIsPrefix(s: string, n: nat)
    ensures Clip(s, n) <= s || EndsInHalf(Clip(s, n), s)
  {
    if s != "" && n > 0 {
      ClipStep(s, n);
      hide Clip, FirstCharacter, UnitsOf, EndsInHalf;
      var c, rest := FirstCharacter(s), s[|FirstCharacter(s)|..];
      if UnitsOf(c) <= n {
        var r := Clip(rest, n - UnitsOf(c));
        ClipIsPrefix(rest, n - UnitsOf(c));
        if EndsInHalf(r, rest) {
          PrependHalf(c, r, rest);
        } else {
          assert c + r <= c + rest;
        }
      }
    }
  }

  lemma PrependHalf(c: string, r: string, rest: string)
    requires EndsInHalf(r, rest)
    ensures EndsInHalf(c + r, c + rest)
  {
    assert (c + r)[|c + r| - 3..] == r[|r| - 3..];
    assert (c + r)[..|c + r| - 3] == c + r[..|r| - 3];
  }

  lemma {:induction false} ClipWhole(s: string, n: nat)
    requires Units(s) <= n
    ensures Clip(s, n) == s
  {
    hide FirstCharacter, UnitsOf, Clip, Units, EndsInHalf;
    if s == "" {
      ClipNothing(n);
    } else {
      UnitsStep(s);
      ClipStep(s, n);
      ClipWhole(s[|FirstCharacter(s)|..], n - UnitsOf(FirstCharacter(s)));
    }
  }

  lemma {:induction false} ClipUnits(s: string, n: nat)
    ensures Units(Clip(s, n)) == if Units(s) <= n then Units(s) else n
  {
    if s != "" && n > 0 {
      ClipStep(s, n);
      UnitsStep(s);
      hide Clip, FirstCharacter, UnitsOf, EndsInHalf, Width, Units;
      var c, rest := FirstCharacter(s), s[|FirstCharacter(s)|..];
      if UnitsOf(c) > n {
        UnitsOfReplacement();
      } else {
        ClipUnits(rest, n - UnitsOf(c));
        if |c| == Width(c[0]) {
          UnitsOfFirst(c, Clip(rest, n - UnitsOf(c)));
        } else {
          LastIsShort(s);
          ClipNothing(n - UnitsOf(c));
          assert c + "" == c;
        }
      }
    } else {
      ClipNothing(n);
    }
  }

  /** A clipped text has n units, or as many as there are, and is the text itself exactly if that has no more. */
  lemma ClipIff(s: string, n: nat)
    ensures Units(Clip(s, n)) == if Units(s) <= n then Units(s) else n
    ensures Clip(s, n) == s <==> Units(s) <= n
  {
    hide Clip, Units;
    ClipUnits(s, n);
    if Units(s) <= n {
      ClipWhole(s, n);
    }
  }

  lemma UnitsStep(s: string)
    requires s != ""
    ensures Units(s) == UnitsOf(FirstCharacter(s)) + Units(s[|FirstCharacter(s)|..])
    ensures FirstCharacter(s)[0] == s[0] && Units(s) >= 1
  {
  }

  lemma UnitsOfReplacement()
    ensures Units(REPLACEMENT) == 1 && |REPLACEMENT| == 3
  {
    UnitsOfFirst(REPLACEMENT, "");
    assert REPLACEMENT + "" == REPLACEMENT;
  }

  lemma LastIsShort(s: string)
    requires s != "" && |FirstCharacter(s)| != Width(s[0])
    ensures FirstCharacter(s) == s && s[|s|..] == ""
  {
  }

  lemma ClipNothing(n: nat)
    ensures Clip("", n) == "" && Units("") == 0
  {
  }

  // ----- clipping encoded texts

  /** UTF-8, byte by byte. */
  function Utf8(point: nat): (bytes: string)
    requires point < 0x11_0000
  {
    if point < 0x80 then [point as char]
    else if point < 0x800 then [(0xC0 + point / 64) as char, Continuation(point)]
    else if point < 0x1_0000 then [(0xE0 + point / 4096) as char, Continuation(point / 64), Continuation(point)]
    else [(0xF0 + point / 262144) as char, Continuation(point / 4096), Continuation(point / 64), Continuation(point)]
  }

  function Continuation(bits: nat): char {
    (0x80 + bits % 64) as char
  }

  type Point = p: nat | p < 0x11_0000

  function Encode(points: seq<Point>): string {
    if points == [] then "" else Utf8(points[0]) + Encode(points[1..])
  }

  /** UTF-16 has surrogate pairs from U+10000 on. */
  function Utf16Units(p: Point): nat {
    if p >= 0x1_0000 then 2 else 1
  }

  function Utf16Length(points: seq<Point>): nat {
    if points == [] then 0 else Utf16Units(points[0]) + Utf16Length(points[1..])
  }

  /** The first n units of a text, where half of a pair is decoded as U+FFFD. */
  function ClipPoints(points: seq<Point>, n: nat): seq<Point> {
    if points == [] || n == 0 then []
    else if Utf16Units(points[0]) > n then [0xFFFD]
    else [points[0]] + ClipPoints(points[1..], n - Utf16Units(points[0]))
  }

  lemma FirstOfEncoded(p: Point, rest: string)
    ensures FirstCharacter(Utf8(p) + rest) == Utf8(p) && UnitsOf(Utf8(p)) == Utf16Units(p)
    ensures (Utf8(p) + rest)[|Utf8(p)|..] == rest
  {
  }

  /** The length of an encoded text is that of UTF-16. */
  lemma {:induction false} UnitsOfEncoded(points: seq<Point>)
    ensures Units(Encode(points)) == Utf16Length(points)
  {
    if points != [] {
      hide Utf8, FirstCharacter, UnitsOf;
      FirstOfEncoded(points[0], Encode(points[1..]));
      UnitsOfEncoded(points[1..]);
    }
  }

  lemma ReplacementIsEncoded()
    ensures Encode([0xFFFD]) == REPLACEMENT
  {
    assert [0xFFFD as Point][1..] == [];
  }

  /** Clipping an encoded text is the encoding of its first n UTF-16 units. */
  lemma {:induction false} ClipOfEncoded(points: seq<Point>, n: nat)
    ensures Clip(Encode(points), n) == Encode(ClipPoints(points, n))
  {
    if points != [] && n > 0 {
      var p, rest := points[0], points[1..];
      EncodeOne(p, rest);
      ClipOneEncoded(p, Encode(rest), n);
      ReplacementIsEncoded();
      hide Utf8, Clip, Encode, REPLACEMENT;
      assert points == [p] + rest;
      if Utf16Units(p) <= n {
        ClipOfEncoded(rest, n - Utf16Units(p));
        EncodeOne(p, ClipPoints(rest, n - Utf16Units(p)));
      }
    }
  }

  lemma EncodeOne(p: Point, rest: seq<Point>)
    ensures Encode([p] + rest) == Utf8(p) + Encode(rest)
  {
    hide Utf8;
    assert ([p] + rest)[1..] == rest;
  }

  lemma ClipOneEncoded(p: Point, rest: string, n: nat)
    requires n > 0
    ensures Clip(Utf8(p) + rest, n) == if Utf16Units(p) > n then REPLACEMENT else Utf8(p) + Clip(rest, n - Utf16Units(p))
  {
    FirstOfEncoded(p, rest);
    hide Utf8, FirstCharacter, UnitsOf;
  }

  // ----- the report

  function TimeText(t: Option<Plain>): string {
    if t.None? then "" else t.value
  }

  function LineText(time: string, admin: string, action: string, status: string, resource: string): string {
    time + " | " + Clip(admin, 40) + " | " + Clip(action, 50) + " | " + Clip(status, 20) + " | " + Clip(resource, 36)
  }

  function PdfLines(heading: seq<string>, data: seq<Entry>): (lines: seq<string>)
    ensures |lines| == |heading| + |data|
  {
    heading + seq(|data|, i requires 0 <= i < |data| =>
      LineText(TimeText(data[i].performedAt), data[i].adminName, data[i].actionLabel, data[i].status, data[i].resourceId))
  }

  function Heading(moduleKey: string, startDate: string, endDate: string): (lines: seq<string>)
    ensures |lines| == 4
  {
    [moduleKey + " report", "Date range: " + startDate + " - " + endDate, "",
     "Performed At | Admin | Action Label | Status | Resource ID"]
  }

  datatype Generated = Generated(csv: string, pdf: string, rowCount: nat)

  function BuildGeneratedReport(moduleKey: string, startDate: string, endDate: string, rows: seq<Action>): Generated {
    var data := Entries(rows);
    Generated(BuildCsv(Columns(), data), PdfWriter.Pdf(PdfLines(Heading(moduleKey, startDate, endDate), data)), |data|)
  }

  // ----- what the two files say

  function Headers(): seq<string> {
    ["Performed At", "Admin", "Action Type", "Action Label", "Resource Type", "Resource ID", "Status", "Reason"]
  }

  function TextOr(t: Option<Plain>): string {
    match t
    case Some(text) => text
    case None => ""
  }

  /** The full name of an admin, or the e-mail if that is empty; actions without an admin have neither. */
  function NameOrEmail(admin: Option<Admin>): string {
    if admin == None then ""
    else if admin.value.fullName == "" then admin.value.email
    else admin.value.fullName
  }

  /** The record of an action under these headers. */
  function RecordOf(r: Action): (fields: seq<string>)
    ensures |fields| == 8
  {
    [TextOr(r.performedAt), NameOrEmail(r.admin), r.actionType, r.actionLabel, r.resourceType, r.resourceId, r.status, r.reason]
  }

  /** The PDF line of an action: five fields, four of them cut off. */
  function LineOf(r: Action): string {
    Join([TextOr(r.performedAt), Clip(NameOrEmail(r.admin), 40), Clip(r.actionLabel, 50), Clip(r.status, 20), Clip(r.resourceId, 36)], " | ")
  }

  function Records(rows: seq<Action>): (records: seq<seq<string>>)
    ensures |records| == |rows|
  {
    seq(|rows|, i requires 0 <= i < |rows| => RecordOf(rows[i]))
  }

  /** The lines of the PDF: module, range, a blank line, the names of the fields, and the actions. */
  function ReportLines(moduleKey: string, startDate: string, endDate: string, rows: seq<Action>): (lines: seq<string>)
    ensures |lines| == 4 + |rows|
  {
    [moduleKey + " report", "Date range: " + startDate + " - " + endDate, "",
     "Performed At | Admin | Action Label | Status | Resource ID"]
    + seq(|rows|, i requires 0 <= i < |rows| => LineOf(rows[i]))
  }

  lemma JoinFive(a: string, b: string, c: string, d: string, e: string)
    ensures Join([a, b, c, d, e], " | ") == a + " | " + b + " | " + c + " | " + d + " | " + e
  {
    hide Join;
    JoinOne(a, " | ");
    JoinSnoc([a], b, " | ");
    JoinSnoc([a, b], c, " | ");
    JoinSnoc([a, b, c], d, " | ");
    JoinSnoc([a, b, c, d], e, " | ");
    assert [a] + [b] == [a, b] && [a, b] + [c] == [a, b, c] && [a, b, c] + [d] == [a, b, c, d];
    assert [a, b, c, d] + [e] == [a, b, c, d, e];
  }

  lemma RenderedHeaders(data: seq<Entry>)
    ensures Rendered(Cells(Columns(), data)[0]) == Headers()
  {
  }

  /** The eight texts of an entry, by the meaning of the columns. */
  function Fields(e: Entry): (fields: seq<string>)
    ensures |fields| == 8
  {
    [TextOr(e.performedAt), e.adminName, e.actionType, e.actionLabel, e.resourceType, e.resourceId, e.status, e.reason]
  }

  lemma RenderedEntry(data: seq<Entry>, k: nat)
    requires 1 <= k <= |data|
    ensures Rendered(Cells(Columns(), data)[k]) == Fields(data[k - 1])
  {
  }

  lemma FieldsOfEntry(r: Action)
    ensures Fields(EntryOf(r)) == RecordOf(r)
  {
  }

  lemma RenderedRecords(rows: seq<Action>)
    ensures RenderedTable(Cells(Columns(), Entries(rows))) == [Headers()] + Records(rows)
  {
    hide Columns, Headers, RecordOf, Fields, Rendered, EntryOf;
    var table := RenderedTable(Cells(Columns(), Entries(rows)));
    RenderedHeaders(Entries(rows));
    forall k | 1 <= k <= |rows|
      ensures table[k] == ([Headers()] + Records(rows))[k]
    {
      RenderedEntry(Entries(rows), k);
      FieldsOfEntry(rows[k - 1]);
    }
  }

  lemma LineOfEntry(r: Action)
    ensures var e := EntryOf(r);
            LineText(TimeText(e.performedAt), e.adminName, e.actionLabel, e.status, e.resourceId) == LineOf(r)
  {
    hide Clip, Join;
    JoinFive(TextOr(r.performedAt), Clip(NameOrEmail(r.admin), 40), Clip(r.actionLabel, 50), Clip(r.status, 20), Clip(r.resourceId, 36));
  }

  lemma LinesAgree(moduleKey: string, startDate: string, endDate: string, rows: seq<Action>)
    ensures PdfLines(Heading(moduleKey, startDate, endDate), Entries(rows)) == ReportLines(moduleKey, startDate, endDate, rows)
  {
    hide Clip, Join, LineText, LineOf, EntryOf, TimeText;
    forall i | 0 <= i < |rows|
      ensures PdfLines(Heading(moduleKey, startDate, endDate), Entries(rows))[4 + i] == LineOf(rows[i])
    {
      LineOfEntry(rows[i]);
    }
  }

  /**
   Both files can be read back and tell the same story: the CSV has the headers and one record for
   every action, and the PDF shows the heading and the lines of the same actions, cut off after 50
   lines, on one page.
   */
  lemma ReportsAgree(moduleKey: string, startDate: string, endDate: string, rows: seq<Action>)
    ensures var g := BuildGeneratedReport(moduleKey, startDate, endDate, rows);
            && g.rowCount == |rows|
            && ReadTable(g.csv) == Some([Headers()] + Records(rows))
            && PdfReader.ReadPage(g.pdf).Some?
            && PdfReader.ReadPage(g.pdf).value.shown
            == PdfRoundTrip.PageOf(PdfWriter.SafeLines(ReportLines(moduleKey, startDate, endDate, rows)))
  {
    hide PdfRoundTrip.PageOf, PdfReader.ReadPage, PdfWriter.Pdf, ReadTable, BuildCsv, Heading, ReportLines;
    var data := Entries(rows);
    CsvRoundTrip(Columns(), data);
    RenderedRecords(rows);
    PdfRoundTrip.ReadInvertsPrint(PdfLines(Heading(moduleKey, startDate, endDate), data));
    LinesAgree(moduleKey, startDate, endDate, rows);
  }
}
