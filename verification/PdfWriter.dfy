/**
 The hand-written PDF printer of the report service. Text is a sequence of bytes, one char
 per byte of its UTF-8 encoding, so Buffer.byteLength is the length of the sequence.
 */
module PdfWriter {
  import opened Text
  import opened Decimal

  const PAGE_WIDTH: nat := 612
  const PAGE_HEIGHT: nat := 792
  const MARGIN_LEFT: nat := 48
  const TOP_Y: nat := 760
  const LINE_HEIGHT: nat := 14
  const MAX_LINES: nat := (TOP_Y - 48) / LINE_HEIGHT

  const FILE_HEADER := "%PDF-1.4\n"
  const XREF_HEADER := "xref\n0 6\n"
  const FREE_ENTRY := "0000000000" + " " + "65535" + " f \n"
  const TRAILER := "trailer\n" + "<< /Size 6 /Root 1 0 R >>" + "\n" + "startxref\n"
  const EOF_MARK := "\n%%EOF\n"

  // ----- escaping

  function EscapePdfString(s: string): string {
    ReplaceAll(ReplaceAll(ReplaceAll(s, '\\', "\\\\"), '(', "\\("), ')', "\\)")
  }

  /** The reference definition: every character is replaced on its own, in one pass. */
  function EscapeEach(s: string): string {
    if s == "" then "" else EscapeChar(s[0]) + EscapeEach(s[1..])
  }

  function EscapeChar(c: char): string {
    if c == '\\' || c == '(' || c == ')' then ['\\', c] else [c]
  }

  lemma {:induction false} ReplaceAllConcat(a: string, b: string, c: char, repl: string)
    ensures ReplaceAll(a + b, c, repl) == ReplaceAll(a, c, repl) + ReplaceAll(b, c, repl)
  {
    if a == "" {
      assert a + b == b;
    } else {
      assert (a + b)[1..] == a[1..] + b;
      ReplaceAllConcat(a[1..], b, c, repl);
    }
  }

  /** Escaping one character through all three passes. */
  lemma EscapePdfChar(c: char)
    ensures EscapePdfString([c]) == EscapeChar(c)
  {
    assert ReplaceAll([c], '\\', "\\\\") == if c == '\\' then "\\\\" else [c];
    if c == '\\' {
      ReplaceAllConcat("\\", "\\", '(', "\\(");
      ReplaceAllConcat("\\", "\\", ')', "\\)");
      assert "\\" + "\\" == "\\\\" == ['\\', c];
      assert ReplaceAll("\\", '(', "\\(") == "\\" == ReplaceAll("\\", ')', "\\)");
    } else if c == '(' {
      assert ReplaceAll("(", '(', "\\(") == "\\(";
      ReplaceAllConcat("\\", "(", ')', "\\)");
      assert "\\" + "(" == "\\(";
      assert ReplaceAll("\\", ')', "\\)") == "\\" && ReplaceAll("(", ')', "\\)") == "(";
    } else {
      assert ReplaceAll([c], '(', "\\(") == [c];
    }
  }

  /** The three sequential passes amount to one simultaneous substitution. */
  lemma {:induction false} EscapeIsSimultaneous(s: string)
    ensures EscapePdfString(s) == EscapeEach(s)
  {
    if s != "" {
      var head, tail := [s[0]], s[1..];
      assert s == head + tail;
      var slashed := ReplaceAll(head, '\\', "\\\\");
      var parened := ReplaceAll(slashed, '(', "\\(");
      ReplaceAllConcat(head, tail, '\\', "\\\\");
      ReplaceAllConcat(slashed, ReplaceAll(tail, '\\', "\\\\"), '(', "\\(");
      ReplaceAllConcat(parened, ReplaceAll(ReplaceAll(tail, '\\', "\\\\"), '(', "\\("), ')', "\\)");
      EscapePdfChar(s[0]);
      EscapeIsSimultaneous(tail);
    }
  }

  // ----- the content stream

  function SafeLines(lines: seq<string>): seq<string> {
    if |lines| <= MAX_LINES then lines else lines[..MAX_LINES]
  }

  function ShowText(escaped: string): string {
    " Td (" + escaped + ") Tj"
  }

  function FirstOp(line: string): string {
    Show(MARGIN_LEFT) + " " + Show(TOP_Y) + ShowText(EscapePdfString(line))
  }

  function NextOp(line: string): string {
    "0 -" + Show(LINE_HEIGHT) + ShowText(EscapePdfString(line))
  }

  function ContentOps(lines: seq<string>): (ops: seq<string>)
    ensures |ops| == |lines|
  {
    seq(|lines|, i requires 0 <= i < |lines| => if i == 0 then FirstOp(lines[0]) else NextOp(lines[i]))
  }

  function ContentStream(lines: seq<string>): string {
    "BT\n/F1 10 Tf\n" + Join(ContentOps(SafeLines(lines)), "\n") + "\nET\n"
  }

  // ----- the file

  const CATALOG := "1 0 obj\n" + "<< /Type /Catalog " + "/Pages 2 0 R >>\nendobj\n"
  const PAGES := "2 0 obj\n" + "<< /Type /Pages " + "/Kids [3 0 R] " + "/Count 1 >>\nendobj\n"
  const FONT := "5 0 obj\n" + "<< /Type /Font " + "/Subtype /Type1 " + "/BaseFont /Helvetica " + ">>\nendobj\n"

  /** The dictionary of the page, entry by entry, and its end. */
  function PageDictionary(): string {
    "<< /Type /Page " + "/Parent 2 0 R " + "/MediaBox [0 0 " + Show(PAGE_WIDTH) + " " + Show(PAGE_HEIGHT) + "] "
    + "/Resources << " + "/Font << " + "/F1 5 0 R " + ">> " + ">> " + "/Contents 4 0 R >>\nendobj\n"
  }

  function Page(): string {
    "3 0 obj\n" + PageDictionary()
  }

  function StreamObject(stream: string): string {
    "4 0 obj\n<< /Length " + Show(|stream|) + " >>\nstream\n" + stream + "endstream\nendobj\n"
  }

  function Objects(stream: string): (objects: seq<string>)
    ensures |objects| == 5
  {
    [CATALOG, PAGES, Page(), StreamObject(stream), FONT]
  }

  /** The file as it stands before object i + 1 is appended. */
  function Before(objects: seq<string>, i: nat): string
    requires i <= |objects|
  {
    FILE_HEADER + Concat(objects[..i])
  }

  /** The byte offset at which object i, counted from 1, starts. */
  function Offset(objects: seq<string>, i: nat): nat
    requires 1 <= i <= |objects|
  {
    |Before(objects, i - 1)|
  }

  function XrefEntry(offset: nat): string {
    PadStart(Show(offset), 10) + " 00000 n \n"
  }

  /** The entries of objects 1..i. */
  function XrefEntries(objects: seq<string>, i: nat): string
    requires i <= |objects|
  {
    if i == 0 then "" else XrefEntries(objects, i - 1) + XrefEntry(Offset(objects, i))
  }

  function Document(objects: seq<string>): string {
    Before(objects, |objects|) + XREF_HEADER + FREE_ENTRY + XrefEntries(objects, |objects|)
    + TRAILER + Show(|Before(objects, |objects|)|) + EOF_MARK
  }

  function Pdf(lines: seq<string>): string {
    Document(Objects(ContentStream(lines)))
  }

  lemma BeforeNext(objects: seq<string>, i: nat)
    requires i < |objects|
    ensures Before(objects, i + 1) == Before(objects, i) + objects[i]
  {
    assert objects[..i + 1] == objects[..i] + [objects[i]];
    ConcatSnoc(objects[..i], objects[i]);
  }

  /** What lies behind the first i objects is exactly the file from offset |Before(i)| on. */
  lemma {:induction false} BeforeIsPrefix(objects: seq<string>, i: nat)
    requires i <= |objects|
    ensures Before(objects, i) <= Before(objects, |objects|)
    decreases |objects| - i
  {
    if i < |objects| {
      BeforeIsPrefix(objects, i + 1);
      BeforeNext(objects, i);
    }
  }

  // ----- the printer as the service runs it: operators, objects, offsets and file grow in loops

  method BuildContentOps(safeLines: seq<string>) returns (contentOps: seq<string>)
    ensures contentOps == ContentOps(safeLines)
  {
    contentOps := [];
    if |safeLines| > 0 {
      contentOps := [FirstOp(safeLines[0])];
      for i := 1 to |safeLines|
        invariant contentOps == ContentOps(safeLines)[..i]
      {
        contentOps := contentOps + [NextOp(safeLines[i])];
      }
    }
  }

  /** Appends the objects and records where each of them starts; offsets[0] stays unused. */
  method AppendObjects(objects: seq<string>) returns (pdf: string, offsets: seq<nat>)
    ensures pdf == Before(objects, |objects|)
    ensures |offsets| == |objects| + 1
    ensures forall k :: 1 <= k <= |objects| ==> offsets[k] == Offset(objects, k)
  {
    pdf := FILE_HEADER;
    offsets := [0];
    for i := 0 to |objects|
      invariant |offsets| == i + 1
      invariant pdf == Before(objects, i)
      invariant forall k :: 1 <= k <= i ==> offsets[k] == Offset(objects, k)
    {
      offsets := offsets + [|pdf|];
      BeforeNext(objects, i);
      pdf := pdf + objects[i];
    }
  }

  method AppendXref(body: string, objects: seq<string>, offsets: seq<nat>) returns (pdf: string)
    requires |objects| == 5 && |offsets| == 6
    requires forall k :: 1 <= k <= 5 ==> offsets[k] == Offset(objects, k)
    ensures pdf == body + XREF_HEADER + FREE_ENTRY + XrefEntries(objects, 5)
  {
    hide XREF_HEADER, FREE_ENTRY, XrefEntry, Offset;
    pdf := body + XREF_HEADER;
    pdf := pdf + FREE_ENTRY;
    ghost var start := pdf;
    for i := 1 to 6
      invariant pdf == start + XrefEntries(objects, i - 1)
    {
      pdf := pdf + XrefEntry(offsets[i]);
    }
  }

  method BuildSimplePdf(lines: seq<string>) returns (pdf: string)
    ensures pdf == Pdf(lines)
  {
    hide CATALOG, PAGES, Page, FONT, XREF_HEADER, FREE_ENTRY, TRAILER, EOF_MARK, StreamObject, ContentOps, XrefEntries, Before;
    var contentOps := BuildContentOps(SafeLines(lines));
    var stream := "BT\n/F1 10 Tf\n" + Join(contentOps, "\n") + "\nET\n";
    var objects := [CATALOG, PAGES, Page()];
    objects := objects + [StreamObject(stream), FONT];
    var body, offsets := AppendObjects(objects);
    var xrefStart := |body|;
    pdf := AppendXref(body, objects, offsets);
    pdf := pdf + TRAILER + Show(xrefStart) + EOF_MARK;
    assert objects == Objects(stream);
  }
}
