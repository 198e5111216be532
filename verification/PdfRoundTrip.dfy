/** The printed file means what was printed: the index agrees with the bytes, and reading inverts printing. */
module PdfRoundTrip {
  import opened Text
  import opened Decimal
  import opened PdfIndex
  import opened PdfPath
  import opened PdfWriter
  import opened PdfReader

  // ----- literal strings

  /** No parenthesis stands outside an escape pair, and no pair is cut short. */
  predicate OnlyEscapedParens(s: string) {
    if s == "" then true
    else if s[0] == '\\' then |s| >= 2 && OnlyEscapedParens(s[2..])
    else s[0] != '(' && s[0] != ')' && OnlyEscapedParens(s[1..])
  }

  lemma {:induction false} EscapedHasNoBareParen(s: string)
    ensures OnlyEscapedParens(EscapePdfString(s))
  {
    EscapeIsSimultaneous(s);
    if s != "" {
      EscapedHasNoBareParen(s[1..]);
      EscapeIsSimultaneous(s[1..]);
      assert EscapeEach(s)[|EscapeChar(s[0])|..] == EscapeEach(s[1..]);
    }
  }

  /** An escaped character is decoded on its own, unless it takes part in an end-of-line marker. */
  lemma DecodeChar(c: char, more: string)
    requires c != '\r'
    ensures ReadLiteral(EscapeChar(c) + more, 0) == PutBefore([c], ReadLiteral(more, 0))
  {
    var s := EscapeChar(c) + more;
    if c == '\\' || c == '(' || c == ')' {
      assert s[0] == '\\' && s[1] == c && s[2..] == more;
    } else {
      assert s[0] == c && s[1..] == more;
    }
  }

  lemma SkipEolAfterCr(u: string)
    ensures SkipEol("\r" + u) == if u != "" && u[0] == '\n' then u[1..] else u
  {
    var s := "\r" + u;
    assert s[0] == '\r' && s[1..] == u;
    if u != "" && u[0] == '\n' {
      assert s[1] == '\n' && "\r\n" <= s && s[2..] == u[1..];
    } else {
      assert !("\r\n" <= s);
    }
  }

  /** CR LF counts as one marker before and after escaping. */
  lemma SkipEscapedEol(u: string, tail: string)
    requires tail != "" && tail[0] == ')'
    ensures SkipEol("\r" + (EscapeEach(u) + tail)) == EscapeEach(SkipEol("\r" + u)) + tail
  {
    SkipEolAfterCr(u);
    SkipEolAfterCr(EscapeEach(u) + tail);
    hide SkipEol;
    if u == "" {
      assert EscapeEach(u) + tail == tail;
    } else if u[0] == '\n' {
      assert EscapeEach(u) == "\n" + EscapeEach(u[1..]);
      assert (EscapeEach(u) + tail)[1..] == EscapeEach(u[1..]) + tail;
    } else {
      assert EscapeEach(u)[0] == EscapeChar(u[0])[0];
      assert (EscapeEach(u) + tail)[0] != '\n';
    }
  }

  lemma ReadEol(more: string)
    ensures ReadLiteral("\r" + more, 0) == PutBefore("\n", ReadLiteral(SkipEol("\r" + more), 0))
  {
  }

  lemma EscapeCr(u: string)
    ensures EscapeEach("\r" + u) == "\r" + EscapeEach(u)
  {
    assert ("\r" + u)[1..] == u;
  }

  lemma DecodeEol(s: string, tail: string)
    requires s != "" && s[0] == '\r' && tail != "" && tail[0] == ')'
    ensures ReadLiteral(EscapeEach(s) + tail, 0) == PutBefore("\n", ReadLiteral(EscapeEach(SkipEol(s)) + tail, 0))
  {
    hide ReadLiteral, SkipEol, EscapeEach;
    var u := s[1..];
    EscapeCr(u);
    SkipEscapedEol(u, tail);
    assert s == "\r" + u;
    ReadEol(EscapeEach(u) + tail);
    assert "\r" + EscapeEach(u) + tail == "\r" + (EscapeEach(u) + tail);
  }

  lemma ReadClose(rest: string)
    ensures ReadLiteral(")" + rest, 0) == Some(Taken("", rest))
  {
  }

  lemma {:induction false} DecodeEach(s: string, rest: string)
    ensures ReadLiteral(EscapeEach(s) + (")" + rest), 0) == Some(Taken(EolNormalised(s), rest))
    decreases |s|
  {
    hide ReadLiteral;
    var tail := ")" + rest;
    if s == "" {
      assert EscapeEach(s) + tail == tail;
      ReadClose(rest);
    } else if s[0] == '\r' {
      DecodeEol(s, tail);
      DecodeEach(SkipEol(s), rest);
    } else {
      var more := EscapeEach(s[1..]) + tail;
      DecodeEach(s[1..], rest);
      DecodeChar(s[0], more);
      assert EscapeEach(s) + tail == EscapeChar(s[0]) + more;
    }
  }

  /**
   Decoding inverts escaping and stops exactly at the closing parenthesis the printer adds,
   whatever follows; only end-of-line markers are normalised on the way.
   */
  lemma DecodeEscaped(s: string, rest: string)
    ensures ReadLiteral(EscapePdfString(s) + (")" + rest), 0) == Some(Taken(EolNormalised(s), rest))
  {
    EscapeIsSimultaneous(s);
    DecodeEach(s, rest);
  }

  // ----- one token at a time

  lemma ReadWord(word: string, sep: char, rest: string, g: Graphics)
    requires word != "" && forall c :: c in word ==> IsRegular(c)
    requires IsWhite(sep)
    ensures Interpret(word + [sep] + rest, g)
         == match Apply(g, Classify(word)) case None => None case Some(g') => Interpret(rest, g')
  {
    var s := word + [sep] + rest;
    assert s == word + ([sep] + rest);
    TakeWhileExact(IsRegular, word, [sep] + rest);
    assert s[0] == word[0] && word[0] in word;
    assert ([sep] + rest)[1..] == rest;
  }

  lemma ReadName(name: string, sep: char, rest: string, g: Graphics)
    requires IsName(name)
    requires IsWhite(sep)
    ensures Interpret("/" + name + [sep] + rest, g) == Interpret(rest, g.(operands := g.operands + [Name(name)]))
  {
    var s := "/" + name + [sep] + rest;
    assert s[1..] == name + ([sep] + rest);
    TakeWhileExact(IsRegular, name, [sep] + rest);
    assert ([sep] + rest)[1..] == rest;
  }

  lemma ReadString(line: string, rest: string, g: Graphics)
    ensures Interpret("(" + EscapePdfString(line) + ")" + " " + rest, g)
         == Interpret(rest, g.(operands := g.operands + [Literal(EolNormalised(line))]))
  {
    var s := "(" + EscapePdfString(line) + ")" + " " + rest;
    assert s[1..] == EscapePdfString(line) + (")" + (" " + rest));
    DecodeEscaped(line, " " + rest);
    assert (" " + rest)[1..] == rest;
  }

  lemma DigitsAreRegular(s: string)
    requires IsNumeral(s)
    ensures forall c :: c in s ==> IsRegular(c)
  {
  }

  lemma ReadInteger(n: nat, rest: string, g: Graphics)
    ensures Interpret(Show(n) + " " + rest, g) == Interpret(rest, g.(operands := g.operands + [Number(n)]))
  {
    hide Interpret;
    DigitsAreRegular(Show(n));
    ReadShow(n);
    ReadWord(Show(n), ' ', rest, g);
  }

  lemma ReadNegative(n: nat, rest: string, g: Graphics)
    ensures Interpret("-" + Show(n) + " " + rest, g) == Interpret(rest, g.(operands := g.operands + [Number(0 - n)]))
  {
    hide Interpret;
    var word := "-" + Show(n);
    DigitsAreRegular(Show(n));
    ReadShow(n);
    assert word[1..] == Show(n) && !IsNumeral(word) by { assert word[0] in word; }
    ReadWord(word, ' ', rest, g);
  }

  lemma ReadOperator(op: string, sep: char, rest: string, g: Graphics)
    requires op in {"BT", "ET", "Tf", "Td", "Tj"}
    requires IsWhite(sep)
    ensures Interpret(op + [sep] + rest, g)
         == match Execute(g, op) case None => None case Some(g') => Interpret(rest, g')
  {
    assert op[0] in op;
    ReadWord(op, sep, rest, g);
  }

  // ----- one line at a time

  /** The text of ShowText, split where the reader splits it. */
  lemma ShowTextParts(escaped: string, rest: string)
    ensures ShowText(escaped) + "\n" + rest == " " + ("Td" + " " + ("(" + escaped + ")" + " " + ("Tj" + "\n" + rest)))
  {
  }

  lemma ReadTd(dx: int, dy: int, rest: string, g: Graphics)
    requires g.inText && g.operands == [Number(dx), Number(dy)]
    ensures Interpret("Td" + " " + rest, g) == Interpret(rest, g.(x := g.x + dx, y := g.y + dy, operands := []))
  {
    hide Interpret;
    ReadOperator("Td", ' ', rest, g);
  }

  lemma ReadTj(text: string, rest: string, g: Graphics)
    requires g.inText && g.font.Some? && g.operands == [Literal(text)]
    ensures Interpret("Tj" + "\n" + rest, g)
         == Interpret(rest, g.(operands := [], shown := g.shown + [Shown(g.x, g.y, text)]))
  {
    hide Interpret;
    ReadOperator("Tj", '\n', rest, g);
  }

  lemma ReadBlank(rest: string, g: Graphics)
    ensures Interpret(" " + rest, g) == Interpret(rest, g)
  {
  }

  /** A Td with its Tj: the line start moves by (dx, dy) and the line is shown there. */
  lemma ReadShowText(line: string, dx: int, dy: int, rest: string, g: Graphics)
    requires g.inText && g.font.Some? && g.operands == [Number(dx), Number(dy)]
    ensures Interpret(ShowText(EscapePdfString(line)) + "\n" + rest, g)
         == Interpret(rest, g.(x := g.x + dx, y := g.y + dy, operands := [],
                               shown := g.shown + [Shown(g.x + dx, g.y + dy, EolNormalised(line))]))
  {
    hide Interpret;
    var tail := "Tj" + "\n" + rest;
    var text := "(" + EscapePdfString(line) + ")" + " " + tail;
    var moved := g.(x := g.x + dx, y := g.y + dy, operands := []);
    ShowTextParts(EscapePdfString(line), rest);
    ReadBlank("Td" + " " + text, g);
    ReadTd(dx, dy, text, g);
    ReadString(line, tail, moved);
    ReadTj(EolNormalised(line), rest, moved.(operands := moved.operands + [Literal(EolNormalised(line))]));
  }

  lemma ReadFirstLine(line: string, rest: string, g: Graphics)
    requires g.inText && g.font.Some? && g.operands == []
    ensures Interpret(FirstOp(line) + "\n" + rest, g)
         == Interpret(rest, g.(x := g.x + MARGIN_LEFT, y := g.y + TOP_Y,
                               shown := g.shown + [Shown(g.x + MARGIN_LEFT, g.y + TOP_Y, EolNormalised(line))]))
  {
    hide Interpret;
    var show := ShowText(EscapePdfString(line)) + "\n" + rest;
    var y := Show(TOP_Y) + show;
    var g1 := g.(operands := g.operands + [Number(MARGIN_LEFT)]);
    var g2 := g.(operands := g1.operands + [Number(TOP_Y)]);
    assert g2.operands == [Number(MARGIN_LEFT), Number(TOP_Y)];
    assert FirstOp(line) + "\n" + rest == Show(MARGIN_LEFT) + " " + y;
    ReadInteger(MARGIN_LEFT, y, g);
    assert show == " " + show[1..];
    assert y == Show(TOP_Y) + " " + show[1..];
    ReadInteger(TOP_Y, show[1..], g1);
    ReadBlank(show[1..], g2);
    ReadShowText(line, MARGIN_LEFT, TOP_Y, rest, g2);
  }

  lemma ReadNextLine(line: string, rest: string, g: Graphics)
    requires g.inText && g.font.Some? && g.operands == []
    ensures Interpret(NextOp(line) + "\n" + rest, g)
         == Interpret(rest, g.(y := g.y - LINE_HEIGHT, shown := g.shown + [Shown(g.x, g.y - LINE_HEIGHT, EolNormalised(line))]))
  {
    hide Interpret;
    var show := ShowText(EscapePdfString(line)) + "\n" + rest;
    var y := "-" + Show(LINE_HEIGHT) + show;
    var g1 := g.(operands := g.operands + [Number(0)]);
    var g2 := g.(operands := g1.operands + [Number(0 - LINE_HEIGHT)]);
    assert g2.operands == [Number(0), Number(0 - LINE_HEIGHT)];
    assert Show(0) == "0";
    assert NextOp(line) + "\n" + rest == Show(0) + " " + y;
    ReadInteger(0, y, g);
    assert show == " " + show[1..];
    assert y == "-" + Show(LINE_HEIGHT) + " " + show[1..];
    ReadNegative(LINE_HEIGHT, show[1..], g1);
    ReadBlank(show[1..], g2);
    ReadShowText(line, 0, 0 - LINE_HEIGHT, rest, g2);
  }

  // ----- the whole content stream

  /** Where and what a page of lines shows: one line every LINE_HEIGHT below TOP_Y, at the left margin. */
  function PageOf(lines: seq<string>): (page: seq<Shown>)
    ensures |page| == |lines|
  {
    seq(|lines|, i requires 0 <= i < |lines| => Shown(MARGIN_LEFT, TOP_Y - LINE_HEIGHT * i, EolNormalised(lines[i])))
  }

  function OpLines(ops: seq<string>): string {
    if ops == [] then "" else ops[0] + "\n" + OpLines(ops[1..])
  }

  lemma {:induction false} JoinIsOpLines(ops: seq<string>, rest: string)
    requires ops != []
    ensures Join(ops, "\n") + "\n" + rest == OpLines(ops) + rest
  {
    if |ops| == 1 {
      assert OpLines(ops) == ops[0] + "\n" + OpLines([]);
    } else {
      JoinIsOpLines(ops[1..], rest);
      assert Join(ops, "\n") + "\n" + rest == ops[0] + "\n" + (Join(ops[1..], "\n") + "\n" + rest);
      assert OpLines(ops) + rest == ops[0] + "\n" + (OpLines(ops[1..]) + rest);
    }
  }

  /** The graphics state in front of line i, given the state g in front of line 0. */
  function AtLine(g: Graphics, lines: seq<string>, i: nat): Graphics
    requires i <= |lines|
  {
    g.(x := if i == 0 then g.x else MARGIN_LEFT,
       y := if i == 0 then g.y else TOP_Y - LINE_HEIGHT * (i - 1),
       shown := g.shown + PageOf(lines)[..i])
  }

  /** One line: from the state in front of line i to the state in front of line i + 1. */
  lemma ReadLine(lines: seq<string>, i: nat, rest: string, g: Graphics)
    requires g.inText && g.font.Some? && g.operands == [] && g.x == 0 && g.y == 0
    requires i < |lines|
    ensures Interpret(ContentOps(lines)[i] + "\n" + rest, AtLine(g, lines, i)) == Interpret(rest, AtLine(g, lines, i + 1))
  {
    hide Interpret, FirstOp, NextOp, EolNormalised;
    assert PageOf(lines)[..i + 1] == PageOf(lines)[..i] + [PageOf(lines)[i]];
    assert AtLine(g, lines, i + 1).shown == AtLine(g, lines, i).shown + [PageOf(lines)[i]];
    if i == 0 {
      ReadFirstLine(lines[0], rest, AtLine(g, lines, 0));
    } else {
      ReadNextLine(lines[i], rest, AtLine(g, lines, i));
    }
  }

  lemma OpLinesFrom(ops: seq<string>, i: nat, rest: string)
    requires i < |ops|
    ensures OpLines(ops[i..]) + rest == ops[i] + "\n" + (OpLines(ops[i + 1..]) + rest)
  {
    assert ops[i..][0] == ops[i] && ops[i..][1..] == ops[i + 1..];
  }

  lemma NoOpLines()
    ensures OpLines([]) == ""
  {
  }

  lemma {:induction false} ReadLines(lines: seq<string>, i: nat, rest: string, g: Graphics)
    requires g.inText && g.font.Some? && g.operands == [] && g.x == 0 && g.y == 0
    requires i <= |lines|
    ensures Interpret(OpLines(ContentOps(lines)[i..]) + rest, AtLine(g, lines, i))
         == Interpret(rest, AtLine(g, lines, |lines|))
    decreases |lines| - i
  {
    hide Interpret, AtLine, OpLines, ContentOps;
    var ops := ContentOps(lines);
    if i == |lines| {
      NoOpLines();
      assert ops[i..] == [] && "" + rest == rest;
    } else {
      var tail := OpLines(ops[i + 1..]) + rest;
      OpLinesFrom(ops, i, rest);
      ReadLine(lines, i, tail, g);
      ReadLines(lines, i + 1, rest, g);
    }
  }

  const IN_TEXT := BLANK.(inText := true, font := Some(Font("F1", 10)))

  lemma ReadPrologue(rest: string)
    ensures Interpret("BT\n/F1 10 Tf\n" + rest, BLANK) == Interpret(rest, IN_TEXT)
  {
    hide Interpret;
    var size := Show(10) + " " + ("Tf" + "\n" + rest);
    var g1 := BLANK.(inText := true);
    var g2 := g1.(operands := g1.operands + [Name("F1")]);
    var g3 := g1.(operands := g2.operands + [Number(10)]);
    assert g3.operands == [Name("F1"), Number(10)];
    assert Show(10) == "10" by { assert Show(1) == "1"; }
    assert "BT\n/F1 10 Tf\n" + rest == "BT" + "\n" + ("/" + "F1" + " " + size);
    ReadOperator("BT", '\n', "/" + "F1" + " " + size, BLANK);
    ReadName("F1", ' ', size, g1);
    ReadInteger(10, "Tf" + "\n" + rest, g2);
    ReadOperator("Tf", '\n', rest, g3);
  }

  lemma ReadEpilogue(g: Graphics)
    requires g.inText && g.operands == []
    ensures Interpret("ET\n", g) == Some(g.(inText := false))
    ensures Interpret("\nET\n", g) == Some(g.(inText := false))
  {
    assert "ET\n" == "ET" + "\n" + "";
    ReadOperator("ET", '\n', "", g);
    assert "\nET\n"[1..] == "ET\n";
  }

  lemma ReadContent(lines: seq<string>)
    ensures Interpret(ContentStream(lines), BLANK)
         == Some(AtLine(IN_TEXT, SafeLines(lines), |SafeLines(lines)|).(inText := false))
    ensures AtLine(IN_TEXT, SafeLines(lines), |SafeLines(lines)|).shown == PageOf(SafeLines(lines))
  {
    hide Interpret, ContentOps, PageOf;
    var safe := SafeLines(lines);
    var ops := ContentOps(safe);
    var body := Join(ops, "\n") + "\nET\n";
    assert ContentStream(lines) == "BT\n/F1 10 Tf\n" + body;
    ReadPrologue(body);
    if safe == [] {
      assert body == "\nET\n";
      ReadEpilogue(IN_TEXT);
      assert AtLine(IN_TEXT, safe, 0) == IN_TEXT;
    } else {
      JoinIsOpLines(ops, "ET\n");
      assert "\nET\n" == "\n" + "ET\n";
      assert body == Join(ops, "\n") + "\n" + "ET\n";
      assert ops[0..] == ops;
      assert AtLine(IN_TEXT, safe, 0) == IN_TEXT;
      ReadLines(safe, 0, "ET\n", IN_TEXT);
      ReadEpilogue(AtLine(IN_TEXT, safe, |safe|));
    }
  }

  // ----- the round trip

  lemma HeaderFirst(stream: string)
    ensures "%PDF-1." <= File(stream)
  {
    hide Objects, XREF_HEADER, FREE_ENTRY, TRAILER, EOF_MARK, XrefEntries, Concat, Show;
    assert FILE_HEADER == "%PDF-1." + "4\n";
    assert FILE_HEADER <= Before(Objects(stream), 5) <= File(stream);
  }

  /**
   For every list of lines the reader that follows startxref, the trailer, catalog, page tree and
   page through the cross-reference table, and then /Length and the operators, finds the first 50
   lines, each at its place, on a page of 612 by 792 in ten point of font object 5.
   */
  lemma ReadInvertsPrint(lines: seq<string>)
    ensures ReadPage(Pdf(lines)) == Some(PageView(Box(0, 0, 612, 792), 5, 10, PageOf(SafeLines(lines))))
  {
    hide ContentStream, Objects, Document, Before, Offset, StartXref, FirstPage, MediaBox, Reference, FontObject, LookUp, ReadStream, Interpret, PageOf;
    var stream := ContentStream(lines);
    StartXrefFound(Objects(stream));
    var page := PathLeadsToPage(stream);
    HeaderFirst(stream);
    TableLeadsToObjects(stream, 4);
    StreamIsRecovered(stream);
    ReadContent(lines);
  }

  /** What the page shows: min(n, 50) lines, none lower than 48, line i at (48, 760 - 14 i). */
  lemma PageContents(lines: seq<string>, i: nat)
    requires i < |SafeLines(lines)|
    ensures |PageOf(SafeLines(lines))| == (if |lines| < 50 then |lines| else 50)
    ensures PageOf(SafeLines(lines))[i].x == 48 && PageOf(SafeLines(lines))[i].y == 760 - 14 * i >= 48
    ensures PageOf(SafeLines(lines))[i].text == lines[i] <==> '\r' !in lines[i]
  {
    NormalisedIffNoCr(lines[i]);
  }

  /** Every line that is shown starts inside the page box. */
  lemma LinesAreOnThePage(lines: seq<string>)
    ensures ReadPage(Pdf(lines)).Some?
    ensures var page := ReadPage(Pdf(lines)).value;
            forall i :: 0 <= i < |page.shown| ==>
              page.box.left <= page.shown[i].x < page.box.right && page.box.bottom <= page.shown[i].y < page.box.top
  {
    hide ReadPage, Pdf;
    ReadInvertsPrint(lines);
    forall i | 0 <= i < |PageOf(SafeLines(lines))|
      ensures PageOf(SafeLines(lines))[i].x == 48 && 48 <= PageOf(SafeLines(lines))[i].y <= 760
    {
      PageContents(lines, i);
    }
  }
}
