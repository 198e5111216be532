/**
 A reader for the part of PDF that the report service writes, after ISO 32000-1: literal strings
 (7.3.4.2), dictionaries (7.3.7), stream extent (7.3.8.2), cross-reference table (7.5.4), trailer
 (7.5.5), catalog and page tree (7.7.2, 7.7.3) and the text operators BT, ET, Tf, Td and Tj (9.4).
 It shares no code with the printer.
 */
module PdfReader {
  import opened Text
  import opened Decimal

  // ----- literal strings

  function OctalLength(s: string): (k: nat)
    ensures k <= 3 && k <= |s|
    ensures forall i :: 0 <= i < k ==> '0' <= s[i] <= '7'
  {
    if s == "" || !('0' <= s[0] <= '7') then 0
    else if |s| == 1 || !('0' <= s[1] <= '7') then 1
    else if |s| == 2 || !('0' <= s[2] <= '7') then 2
    else 3
  }

  function OctalValue(s: string): nat
    requires forall i :: 0 <= i < |s| ==> '0' <= s[i] <= '7'
  {
    if s == "" then 0
    else 8 * OctalValue(s[..|s| - 1]) + (s[|s| - 1] - '0') as nat
  }

  /** One end-of-line marker, CR LF or CR or LF, is skipped. */
  function SkipEol(s: string): string {
    if "\r\n" <= s then s[2..]
    else if s != "" && (s[0] == '\r' || s[0] == '\n') then s[1..]
    else s
  }

  function PutBefore(c: string, r: Option<Taken<string>>): Option<Taken<string>> {
    var t :- r;
    Some(Taken(c + t.value, t.rest))
  }

  /**
   Reads a literal string whose opening parenthesis has been consumed; depth counts the
   balanced parentheses that are still open inside it.
   */
  function ReadLiteral(s: string, depth: nat): (r: Option<Taken<string>>)
    ensures r.Some? ==> |r.value.rest| < |s|
    decreases |s|
  {
    if s == "" then None
    else if s[0] == ')' then
      if depth == 0 then Some(Taken("", s[1..])) else PutBefore(")", ReadLiteral(s[1..], depth - 1))
    else if s[0] == '(' then PutBefore("(", ReadLiteral(s[1..], depth + 1))
    else if s[0] == '\r' then PutBefore("\n", ReadLiteral(SkipEol(s), depth))
    else if s[0] != '\\' then PutBefore([s[0]], ReadLiteral(s[1..], depth))
    else if |s| == 1 then None
    else if s[1] == 'n' then PutBefore("\n", ReadLiteral(s[2..], depth))
    else if s[1] == 'r' then PutBefore("\r", ReadLiteral(s[2..], depth))
    else if s[1] == 't' then PutBefore("\t", ReadLiteral(s[2..], depth))
    else if s[1] == 'b' then PutBefore([8 as char], ReadLiteral(s[2..], depth))
    else if s[1] == 'f' then PutBefore([12 as char], ReadLiteral(s[2..], depth))
    else if s[1] == '\r' || s[1] == '\n' then ReadLiteral(SkipEol(s[1..]), depth)
    else if '0' <= s[1] <= '7' then
      var k := OctalLength(s[1..]);
      PutBefore([(OctalValue(s[1..][..k]) % 256) as char], ReadLiteral(s[1 + k..], depth))
    else PutBefore([s[1]], ReadLiteral(s[2..], depth))
  }

  /** What a literal string makes of unescaped end-of-line markers: each one reads as LF. */
  function EolNormalised(s: string): string
    decreases |s|
  {
    if s == "" then ""
    else if s[0] == '\r' then "\n" + EolNormalised(SkipEol(s))
    else [s[0]] + EolNormalised(s[1..])
  }

  /** Reading leaves a text as it is exactly when it has no carriage return. */
  lemma {:induction false} NormalisedIffNoCr(s: string)
    ensures EolNormalised(s) == s <==> '\r' !in s
  {
    if s != "" {
      if s[0] == '\r' {
        assert EolNormalised(s)[0] == '\n';
      } else {
        NormalisedIffNoCr(s[1..]);
        assert s == [s[0]] + s[1..];
        assert EolNormalised(s)[1..] == EolNormalised(s[1..]);
      }
    }
  }

  // ----- content streams

  datatype Token = Number(n: int) | Name(name: string) | Literal(bytes: string) | Operator(op: string)

  predicate IsWhite(c: char) {
    c == '\0' || c == '\t' || c == '\n' || c == 12 as char || c == '\r' || c == ' '
  }

  predicate IsDelimiter(c: char) {
    c == '(' || c == ')' || c == '<' || c == '>' || c == '[' || c == ']' || c == '{' || c == '}' || c == '/' || c == '%'
  }

  predicate IsRegular(c: char) {
    !IsWhite(c) && !IsDelimiter(c)
  }

  predicate IsName(name: string) {
    forall c :: c in name ==> IsRegular(c)
  }

  /** A run of regular characters is an integer if it looks like one, and an operator if not. */
  function Classify(word: string): Token {
    if word != "" && IsNumeral(word) then Number(Read(word))
    else if |word| >= 2 && word[0] == '-' && IsNumeral(word[1..]) then Number(0 - Read(word[1..]))
    else Operator(word)
  }

  function ReadToken(s: string): (r: Option<Taken<Token>>)
    requires s != "" && !IsWhite(s[0])
    ensures r.Some? ==> |r.value.rest| < |s|
  {
    if s[0] == '(' then
      var t :- ReadLiteral(s[1..], 0);
      Some(Taken(Literal(t.value), t.rest))
    else if s[0] == '/' then
      var t := TakeWhile(IsRegular, s[1..]);
      Some(Taken(Name(t.value), t.rest))
    else if IsDelimiter(s[0]) then None
    else
      var t := TakeWhile(IsRegular, s);
      Some(Taken(Classify(t.value), t.rest))
  }

  datatype Font = Font(name: string, size: int)

  /** A string shown on the page, with the start of its line. */
  datatype Shown = Shown(x: int, y: int, text: string)

  datatype Graphics = Graphics(inText: bool, x: int, y: int, font: Option<Font>, operands: seq<Token>, shown: seq<Shown>)

  const BLANK := Graphics(false, 0, 0, None, [], [])

  function Execute(g: Graphics, op: string): Option<Graphics> {
    if op == "BT" && g.operands == [] && !g.inText then
      Some(g.(inText := true, x := 0, y := 0))
    else if op == "ET" && g.operands == [] && g.inText then
      Some(g.(inText := false))
    else if op == "Tf" && |g.operands| == 2 && g.operands[0].Name? && g.operands[1].Number? then
      Some(g.(font := Some(Font(g.operands[0].name, g.operands[1].n)), operands := []))
    else if op == "Td" && |g.operands| == 2 && g.operands[0].Number? && g.operands[1].Number? && g.inText then
      Some(g.(x := g.x + g.operands[0].n, y := g.y + g.operands[1].n, operands := []))
    else if op == "Tj" && |g.operands| == 1 && g.operands[0].Literal? && g.inText && g.font.Some? then
      Some(g.(operands := [], shown := g.shown + [Shown(g.x, g.y, g.operands[0].bytes)]))
    else None
  }

  function Apply(g: Graphics, t: Token): Option<Graphics> {
    if t.Operator? then Execute(g, t.op) else Some(g.(operands := g.operands + [t]))
  }

  function Interpret(s: string, g: Graphics): Option<Graphics>
    decreases |s|
  {
    if s == "" then Some(g)
    else if IsWhite(s[0]) then Interpret(s[1..], g)
    else
      var t :- ReadToken(s);
      var g' :- Apply(g, t.value);
      Interpret(t.rest, g')
  }

  // ----- the file

  /** The digits at the end of a text. */
  function TrailingDigits(s: string): (d: string)
    ensures IsNumeral(d) && |d| <= |s|
  {
    if s == "" || !IsDigit(s[|s| - 1]) then ""
    else TrailingDigits(s[..|s| - 1]) + [s[|s| - 1]]
  }

  predicate EndsWith(s: string, suffix: string) {
    |suffix| <= |s| && s[|s| - |suffix|..] == suffix
  }

  /** The last lines: startxref, the offset of the table, the end-of-file marker. */
  function StartXref(file: string): Option<nat> {
    if !EndsWith(file, "\n%%EOF\n") then None
    else
      var body := file[..|file| - 7];
      var digits := TrailingDigits(body);
      if digits != "" && EndsWith(body[..|body| - |digits|], "startxref\n") then Some(Read(digits)) else None
  }

  /** An in-use entry: ten digits, a space, five digits, a space, the letter n and a two-byte line end. */
  function ReadEntry(entry: string): Option<nat>
    requires |entry| == 20
  {
    if IsNumeral(entry[..10]) && entry[10] == ' ' && IsNumeral(entry[11..16]) && entry[16..] == " n \n"
    then Some(Read(entry[..10])) else None
  }

  /** An entry of the free list: the next free object and the generation. */
  function ReadFreeEntry(entry: string): Option<(nat, nat)>
    requires |entry| == 20
  {
    if IsNumeral(entry[..10]) && entry[10] == ' ' && IsNumeral(entry[11..16]) && entry[16..] == " f \n"
    then Some((Read(entry[..10]), Read(entry[11..16]))) else None
  }

  /** The offset of an object: entries are 20 bytes each, so its entry is found by arithmetic. */
  function LookUp(file: string, xref: nat, number: nat): Option<nat> {
    if xref > |file| then None
    else
      var section :- Expect("xref\n", file[xref..]);
      var first :- TakeNumber(section);
      var second :- Expect(" ", first.rest);
      var count :- TakeNumber(second);
      var table :- Expect("\n", count.rest);
      if number < first.value || number >= first.value + count.value then None
      else
        var at := 20 * (number - first.value);
        if at + 20 > |table| then None else ReadEntry(table[at..at + 20])
  }

  /** The data of the stream object at an offset, delimited by its /Length. */
  function ReadStream(file: string, offset: nat, number: nat): Option<string> {
    if offset > |file| then None
    else
      var n :- TakeNumber(file[offset..]);
      var dictionary :- Expect(" 0 obj\n<< /Length ", n.rest);
      var length :- TakeNumber(dictionary);
      var data :- Expect(" >>\nstream\n", length.rest);
      if n.value == number && length.value <= |data| && "endstream" <= data[length.value..]
      then Some(data[..length.value]) else None
  }

  // ----- dictionaries and references

  /**
   The text behind a key of the dictionary that a text starts with. Names are taken whole; keys are
   the names at depth 1 that are not the value of the key before them.
   */
  function BehindKey(s: string, key: string, depth: nat, value: bool): Option<string>
    decreases |s|
  {
    if s == "" then None
    else if "<<" <= s then BehindKey(s[2..], key, depth + 1, false)
    else if ">>" <= s then (if depth <= 1 then None else BehindKey(s[2..], key, depth - 1, false))
    else if s[0] == '/' then
      var name := TakeWhile(IsRegular, s[1..]);
      if depth == 1 && !value && name.value == key then Some(name.rest) else BehindKey(name.rest, key, depth, !value)
    else BehindKey(s[1..], key, depth, value && IsWhite(s[0]))
  }

  /** The object that a key refers to; start is what stands in front of the reference. */
  function Reference(dictionary: string, key: string, start: string): Option<nat> {
    var behind :- BehindKey(dictionary, key, 0, false);
    var reference :- Expect(start, behind);
    var n :- TakeNumber(reference);
    if " 0 R" <= n.rest then Some(n.value) else None
  }

  /** The text from the dictionary of an object on. */
  function Dictionary(file: string, xref: nat, number: nat): Option<string> {
    var offset :- LookUp(file, xref, number);
    if offset > |file| then None
    else
      var n :- TakeNumber(file[offset..]);
      if n.value == number then Expect(" 0 obj\n", n.rest) else None
  }

  /** What follows the last occurrence of a keyword. */
  function BehindLast(s: string, keyword: string): Option<string> {
    if EndsWith(s, keyword) then Some("")
    else if s == "" then None
    else
      var behind :- BehindLast(s[..|s| - 1], keyword);
      Some(behind + [s[|s| - 1]])
  }

  /** The trailer dictionary stands in front of startxref. */
  function Trailer(file: string): Option<string> {
    if !EndsWith(file, "\n%%EOF\n") then None
    else
      var body := file[..|file| - 7];
      var start := body[..|body| - |TrailingDigits(body)|];
      if EndsWith(start, "startxref\n") then BehindLast(start[..|start| - 10], "trailer\n") else None
  }

  /** The number that is the value of a key. */
  function NumberOf(dictionary: string, key: string): Option<nat> {
    var behind :- BehindKey(dictionary, key, 0, false);
    var number :- Expect(" ", behind);
    var n :- TakeNumber(number);
    Some(n.value)
  }

  /** A rectangle: its lower left and its upper right corner. */
  datatype Box = Box(left: nat, bottom: nat, right: nat, top: nat)

  function MediaBox(dictionary: string): Option<Box> {
    var behind :- BehindKey(dictionary, "MediaBox", 0, false);
    var s0 :- Expect(" [", behind);
    var left :- TakeNumber(s0);
    var s1 :- Expect(" ", left.rest);
    var bottom :- TakeNumber(s1);
    var s2 :- Expect(" ", bottom.rest);
    var right :- TakeNumber(s2);
    var s3 :- Expect(" ", right.rest);
    var top :- TakeNumber(s3);
    if "]" <= top.rest then Some(Box(left.value, bottom.value, right.value, top.value)) else None
  }

  /** The object that a name of a page's fonts refers to. */
  function FontObject(page: string, name: string): Option<nat> {
    var resources :- BehindKey(page, "Resources", 0, false);
    var fonts :- BehindKey(resources, "Font", 0, false);
    Reference(fonts, name, " ")
  }

  /** The base font of a font object. */
  function BaseFont(file: string, xref: nat, number: nat): Option<string> {
    var font :- Dictionary(file, xref, number);
    var behind :- BehindKey(font, "BaseFont", 0, false);
    var name :- Expect(" /", behind);
    Some(TakeWhile(IsRegular, name).value)
  }

  /** The dictionary of the first page, from the trailer through catalog and page tree, whose root has to name one page. */
  function FirstPage(file: string, xref: nat): Option<string> {
    var trailer :- Trailer(file);
    var root :- Reference(trailer, "Root", " ");
    var catalog :- Dictionary(file, xref, root);
    var pages :- Reference(catalog, "Pages", " ");
    var tree :- Dictionary(file, xref, pages);
    var count :- NumberOf(tree, "Count");
    var first :- Reference(tree, "Kids", " [");
    var page :- Dictionary(file, xref, first);
    var parent :- Reference(page, "Parent", " ");
    if count == 1 && parent == pages then Some(page) else None
  }

  /** A page as it is seen: its size, the object of the font that its text is set in, and the strings on it. */
  datatype PageView = PageView(box: Box, fontObject: nat, size: int, shown: seq<Shown>)

  /** The first page with the strings that its contents put on it. */
  function ReadPage(file: string): Option<PageView> {
    var body :- Expect("%PDF-1.", file);
    var xref :- StartXref(file);
    var page :- FirstPage(file, xref);
    var box :- MediaBox(page);
    var contents :- Reference(page, "Contents", " ");
    var offset :- LookUp(file, xref, contents);
    var content :- ReadStream(file, offset, contents);
    var g :- Interpret(content, BLANK);
    var font :- g.font;
    var fontObject :- FontObject(page, font.name);
    if g.inText || g.operands != [] then None else Some(PageView(box, fontObject, font.size, g.shown))
  }
}
