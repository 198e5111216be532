/** The byte offsets, the cross-reference table and /Length of a printed file agree with its bytes. */
module PdfIndex {
  import opened Text
  import opened Decimal
  import opened PdfWriter
  import opened PdfReader

  function File(stream: string): string {
    Document(Objects(stream))
  }

  /** Everything behind the first i objects. */
  lemma FileFrom(objects: seq<string>, i: nat) returns (rest: string)
    requires i < |objects|
    ensures Document(objects) == Before(objects, i) + objects[i] + rest
  {
    hide FILE_HEADER, XREF_HEADER, FREE_ENTRY, TRAILER, EOF_MARK, XrefEntries;
    BeforeNext(objects, i);
    BeforeIsPrefix(objects, i + 1);
    var all := Before(objects, |objects|);
    rest := all[|Before(objects, i + 1)|..] + Document(objects)[|all|..];
  }

  /** At the recorded offset of an object the file has that object. */
  lemma ObjectAtOffset(objects: seq<string>, i: nat)
    requires 1 <= i <= |objects|
    ensures Offset(objects, i) <= |Document(objects)|
    ensures objects[i - 1] <= Document(objects)[Offset(objects, i)..]
  {
    hide Before, Document;
    var rest := FileFrom(objects, i - 1);
    assert Document(objects)[Offset(objects, i)..] == objects[i - 1] + rest;
  }

  lemma StreamHeader()
    ensures Show(4) + " 0 obj\n" == "4 0 obj\n"
    ensures Show(4) + " 0 obj\n<< /Length " == "4 0 obj\n<< /Length "
  {
  }

  lemma Reassociate(a: string, b: string, c: string, d: string, e: string, f: string, g: string)
    ensures a + b + c + d + e + f + g == a + (b + (c + (d + (e + (f + g)))))
  {
  }

  /** The fourth object, split where the reader splits it. */
  lemma StreamObjectParts(stream: string, rest: string)
    ensures StreamObject(stream) + rest
         == Show(4) + (" 0 obj\n<< /Length " + (Show(|stream|) + (" >>\nstream\n" + (stream + ("endstream\nendobj\n" + rest)))))
  {
    hide Show;
    StreamHeader();
    Reassociate(Show(4), " 0 obj\n<< /Length ", Show(|stream|), " >>\nstream\n", stream, "endstream\nendobj\n", rest);
  }

  lemma ObjectHeader(stream: string, i: nat)
    requires 1 <= i <= 5
    ensures Show(i) + " 0 obj\n" <= Objects(stream)[i - 1]
  {
    var header := Show(i) + " 0 obj\n";
    if {
      case i == 1 => assert header == "1 0 obj\n";
      case i == 2 => assert header == "2 0 obj\n";
      case i == 3 => assert header == "3 0 obj\n";
      case i == 4 => assert header == "4 0 obj\n" <= "4 0 obj\n<< /Length " <= StreamObject(stream);
      case i == 5 => assert header == "5 0 obj\n";
    }
  }

  /** At offset i the file reads "i 0 obj". */
  lemma HeaderAtOffset(stream: string, i: nat)
    requires 1 <= i <= 5
    ensures Offset(Objects(stream), i) <= |File(stream)|
    ensures Show(i) + " 0 obj\n" <= File(stream)[Offset(Objects(stream), i)..]
  {
    hide Objects, Document;
    ObjectHeader(stream, i);
    ObjectAtOffset(Objects(stream), i);
  }

  lemma {:induction false} TrailingDigitsExact(a: string, digits: string)
    requires IsNumeral(digits) && (a == "" || !IsDigit(a[|a| - 1]))
    ensures TrailingDigits(a + digits) == digits
    decreases |digits|
  {
    if digits == "" {
      assert a + digits == a;
    } else {
      assert (a + digits)[..|a + digits| - 1] == a + digits[..|digits| - 1];
      TrailingDigitsExact(a, digits[..|digits| - 1]);
      assert digits == digits[..|digits| - 1] + [digits[|digits| - 1]];
    }
  }

  lemma ReadStartXref(head: string, xref: nat)
    ensures StartXref(head + "startxref\n" + Show(xref) + "\n%%EOF\n") == Some(xref)
  {
    var before := head + "startxref\n";
    var file := before + Show(xref) + "\n%%EOF\n";
    assert file[|file| - 7..] == "\n%%EOF\n";
    assert file[..|file| - 7] == before + Show(xref);
    assert before[|before| - 10..] == "startxref\n";
    TrailingDigitsExact(before, Show(xref));
    assert (before + Show(xref))[..|before|] == before;
    ReadShow(xref);
  }

  /** The reader finds the table, and the file reads "xref" there. */
  lemma StartXrefFound(objects: seq<string>)
    ensures StartXref(Document(objects)) == Some(|Before(objects, |objects|)|)
    ensures |Before(objects, |objects|)| <= |Document(objects)|
    ensures XREF_HEADER <= Document(objects)[|Before(objects, |objects|)|..]
  {
    hide Before, XrefEntries, StartXref, FREE_ENTRY, Show;
    var all := Before(objects, |objects|);
    var table := all + XREF_HEADER + FREE_ENTRY + XrefEntries(objects, |objects|);
    var trailer := "trailer\n" + "<< /Size 6 /Root 1 0 R >>" + "\n";
    assert TRAILER == trailer + "startxref\n";
    assert Document(objects) == (table + trailer) + "startxref\n" + Show(|all|) + "\n%%EOF\n";
    ReadStartXref(table + trailer, |all|);
  }

  /** An entry is 20 bytes long exactly when the offset has at most ten digits, and then it reads back. */
  lemma EntryReadsBack(offset: nat)
    ensures |XrefEntry(offset)| == 20 <==> offset < Pow10(10)
    ensures offset < Pow10(10) ==> ReadEntry(XrefEntry(offset)) == Some(offset)
  {
    PaddedWidth(offset, 10);
    ReadPadded(offset, 10);
    if offset < Pow10(10) {
      assert XrefEntry(offset)[..10] == PadStart(Show(offset), 10);
      assert XrefEntry(offset)[10..] == " 00000 n \n";
      assert XrefEntry(offset)[11..16] == "00000" && XrefEntry(offset)[16..] == " n \n";
    }
  }

  /** An entry that is too wide is not taken for another one. */
  lemma WideEntryIsRejected(offset: nat, rest: string)
    requires offset >= Pow10(10)
    ensures |XrefEntry(offset) + rest| >= 20 && ReadEntry((XrefEntry(offset) + rest)[..20]) == None
  {
    PaddedWidth(offset, 10);
    ReadPadded(offset, 10);
    var digits := PadStart(Show(offset), 10);
    assert digits[10] in digits;
    assert (XrefEntry(offset) + rest)[..20][10] == digits[10];
  }

  lemma {:induction false} EntriesWidth(objects: seq<string>, i: nat)
    requires i <= |objects|
    requires forall k :: 1 <= k <= i ==> Offset(objects, k) < Pow10(10)
    ensures |XrefEntries(objects, i)| == 20 * i
  {
    if i > 0 {
      EntriesWidth(objects, i - 1);
      EntryReadsBack(Offset(objects, i));
    }
  }

  lemma {:induction false} EntriesPrefix(objects: seq<string>, i: nat, n: nat)
    requires i <= n <= |objects|
    ensures XrefEntries(objects, i) <= XrefEntries(objects, n)
    decreases n - i
  {
    if i < n {
      EntriesPrefix(objects, i + 1, n);
    }
  }

  /** Finding an entry behind the subsection header is arithmetic on 20-byte entries. */
  lemma LookUpInTable(front: string, table: string, i: nat)
    requires i < 6
    ensures LookUp(front + (XREF_HEADER + table), |front|, i)
      == if 20 * i + 20 > |table| then None else ReadEntry(table[20 * i..20 * i + 20])
  {
    hide TakeNumber, Expect, ReadEntry;
    var section := "0 6\n" + table;
    var counted := "6\n" + table;
    var file := front + (XREF_HEADER + table);
    assert file[|front|..] == "xref\n" + section;
    ExpectExact("xref\n", section);
    assert section == Show(0) + (" " + counted);
    TakeNumberExact(0, " " + counted);
    ExpectExact(" ", counted);
    assert counted == Show(6) + ("\n" + table);
    TakeNumberExact(6, "\n" + table);
    ExpectExact("\n", table);
  }

  /** The table of a file and everything behind it. */
  function Table(objects: seq<string>): string
    requires |objects| == 5
  {
    FREE_ENTRY + (XrefEntries(objects, 5) + TRAILER + Show(|Before(objects, 5)|) + EOF_MARK)
  }

  lemma FileHasTable(objects: seq<string>)
    requires |objects| == 5
    ensures Document(objects) == Before(objects, 5) + (XREF_HEADER + Table(objects))
  {
    hide Before, XrefEntries, XREF_HEADER, FREE_ENTRY, TRAILER, EOF_MARK, Show;
  }

  lemma MoreDigits(front: string, digit: char)
    requires IsNumeral(front) && IsDigit(digit)
    ensures IsNumeral(front + [digit]) && Read(front + [digit]) == 10 * Read(front) + ValueOf(digit)
  {
    assert (front + [digit])[..|front|] == front;
  }

  lemma FreeNumbersRead()
    ensures IsNumeral("0000000000") && Read("0000000000") == 0 && IsNumeral("65535") && Read("65535") == 65535
  {
    hide Read;
    assert Read("") == 0 by { EmptyNumeral(); }
    ReadZeros(10, "");
    assert Zeros(10) + "" == "0000000000";
    MoreDigits("", '6');
    MoreDigits("6", '5');
    MoreDigits("65", '5');
    MoreDigits("655", '3');
    MoreDigits("6553", '5');
    assert "" + ['6'] == "6" && "6" + ['5'] == "65" && "65" + ['5'] == "655" && "655" + ['3'] == "6553" && "6553" + ['5'] == "65535";
  }

  lemma EmptyNumeral()
    ensures Read("") == 0
  {
  }

  lemma FreeEntryRead()
    ensures |FREE_ENTRY| == 20 && ReadFreeEntry(FREE_ENTRY) == Some((0, 65535))
  {
    hide Read;
    FreeNumbersRead();
    assert FREE_ENTRY[..10] == "0000000000";
    assert FREE_ENTRY[10..] == " " + "65535" + " f \n";
    assert FREE_ENTRY[11..16] == "65535" && FREE_ENTRY[16..] == " f \n";
  }

  /** Entry 0, behind the section header of nine bytes, is the head of an empty free list, which section 7.5.4 of ISO 32000-1 asks for. */
  lemma FreeListIsEmpty(objects: seq<string>)
    requires |objects| == 5
    ensures var at := |Before(objects, 5)| + 9;
            at + 20 <= |Document(objects)| && ReadFreeEntry(Document(objects)[at..at + 20]) == Some((0, 65535))
  {
    hide Document, Before, XrefEntries, ReadFreeEntry, FREE_ENTRY, TRAILER, EOF_MARK, Show;
    FreeEntryRead();
    FileHasTable(objects);
    var front, rest := Before(objects, 5), XrefEntries(objects, 5) + TRAILER + Show(|Before(objects, 5)|) + EOF_MARK;
    assert |XREF_HEADER| == 9;
    assert Document(objects) == (front + XREF_HEADER) + (FREE_ENTRY + rest);
    assert Document(objects)[|front| + 9..][..20] == FREE_ENTRY;
    assert Document(objects)[|front| + 9..|front| + 29] == Document(objects)[|front| + 9..][..20];
  }

  /** Entry i of the table, as long as the entries before it have their fixed width. */
  lemma EntryInTable(objects: seq<string>, i: nat) returns (rest: string)
    requires |objects| == 5 && 1 <= i <= 5
    requires forall k :: 1 <= k < i ==> Offset(objects, k) < Pow10(10)
    ensures 20 * i <= |Table(objects)| && Table(objects)[20 * i..] == XrefEntry(Offset(objects, i)) + rest
  {
    hide Before, Offset, XrefEntry, TRAILER, EOF_MARK, Show, Pow10;
    EntriesWidth(objects, i - 1);
    EntriesPrefix(objects, i, 5);
    var all := XrefEntries(objects, 5);
    var skipped := FREE_ENTRY + XrefEntries(objects, i - 1);
    assert |skipped| == 20 * i by { assert |FREE_ENTRY| == 20; }
    var behind := TRAILER + Show(|Before(objects, 5)|) + EOF_MARK;
    rest := all[|XrefEntries(objects, i)|..] + behind;
    assert all == XrefEntries(objects, i) + all[|XrefEntries(objects, i)|..];
    assert Table(objects) == skipped + (XrefEntry(Offset(objects, i)) + rest);
  }

  /**
   The table leads to object i exactly when the offset of object i has at most ten digits,
   provided the entries in front of it are not too wide already.
   */
  lemma LookUpIffFits(objects: seq<string>, i: nat)
    requires |objects| == 5 && 1 <= i <= 5
    requires forall k :: 1 <= k < i ==> Offset(objects, k) < Pow10(10)
    ensures LookUp(Document(objects), |Before(objects, 5)|, i)
         == if Offset(objects, i) < Pow10(10) then Some(Offset(objects, i)) else None
  {
    hide Document, Before, Table, LookUp, ReadEntry, XrefEntry, Pow10;
    var table := Table(objects);
    var offset := Offset(objects, i);
    FileHasTable(objects);
    LookUpInTable(Before(objects, 5), table, i);
    var rest := EntryInTable(objects, i);
    EntryReadsBack(offset);
    if offset < Pow10(10) {
      assert table[20 * i..20 * i + 20] == table[20 * i..][..20] == XrefEntry(offset);
    } else {
      WideEntryIsRejected(offset, rest);
      assert table[20 * i..20 * i + 20] == table[20 * i..][..20] == (XrefEntry(offset) + rest)[..20];
    }
  }

  lemma FixedLengths()
    ensures |FILE_HEADER| <= 10 && |CATALOG| <= 60 && |PAGES| <= 60 && |Page()| <= 200
  {
  }

  /** The first four objects start near the front of every file, whatever the lines are. */
  lemma EarlyOffsets(stream: string, i: nat)
    requires 1 <= i <= 4
    ensures Offset(Objects(stream), i) < Pow10(10)
  {
    hide Page, StreamObject, CATALOG, PAGES, FONT, FILE_HEADER;
    var objects := Objects(stream);
    assert objects[0] == CATALOG && objects[1] == PAGES && objects[2] == Page();
    BeforeNext(objects, 0);
    BeforeNext(objects, 1);
    BeforeNext(objects, 2);
    FixedLengths();
    assert Pow10(10) >= 1000 by { assert Pow10(3) == 1000; }
  }

  /** The table leads to the page contents in every file; to the font, object 5, unless the file is huge. */
  lemma TableLeadsToObjects(stream: string, i: nat)
    requires 1 <= i <= 5
    ensures LookUp(File(stream), |Before(Objects(stream), 5)|, i)
         == if i <= 4 || Offset(Objects(stream), 5) < Pow10(10) then Some(Offset(Objects(stream), i)) else None
  {
    hide Objects, Document, Before, Offset, LookUp, Pow10;
    forall k | 1 <= k <= 4
      ensures Offset(Objects(stream), k) < Pow10(10)
    {
      EarlyOffsets(stream, k);
    }
    LookUpIffFits(Objects(stream), i);
  }

  lemma ReadStreamObject(front: string, stream: string, rest: string)
    ensures ReadStream(front + StreamObject(stream) + rest, |front|, 4) == Some(stream)
  {
    hide TakeNumber, Expect, StreamObject, Show;
    var data := stream + ("endstream\nendobj\n" + rest);
    var length := Show(|stream|) + (" >>\nstream\n" + data);
    var bytes := Show(4) + (" 0 obj\n<< /Length " + length);
    StreamObjectParts(stream, rest);
    assert front + StreamObject(stream) + rest == front + bytes;
    TakeNumberExact(4, " 0 obj\n<< /Length " + length);
    ExpectExact(" 0 obj\n<< /Length ", length);
    TakeNumberExact(|stream|, " >>\nstream\n" + data);
    ExpectExact(" >>\nstream\n", data);
    assert data[|stream|..] == "endstream\nendobj\n" + rest;
  }

  /** /Length counts exactly the bytes between "stream\n" and "endstream". */
  lemma StreamIsRecovered(stream: string)
    ensures Offset(Objects(stream), 4) <= |File(stream)|
    ensures ReadStream(File(stream), Offset(Objects(stream), 4), 4) == Some(stream)
  {
    hide Before, Document, ReadStream, StreamObject, Page, CATALOG, PAGES, FONT;
    var rest := FileFrom(Objects(stream), 3);
    ReadStreamObject(Before(Objects(stream), 3), stream, rest);
  }
}
