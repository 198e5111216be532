/** In a printed file the path from the trailer through catalog, page tree and page leads to the page contents. */
module PdfPath {
  import opened Text
  import opened Decimal
  import opened PdfWriter
  import opened PdfReader
  import opened PdfIndex

  // ----- finding a key

  predicate AllWhite(s: string) {
    forall c :: c in s ==> IsWhite(c)
  }

  /** What is neither a name nor a dictionary is passed over; it ends the wait for a value unless it is white. */
  lemma {:induction false} PassPlain(plain: string, rest: string, key: string, depth: nat, value: bool)
    requires '/' !in plain && '<' !in plain && '>' !in plain
    ensures BehindKey(plain + rest, key, depth, value) == BehindKey(rest, key, depth, value && AllWhite(plain))
  {
    if plain == "" {
      assert plain + rest == rest;
    } else {
      var s, tail := plain + rest, plain[1..];
      assert s[0] == plain[0] && plain[0] in plain && s[1..] == tail + rest;
      assert forall c :: c in tail ==> c in plain;
      assert AllWhite(plain) <==> IsWhite(plain[0]) && AllWhite(tail) by {
        assert plain == [plain[0]] + tail;
      }
      assert !("<<" <= s) && !(">>" <= s);
      PassPlain(tail, rest, key, depth, value && IsWhite(plain[0]));
    }
  }

  /** A name is the key, or it and its place are passed over. */
  lemma AtName(name: string, rest: string, key: string, depth: nat, value: bool)
    requires IsName(name) && rest != "" && !IsRegular(rest[0])
    ensures BehindKey("/" + name + rest, key, depth, value)
         == if depth == 1 && !value && name == key then Some(rest) else BehindKey(rest, key, depth, !value)
  {
    var s := "/" + name + rest;
    assert s[1..] == name + rest;
    TakeWhileExact(IsRegular, name, rest);
    assert s[0] == '/' && !("<<" <= s) && !(">>" <= s);
  }

  lemma AtOpen(rest: string, key: string, depth: nat, value: bool)
    ensures BehindKey("<<" + rest, key, depth, value) == BehindKey(rest, key, depth + 1, false)
  {
    assert ("<<" + rest)[2..] == rest;
  }

  lemma AtClose(rest: string, key: string, depth: nat, value: bool)
    requires depth >= 2
    ensures BehindKey(">>" + rest, key, depth, value) == BehindKey(rest, key, depth - 1, false)
  {
    var s := ">>" + rest;
    assert s[2..] == rest && s[0] == '>';
  }

  /** One more entry of a dictionary that is not looked for: a name and a plain value. */
  lemma PassEntry(name: string, plain: string, rest: string, key: string, depth: nat)
    requires IsName(name) && plain != "" && !IsRegular(plain[0])
    requires '/' !in plain && '<' !in plain && '>' !in plain && !AllWhite(plain) && (depth != 1 || name != key)
    ensures BehindKey("/" + name + plain + rest, key, depth, false) == BehindKey(rest, key, depth, false)
  {
    assert "/" + name + plain + rest == "/" + name + (plain + rest);
    AtName(name, plain + rest, key, depth, false);
    PassPlain(plain, rest, key, depth, true);
  }

  /** The opening of a dictionary and the blank behind it. */
  lemma Enter(rest: string, key: string, depth: nat, value: bool)
    ensures BehindKey("<< " + rest, key, depth, value) == BehindKey(rest, key, depth + 1, false)
  {
    assert "<< " + rest == "<<" + (" " + rest);
    AtOpen(" " + rest, key, depth, value);
    PassPlain(" ", rest, key, depth + 1, false);
  }

  lemma Leave(rest: string, key: string, depth: nat)
    requires depth >= 2
    ensures BehindKey(">> " + rest, key, depth, false) == BehindKey(rest, key, depth - 1, false)
  {
    assert ">> " + rest == ">>" + (" " + rest);
    AtClose(" " + rest, key, depth, false);
    PassPlain(" ", rest, key, depth - 1, false);
  }

  /** An entry whose value is a dictionary: the keys in there are not those of the outer one. */
  lemma EnterNested(name: string, rest: string, key: string, depth: nat)
    requires IsName(name) && name != key
    ensures BehindKey("/" + name + " << " + rest, key, depth, false) == BehindKey(rest, key, depth + 1, false)
  {
    assert "/" + name + " << " + rest == "/" + name + (" " + ("<< " + rest));
    AtName(name, " " + ("<< " + rest), key, depth, false);
    PassPlain(" ", "<< " + rest, key, depth, true);
    Enter(rest, key, depth, true);
  }

  lemma TypeText(name: string, rest: string)
    ensures "<< /Type /" + name + " " + rest == "<< " + ("/" + "Type" + (" " + ("/" + name + (" " + rest))))
  {
    assert "<< /Type /" == "<< " + "/" + "Type" + " " + "/";
  }

  /** The start of an object with its type, whose name is not taken for a key. */
  lemma PassType(name: string, rest: string, key: string)
    requires IsName(name) && key != "Type"
    ensures BehindKey("<< /Type /" + name + " " + rest, key, 0, false) == BehindKey(rest, key, 1, false)
  {
    hide BehindKey;
    var named := "/" + name + (" " + rest);
    TypeText(name, rest);
    Enter("/" + "Type" + (" " + named), key, 0, false);
    AtName("Type", " " + named, key, 1, false);
    PassPlain(" ", named, key, 1, true);
    AtName(name, " " + rest, key, 1, true);
    PassPlain(" ", rest, key, 1, false);
  }

  /** The entry that is looked for, a reference. */
  lemma AtReference(entry: string, key: string, start: string, n: nat, tail: string, rest: string)
    requires IsName(key) && start != "" && !IsRegular(start[0])
    requires entry == "/" + key + start + Show(n) + " 0 R" + tail
    ensures BehindKey(entry + rest, key, 1, false) == Some(start + (Show(n) + (" 0 R" + (tail + rest))))
  {
    hide BehindKey, Show;
    var behind := start + (Show(n) + (" 0 R" + (tail + rest)));
    assert entry + rest == "/" + key + behind;
    AtName(key, behind, key, 1, false);
  }

  lemma ReferenceRead(dictionary: string, key: string, start: string, n: nat, rest: string)
    requires BehindKey(dictionary, key, 0, false) == Some(start + (Show(n) + (" 0 R" + rest)))
    ensures Reference(dictionary, key, start) == Some(n)
  {
    ExpectExact(start, Show(n) + (" 0 R" + rest));
    TakeNumberExact(n, " 0 R" + rest);
  }

  // ----- the four dictionaries on the path

  lemma Digits()
    ensures Show(0) == "0" && Show(1) == "1" && Show(2) == "2" && Show(3) == "3" && Show(4) == "4" && Show(5) == "5" && Show(6) == "6"
  {
  }

  lemma TrailerText()
    ensures "/Root 1 0 R >>" == "/" + "Root" + " " + Show(1) + " 0 R" + " >>"
    ensures "<< /Size 6 /Root 1 0 R >>" + "\n" == "<< " + ("/" + "Size" + " 6 " + ("/Root 1 0 R >>" + "\n"))
  {
    hide Show;
    Digits();
    assert "<< /Size 6 /Root 1 0 R >>" == "<< " + "/" + "Size" + " 6 " + "/Root 1 0 R >>";
  }

  lemma RootIsCatalog()
    ensures Reference("<< /Size 6 /Root 1 0 R >>" + "\n", "Root", " ") == Some(1)
  {
    hide BehindKey, Show;
    var root := "/Root 1 0 R >>";
    var size := "/" + "Size" + " 6 ";
    TrailerText();
    AtReference(root, "Root", " ", 1, " >>", "\n");
    Enter(size + (root + "\n"), "Root", 0, false);
    assert " 6 "[1] == '6' && '6' in " 6 ";
    PassEntry("Size", " 6 ", root + "\n", "Root", 1);
    ReferenceRead("<< /Size 6 /Root 1 0 R >>" + "\n", "Root", " ", 1, " >>" + "\n");
  }

  lemma SizeText()
    ensures " 6 " == " " + Show(6) + " "
  {
    Digits();
  }

  /** /Size is one more than the number of objects. */
  lemma SizeCountsObjects(stream: string)
    ensures var trailer := Trailer(File(stream));
            trailer.Some? && NumberOf(trailer.value, "Size") == Some(1 + |Objects(stream)|)
  {
    hide BehindKey, Show, Objects, NumberOf, Trailer, Document;
    TrailerFound(Objects(stream));
    var root := "/Root 1 0 R >>" + "\n";
    TrailerText();
    SizeText();
    assert "/" + "Size" + " 6 " + root == "/" + "Size" + (" " + (Show(6) + (" " + root)));
    Enter("/" + "Size" + (" " + (Show(6) + (" " + root))), "Size", 0, false);
    AtName("Size", " " + (Show(6) + (" " + root)), "Size", 1, false);
    NumberRead("<< /Size 6 /Root 1 0 R >>" + "\n", "Size", 6, " " + root);
  }

  lemma PagesText()
    ensures "/Pages 2 0 R >>\nendobj\n" == "/" + "Pages" + " " + Show(2) + " 0 R" + " >>\nendobj\n"
    ensures "<< /Type /Catalog " == "<< /Type /" + "Catalog" + " "
  {
    Digits();
  }

  lemma PagesOfCatalog(rest: string)
    ensures Reference("<< /Type /Catalog " + "/Pages 2 0 R >>\nendobj\n" + rest, "Pages", " ") == Some(2)
  {
    hide BehindKey, Show;
    var pages, tail := "/Pages 2 0 R >>\nendobj\n", " >>\nendobj\n";
    PagesText();
    AtReference(pages, "Pages", " ", 2, tail, rest);
    PassType("Catalog", pages + rest, "Pages");
    assert "<< /Type /Catalog " + pages + rest == "<< /Type /Catalog " + (pages + rest);
    ReferenceRead("<< /Type /Catalog " + pages + rest, "Pages", " ", 2, tail + rest);
  }

  lemma KidsText()
    ensures "/Kids [3 0 R] " == "/" + "Kids" + " [" + Show(3) + " 0 R" + "] "
    ensures "/Kids [3 0 R] " == "/" + "Kids" + " [3 0 R] " && "<< /Type /Pages " == "<< /Type /" + "Pages" + " "
  {
    Digits();
  }

  /** The dictionary of the page tree. */
  function TreeDictionary(): string {
    "<< /Type /Pages " + "/Kids [3 0 R] " + "/Count 1 >>\nendobj\n"
  }

  /** A key of the page tree is sought behind its type. */
  lemma TreeAfterType(rest: string, key: string)
    requires key != "Type"
    ensures BehindKey(TreeDictionary() + rest, key, 0, false)
         == BehindKey("/Kids [3 0 R] " + ("/Count 1 >>\nendobj\n" + rest), key, 1, false)
  {
    hide BehindKey;
    KidsText();
    var behind := "/Kids [3 0 R] " + ("/Count 1 >>\nendobj\n" + rest);
    assert TreeDictionary() + rest == "<< /Type /Pages " + behind;
    PassType("Pages", behind, key);
  }

  lemma KidsOfPages(rest: string)
    ensures Reference(TreeDictionary() + rest, "Kids", " [") == Some(3)
  {
    hide BehindKey, Show, TreeDictionary;
    var behind := "/Count 1 >>\nendobj\n" + rest;
    TreeAfterType(rest, "Kids");
    KidsText();
    AtReference("/Kids [3 0 R] ", "Kids", " [", 3, "] ", behind);
    ReferenceRead(TreeDictionary() + rest, "Kids", " [", 3, "] " + behind);
  }

  lemma CountText(rest: string)
    ensures "/Count 1 >>\nendobj\n" + rest == "/" + "Count" + (" " + (Show(1) + (" >>\nendobj\n" + rest)))
  {
    Digits();
    assert "/Count 1 >>\nendobj\n" == "/" + "Count" + " " + "1" + " >>\nendobj\n";
    hide Show;
  }

  lemma NumberRead(dictionary: string, key: string, n: nat, rest: string)
    requires BehindKey(dictionary, key, 0, false) == Some(" " + (Show(n) + rest)) && rest != "" && !IsDigit(rest[0])
    ensures NumberOf(dictionary, key) == Some(n)
  {
    ExpectExact(" ", Show(n) + rest);
    TakeNumberExact(n, rest);
  }

  lemma PassKids(rest: string, key: string)
    requires key != "Kids"
    ensures BehindKey("/Kids [3 0 R] " + rest, key, 1, false) == BehindKey(rest, key, 1, false)
  {
    hide BehindKey;
    KidsText();
    assert " [3 0 R] "[2] == '3' && '3' in " [3 0 R] ";
    PassEntry("Kids", " [3 0 R] ", rest, key, 1);
  }

  /** The page tree has one page. */
  lemma CountOfPages(rest: string)
    ensures NumberOf(TreeDictionary() + rest, "Count") == Some(1)
  {
    hide BehindKey, Show, TreeDictionary, NumberOf;
    var tail := " >>\nendobj\n" + rest;
    TreeAfterType(rest, "Count");
    CountText(rest);
    PassKids("/" + "Count" + (" " + (Show(1) + tail)), "Count");
    AtName("Count", " " + (Show(1) + tail), "Count", 1, false);
    NumberRead(TreeDictionary() + rest, "Count", 1, tail);
  }

  lemma PassParent(rest: string, key: string)
    requires key != "Parent"
    ensures BehindKey("/Parent 2 0 R " + rest, key, 1, false) == BehindKey(rest, key, 1, false)
  {
    hide BehindKey;
    assert "/Parent 2 0 R " == "/" + "Parent" + " 2 0 R " && " 2 0 R "[1] == '2' && '2' in " 2 0 R ";
    PassEntry("Parent", " 2 0 R ", rest, key, 1);
  }

  function BoxEntry(): string {
    "/MediaBox [0 0 " + Show(PAGE_WIDTH) + " " + Show(PAGE_HEIGHT) + "] "
  }

  function BoxValue(): string {
    " [0 0 " + Show(PAGE_WIDTH) + " " + Show(PAGE_HEIGHT) + "] "
  }

  lemma BoxText()
    ensures BoxEntry() == "/" + "MediaBox" + BoxValue() && '0' in BoxValue()
    ensures BoxValue()[0] == ' ' && '/' !in BoxValue() && '<' !in BoxValue() && '>' !in BoxValue()
  {
    hide Show;
    assert "/MediaBox [0 0 " == "/" + "MediaBox" + " [0 0 ";
    assert BoxValue()[2] == '0';
  }

  lemma PassBox(rest: string, key: string)
    requires key != "MediaBox"
    ensures BehindKey(BoxEntry() + rest, key, 1, false) == BehindKey(rest, key, 1, false)
  {
    hide BehindKey, BoxEntry, BoxValue;
    BoxText();
    PassEntry("MediaBox", BoxValue(), rest, key, 1);
  }

  lemma BoxNumbers(rest: string)
    ensures BoxValue() + rest == " [" + (Show(0) + (" " + (Show(0) + (" " + (Show(612) + (" " + (Show(792) + ("] " + rest))))))))
  {
    hide Show;
    Digits();
    assert " [0 0 " == " [" + "0" + " " + "0" + " ";
  }

  /** The box that the reader finds. */
  lemma BoxRead(page: string, rest: string)
    requires BehindKey(page, "MediaBox", 0, false) == Some(BoxValue() + rest)
    ensures MediaBox(page) == Some(Box(0, 0, 612, 792))
  {
    hide BehindKey, Show, TakeNumber, Expect;
    BoxNumbers(rest);
    var s4 := "] " + rest;
    var s3 := Show(792) + s4;
    var s2 := Show(612) + (" " + s3);
    var s1 := Show(0) + (" " + s2);
    var s0 := Show(0) + (" " + s1);
    ExpectExact(" [", s0);
    TakeNumberExact(0, " " + s1);
    ExpectExact(" ", s1);
    TakeNumberExact(0, " " + s2);
    ExpectExact(" ", s2);
    TakeNumberExact(612, " " + s3);
    ExpectExact(" ", s3);
    TakeNumberExact(792, s4);
    assert s4[..1] == "]";
  }

  lemma ResourcesText()
    ensures "/Resources << " == "/" + "Resources" + " << " && "/Font << " == "/" + "Font" + " << "
    ensures "/F1 5 0 R " == "/" + "F1" + " 5 0 R "
  {
  }

  lemma PassResources(rest: string)
    ensures BehindKey("/Resources << " + ("/Font << " + ("/F1 5 0 R " + (">> " + (">> " + rest)))), "Contents", 1, false)
         == BehindKey(rest, "Contents", 1, false)
  {
    hide BehindKey;
    var closing := ">> " + (">> " + rest);
    ResourcesText();
    assert " 5 0 R "[1] == '5' && '5' in " 5 0 R ";
    EnterNested("Resources", "/Font << " + ("/F1 5 0 R " + closing), "Contents", 1);
    EnterNested("Font", "/F1 5 0 R " + closing, "Contents", 2);
    PassEntry("F1", " 5 0 R ", closing, "Contents", 3);
    Leave(">> " + rest, "Contents", 3);
    Leave(rest, "Contents", 2);
  }

  lemma Nest(a: string, b: string, c: string, d: string, e: string, f: string, g: string, h: string, i: string, rest: string)
    ensures a + b + c + d + e + f + g + h + i + rest == a + (b + (c + (d + (e + (f + (g + (h + (i + rest))))))))
  {
  }

  /** What follows the box in the dictionary of the page. */
  function AfterBox(rest: string): string {
    "/Resources << " + ("/Font << " + ("/F1 5 0 R " + (">> " + (">> " + ("/Contents 4 0 R >>\nendobj\n" + rest)))))
  }

  lemma PageSplit(rest: string)
    ensures PageDictionary() + rest == "<< /Type /Page " + ("/Parent 2 0 R " + (BoxEntry() + AfterBox(rest)))
  {
    hide Show;
    Nest("<< /Type /Page ", "/Parent 2 0 R ", BoxEntry(), "/Resources << ", "/Font << ", "/F1 5 0 R ", ">> ", ">> ",
         "/Contents 4 0 R >>\nendobj\n", rest);
  }

  /** A key of the page is sought behind its type. */
  lemma AfterType(rest: string, key: string)
    requires key != "Type"
    ensures BehindKey(PageDictionary() + rest, key, 0, false)
         == BehindKey("/Parent 2 0 R " + (BoxEntry() + AfterBox(rest)), key, 1, false)
  {
    hide BehindKey, PageDictionary, BoxEntry, AfterBox;
    PageSplit(rest);
    assert "<< /Type /Page " == "<< /Type /" + "Page" + " ";
    PassType("Page", "/Parent 2 0 R " + (BoxEntry() + AfterBox(rest)), key);
  }

  /** And behind its parent and its box. */
  lemma AfterParentAndBox(rest: string, key: string)
    requires key != "Type" && key != "Parent" && key != "MediaBox"
    ensures BehindKey(PageDictionary() + rest, key, 0, false) == BehindKey(AfterBox(rest), key, 1, false)
  {
    hide BehindKey, PageDictionary, BoxEntry, AfterBox;
    AfterType(rest, key);
    PassParent(BoxEntry() + AfterBox(rest), key);
    PassBox(AfterBox(rest), key);
  }

  lemma ParentText()
    ensures "/Parent 2 0 R " == "/" + "Parent" + " " + Show(2) + " 0 R" + " "
  {
    Digits();
  }

  lemma ParentOfPage(rest: string)
    ensures Reference(PageDictionary() + rest, "Parent", " ") == Some(2)
  {
    hide BehindKey, Show, PageDictionary, BoxEntry, AfterBox;
    var behind := BoxEntry() + AfterBox(rest);
    AfterType(rest, "Parent");
    ParentText();
    AtReference("/Parent 2 0 R ", "Parent", " ", 2, " ", behind);
    ReferenceRead(PageDictionary() + rest, "Parent", " ", 2, " " + behind);
  }

  /** The page is 612 units wide and 792 high. */
  lemma BoxOfPage(rest: string)
    ensures MediaBox(PageDictionary() + rest) == Some(Box(0, 0, 612, 792))
  {
    hide BehindKey, PageDictionary, BoxEntry, BoxValue, AfterBox;
    AfterType(rest, "MediaBox");
    PassParent(BoxEntry() + AfterBox(rest), "MediaBox");
    BoxText();
    var behind := BoxValue() + AfterBox(rest);
    assert BoxEntry() + AfterBox(rest) == "/" + "MediaBox" + behind;
    assert behind[0] == ' ';
    AtName("MediaBox", behind, "MediaBox", 1, false);
    BoxRead(PageDictionary() + rest, AfterBox(rest));
  }

  lemma FontText()
    ensures "/F1 5 0 R " == "/" + "F1" + " " + Show(5) + " 0 R" + " "
  {
    Digits();
  }

  /** A dictionary that is the value of a key, and the keys in it. */
  lemma AtNested(name: string, inner: string, key: string)
    requires IsName(name)
    ensures BehindKey("/" + name + " << " + inner, name, 1, false) == Some(" << " + inner)
    ensures BehindKey(" << " + inner, key, 0, false) == BehindKey(inner, key, 1, false)
  {
    hide BehindKey;
    assert "/" + name + " << " + inner == "/" + name + (" << " + inner);
    AtName(name, " << " + inner, name, 1, false);
    assert " << " + inner == " " + ("<< " + inner);
    PassPlain(" ", "<< " + inner, key, 0, false);
    Enter(inner, key, 0, false);
  }

  lemma FontsRead(page: string, fonts: string, closing: string)
    requires BehindKey(page, "Resources", 0, false) == Some(" << " + ("/Font << " + fonts)) && fonts == "/F1 5 0 R " + closing
    ensures FontObject(page, "F1") == Some(5)
  {
    hide BehindKey, Show, Reference;
    FontText();
    ResourcesText();
    AtNested("Resources", "/Font << " + fonts, "Font");
    AtNested("Font", fonts, "F1");
    AtReference("/F1 5 0 R ", "F1", " ", 5, " ", closing);
    ReferenceRead(" << " + fonts, "F1", " ", 5, " " + closing);
  }

  /** The font that the contents select is object 5. */
  lemma FontOfPage(rest: string)
    ensures FontObject(PageDictionary() + rest, "F1") == Some(5)
  {
    hide BehindKey, PageDictionary, FontObject;
    var closing := ">> " + (">> " + ("/Contents 4 0 R >>\nendobj\n" + rest));
    var fonts := "/F1 5 0 R " + closing;
    AfterParentAndBox(rest, "Resources");
    ResourcesText();
    AtNested("Resources", "/Font << " + fonts, "Font");
    FontsRead(PageDictionary() + rest, fonts, closing);
  }

  lemma ContentsOfPage(rest: string)
    ensures Reference(PageDictionary() + rest, "Contents", " ") == Some(4)
  {
    hide BehindKey, Show, PageDictionary, BoxEntry;
    var contents, tail := "/Contents 4 0 R >>\nendobj\n", " >>\nendobj\n";
    AfterParentAndBox(rest, "Contents");
    PassResources(contents + rest);
    ContentsEntry();
    AtReference(contents, "Contents", " ", 4, tail, rest);
    ReferenceRead(PageDictionary() + rest, "Contents", " ", 4, tail + rest);
  }

  lemma ContentsEntry()
    ensures "/Contents 4 0 R >>\nendobj\n" == "/" + "Contents" + " " + Show(4) + " 0 R" + " >>\nendobj\n"
  {
    Digits();
  }

  // ----- the trailer

  lemma EndsItself(head: string, keyword: string)
    ensures EndsWith(head + keyword, keyword)
  {
    assert (head + keyword)[|head|..] == keyword;
  }

  lemma NotAtEnd(s: string, keyword: string)
    requires keyword != "" && s != "" && s[|s| - 1] != keyword[|keyword| - 1]
    ensures !EndsWith(s, keyword)
  {
    if |s| >= |keyword| {
      assert s[|s| - |keyword|..][|keyword| - 1] == s[|s| - 1];
    }
  }

  lemma {:induction false} BehindLastExact(head: string, keyword: string, tail: string)
    requires keyword != "" && keyword[|keyword| - 1] !in tail
    ensures BehindLast(head + keyword + tail, keyword) == Some(tail)
    decreases |tail|
  {
    hide EndsWith;
    var s := head + keyword + tail;
    if tail == "" {
      EndsItself(head, keyword);
      assert s == head + keyword;
    } else {
      var init, last := tail[..|tail| - 1], tail[|tail| - 1];
      NotAtEnd(s, keyword);
      assert s[..|s| - 1] == head + keyword + init;
      assert forall c :: c in init ==> c in tail;
      BehindLastExact(head, keyword, init);
      assert tail == init + [last];
    }
  }

  lemma TrailerKeyword(table: string, dictionary: string)
    requires '\n' !in dictionary && dictionary != "" && dictionary[|dictionary| - 1] != 'r'
    ensures BehindLast(table + "trailer\n" + dictionary + "\n", "trailer\n") == Some(dictionary + "\n")
  {
    var s := table + "trailer\n" + dictionary + "\n";
    BehindLastExact(table, "trailer\n", dictionary);
    assert s[..|s| - 1] == table + "trailer\n" + dictionary;
    assert s[|s| - 8..][6] == dictionary[|dictionary| - 1] != "trailer\n"[6];
  }

  /** The trailer is sought in the text in front of startxref. */
  lemma TrailerInFront(front: string, xref: nat)
    ensures Trailer(front + "startxref\n" + Show(xref) + "\n%%EOF\n") == BehindLast(front, "trailer\n")
  {
    hide Show, BehindLast;
    var before := front + "startxref\n";
    var file := before + Show(xref) + "\n%%EOF\n";
    assert file[|file| - 7..] == "\n%%EOF\n";
    assert file[..|file| - 7] == before + Show(xref);
    TrailingDigitsExact(before, Show(xref));
    assert (before + Show(xref))[..|before|] == before;
    assert before[|front|..] == "startxref\n" && before[..|front|] == front;
  }

  lemma TrailerFound(objects: seq<string>)
    ensures Trailer(Document(objects)) == Some("<< /Size 6 /Root 1 0 R >>" + "\n")
  {
    hide Before, XrefEntries, FREE_ENTRY, XREF_HEADER, Show, BehindLast, Trailer;
    var all := Before(objects, |objects|);
    var table := all + XREF_HEADER + FREE_ENTRY + XrefEntries(objects, |objects|);
    var dictionary := "<< /Size 6 /Root 1 0 R >>";
    var front := table + "trailer\n" + dictionary + "\n";
    assert Document(objects) == front + "startxref\n" + Show(|all|) + "\n%%EOF\n";
    TrailerInFront(front, |all|);
    TrailerKeyword(table, dictionary);
  }

  // ----- the path

  /** An object that starts near the front is found with its dictionary. */
  lemma DictionaryFound(stream: string, i: nat, dictionary: string) returns (rest: string)
    requires 1 <= i <= 4 || (i == 5 && Offset(Objects(stream), 5) < Pow10(10))
    requires Objects(stream)[i - 1] == Show(i) + " 0 obj\n" + dictionary
    ensures Dictionary(File(stream), |Before(Objects(stream), 5)|, i) == Some(dictionary + rest)
  {
    hide Objects, Document, Before, LookUp, Show, Pow10;
    TableLeadsToObjects(stream, i);
    ObjectAtOffset(Objects(stream), i);
    var from := File(stream)[Offset(Objects(stream), i)..];
    rest := from[|Objects(stream)[i - 1]|..];
    assert from == Show(i) + (" 0 obj\n" + (dictionary + rest));
    TakeNumberExact(i, " 0 obj\n" + (dictionary + rest));
    ExpectExact(" 0 obj\n", dictionary + rest);
  }

  /** The first three objects, split where the reader splits them. */
  lemma ObjectsSplit(stream: string)
    ensures Objects(stream)[0] == Show(1) + " 0 obj\n" + ("<< /Type /Catalog " + "/Pages 2 0 R >>\nendobj\n")
    ensures Objects(stream)[1] == Show(2) + " 0 obj\n" + TreeDictionary()
    ensures Objects(stream)[2] == Show(3) + " 0 obj\n" + PageDictionary()
  {
    hide Show, StreamObject;
    Digits();
    assert Show(1) + " 0 obj\n" == "1 0 obj\n";
    assert Show(2) + " 0 obj\n" == "2 0 obj\n";
    assert Show(3) + " 0 obj\n" == "3 0 obj\n";
  }

  lemma FontTexts(rest: string)
    ensures FONT == Show(5) + " 0 obj\n" + ("<< /Type /Font " + "/Subtype /Type1 " + "/BaseFont /Helvetica " + ">>\nendobj\n")
    ensures "/BaseFont /Helvetica " + rest == "/" + "BaseFont" + (" /" + ("Helvetica" + (" " + rest)))
    ensures "/Subtype /Type1 " + rest == "/" + "Subtype" + (" " + ("/" + "Type1" + (" " + rest)))
    ensures "<< /Type /Font " == "<< /Type /" + "Font" + " "
  {
    Digits();
    hide Show;
    assert "5" + " 0 obj\n" == "5 0 obj\n";
    assert "/BaseFont /Helvetica " == "/" + "BaseFont" + " /" + "Helvetica" + " ";
    assert "/Subtype /Type1 " == "/" + "Subtype" + " " + "/" + "Type1" + " ";
  }

  /** The name of the base font is found behind the types. */
  lemma BaseFontRead(rest: string)
    ensures BehindKey("<< /Type /Font " + ("/Subtype /Type1 " + ("/BaseFont /Helvetica " + rest)), "BaseFont", 0, false)
         == Some(" /" + ("Helvetica" + (" " + rest)))
  {
    hide BehindKey, FONT, Show;
    FontTexts(rest);
    var base := "/BaseFont /Helvetica " + rest;
    FontTexts(base);
    PassType("Font", "/Subtype /Type1 " + base, "BaseFont");
    AtName("Subtype", " " + ("/" + "Type1" + (" " + base)), "BaseFont", 1, false);
    PassPlain(" ", "/" + "Type1" + (" " + base), "BaseFont", 1, true);
    AtName("Type1", " " + base, "BaseFont", 1, true);
    PassPlain(" ", base, "BaseFont", 1, false);
    AtName("BaseFont", " /" + ("Helvetica" + (" " + rest)), "BaseFont", 1, false);
  }

  lemma NestFour(a: string, b: string, c: string, d: string, rest: string)
    ensures a + b + c + d + rest == a + (b + (c + (d + rest)))
  {
  }

  /** The dictionary of the font. */
  function FontDictionary(): string {
    "<< /Type /Font " + "/Subtype /Type1 " + "/BaseFont /Helvetica " + ">>\nendobj\n"
  }

  lemma FontDictionaryNests(rest: string)
    ensures FontDictionary() + rest
         == "<< /Type /Font " + ("/Subtype /Type1 " + ("/BaseFont /Helvetica " + (">>\nendobj\n" + rest)))
  {
    NestFour("<< /Type /Font ", "/Subtype /Type1 ", "/BaseFont /Helvetica ", ">>\nendobj\n", rest);
  }

  lemma BaseFontOfDictionary(file: string, xref: nat, rest: string)
    requires Dictionary(file, xref, 5) == Some(FontDictionary() + rest)
    ensures BaseFont(file, xref, 5) == Some("Helvetica")
  {
    hide Dictionary, BehindKey, FontDictionary;
    FontDictionaryNests(rest);
    var tail := ">>\nendobj\n" + rest;
    BaseFontRead(tail);
    ExpectExact(" /", "Helvetica" + (" " + tail));
    TakeWhileExact(IsRegular, "Helvetica", " " + tail);
  }

  /** Object 5 is found as Helvetica exactly when the file is not too large for its table. */
  lemma FontFoundIff(stream: string)
    ensures BaseFont(File(stream), |Before(Objects(stream), 5)|, 5) == Some("Helvetica") <==> Offset(Objects(stream), 5) < Pow10(10)
  {
    hide Document, Before, Offset, LookUp, BehindKey, Show, Pow10, StreamObject, CATALOG, PAGES, Page, FONT, FontDictionary;
    if Offset(Objects(stream), 5) < Pow10(10) {
      FontIsDictionary();
      var rest := DictionaryFound(stream, 5, FontDictionary());
      BaseFontOfDictionary(File(stream), |Before(Objects(stream), 5)|, rest);
    } else {
      TableLeadsToObjects(stream, 5);
    }
  }

  lemma FontIsDictionary()
    ensures FONT == Show(5) + " 0 obj\n" + FontDictionary()
  {
    FontTexts("");
  }

  /**
   In every printed file the trailer leads to the page, whose contents are object 4, whose font F1 is
   object 5 and whose box is 612 by 792.
   */
  lemma PathLeadsToPage(stream: string) returns (page: string)
    ensures FirstPage(File(stream), |Before(Objects(stream), 5)|) == Some(page)
    ensures Reference(page, "Contents", " ") == Some(4) && FontObject(page, "F1") == Some(5)
    ensures MediaBox(page) == Some(Box(0, 0, 612, 792))
  {
    hide Document, Objects, Before, Dictionary, Reference, NumberOf, MediaBox, FontObject, Trailer, Show, TreeDictionary, PageDictionary;
    ObjectsSplit(stream);
    TrailerFound(Objects(stream));
    RootIsCatalog();
    var rest1 := DictionaryFound(stream, 1, "<< /Type /Catalog " + "/Pages 2 0 R >>\nendobj\n");
    PagesOfCatalog(rest1);
    var rest2 := DictionaryFound(stream, 2, TreeDictionary());
    KidsOfPages(rest2);
    CountOfPages(rest2);
    var rest3 := DictionaryFound(stream, 3, PageDictionary());
    page := PageDictionary() + rest3;
    ParentOfPage(rest3);
    ContentsOfPage(rest3);
    BoxOfPage(rest3);
    FontOfPage(rest3);
  }
}
