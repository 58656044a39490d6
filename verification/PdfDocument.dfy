/**
 `typed_pdf`: the objects of a document, the method that writes them, and a reader that walks
 from the trailer over the page tree (ISO 32000-1, section 7.7.3) to each page's stream
 (section 7.3.8).
 */
module PdfDocument {
  import opened Wrappers
  import opened Decimal
  import opened Strings
  import opened PdfText
  import opened PdfLayout

  type Page = seq<Line>

  // ----- the objects

  const CATALOG := "<< /Type /Catalog /Pages 2 0 R >>"

  const FONT_OPEN := "<< /Type /Font /Subtype /Type1 /BaseFont /"

  const FONT_CLOSE := " /Encoding /WinAnsiEncoding >>"

  function FontBody(name: string): string {
    FONT_OPEN + name + FONT_CLOSE
  }

  const FONT := FontBody("Helvetica")

  const FONT_BOLD := FontBody("Helvetica-Bold")

  const PAGE_OPEN := "<< /Type /Page /Parent "

  const PAGE_BOX := " /MediaBox ["

  const MEDIA_BOX := "0 0 612 792"

  const PAGE_FONTS := "] /Resources << /Font << /F1 "

  const PAGE_CONTENTS := " >> >> /Contents "

  const TREE_OPEN := "<< /Type /Pages /Kids ["

  function PageNumber(i: nat): nat {
    5 + 2 * i
  }

  function ContentNumber(i: nat): nat {
    6 + 2 * i
  }

  function KidRefs(i: nat, n: nat): seq<string>
    decreases n - i
  {
    if i >= n then [] else [Ref(PageNumber(i))] + KidRefs(i + 1, n)
  }

  function TreeBody(n: nat): string {
    TREE_OPEN + Join(" ", KidRefs(0, n)) + "] /Count " + Numeral(n) + " >>"
  }

  function StreamBody(data: string): string {
    "<< /Length " + Numeral(|data|) + " >>\nstream\n" + data + "\nendstream"
  }

  function PageBody(i: nat): string {
    PAGE_OPEN + Ref(2) + PAGE_BOX + MEDIA_BOX + PAGE_FONTS + Ref(3) + " /F2 " + Ref(4)
    + PAGE_CONTENTS + Ref(ContentNumber(i)) + " >>"
  }

  function Body(pages: seq<Page>, k: nat): string
    requires 1 <= k <= 4 + 2 * |pages|
  {
    if k == 1 then CATALOG
    else if k == 2 then TreeBody(|pages|)
    else if k == 3 then FONT
    else if k == 4 then FONT_BOLD
    else if k % 2 == 1 then PageBody((k - 5) / 2)
    else StreamBody(PageStream(pages[(k - 6) / 2]))
  }

  function Bodies(pages: seq<Page>): seq<string> {
    seq(4 + 2 * |pages|, j requires 0 <= j < 4 + 2 * |pages| => Body(pages, j + 1))
  }

  lemma BodiesAt(pages: seq<Page>)
    ensures |Bodies(pages)| == 4 + 2 * |pages|
    ensures forall j :: 0 <= j < 4 + 2 * |pages| ==> Bodies(pages)[j] == Body(pages, j + 1)
  {
    hide Body;
  }

  lemma FixedBodies(pages: seq<Page>)
    ensures Body(pages, 1) == CATALOG && Body(pages, 2) == TreeBody(|pages|)
    ensures Body(pages, 3) == FONT && Body(pages, 4) == FONT_BOLD
  {
    hide CATALOG, TreeBody, FONT, FONT_BOLD;
  }

  lemma PageBodies(pages: seq<Page>, i: nat)
    requires i < |pages|
    ensures Body(pages, PageNumber(i)) == PageBody(i)
    ensures Body(pages, ContentNumber(i)) == StreamBody(PageStream(pages[i]))
  {
    hide CATALOG, TreeBody, FONT, FONT_BOLD, PageBody, StreamBody, PageStream;
  }

  // ----- reader

  datatype Box = Box(left: nat, bottom: nat, right: nat, top: nat)

  /** A page as a reader finds it: its parent, its size, its two base fonts and what its stream draws. */
  datatype PageView = PageView(parent: nat, box: Box, f1: string, f2: string, drawn: seq<Drawn>)

  /** The words a reader looks for, as sections 7.7.3 and 9.6.2 have them. */
  const TREE_WORDS := "<< /Type /Pages /Kids ["

  const PAGE_WORDS := "<< /Type /Page /Parent "

  const BOX_WORDS := " /MediaBox ["

  const FONTS_WORDS := "] /Resources << /Font << /F1 "

  const CONTENTS_WORDS := " >> >> /Contents "

  const FONT_WORDS := "<< /Type /Font /Subtype /Type1 /BaseFont /"

  const ENCODING_WORDS := " /Encoding /WinAnsiEncoding >>"

  function ReadCatalog(s: string): Parsed<nat> {
    var (_, s) :- Expect(s, "<< /Type /Catalog /Pages ");
    ReadRef(s)
  }

  /** References separated by one space, up to the closing bracket. */
  function ReadKids(s: string): Parsed<seq<nat>>
    decreases |s|
  {
    if s != [] && s[0] == ']' then Ok([], s[1..])
    else
      var (k, s) :- ReadRef(s);
      var more := ReadKids(if s != [] && s[0] == ' ' then s[1..] else s);
      match more
      case Fail => Fail
      case Ok(ks, s) => Ok([k] + ks, s)
  }

  function ReadTree(s: string): Parsed<(seq<nat>, nat)> {
    var (_, s) :- Expect(s, TREE_WORDS);
    var (kids, s) :- ReadKids(s);
    var (_, s) :- Expect(s, " /Count ");
    var (count, s) :- ReadNat(s);
    Ok((kids, count), s)
  }

  /** A stream object: /Length bytes between the keywords. */
  function ReadStreamObject(s: string): Parsed<string> {
    var (_, s) :- Expect(s, "<< /Length ");
    var (length, s) :- ReadNat(s);
    var (_, s) :- Expect(s, " >>\nstream\n");
    if length > |s| then Fail
    else
      var data := s[..length];
      var (_, s) :- Expect(s[length..], "\nendstream");
      Ok(data, s)
  }

  /** Four numbers with one space between neighbours. */
  function ReadBox(s: string): Parsed<Box> {
    var (left, s) :- ReadNat(s);
    var (_, s) :- Expect(s, " ");
    var (bottom, s) :- ReadNat(s);
    var (_, s) :- Expect(s, " ");
    var (right, s) :- ReadNat(s);
    var (_, s) :- Expect(s, " ");
    var (top, s) :- ReadNat(s);
    Ok(Box(left, bottom, right, top), s)
  }

  /** A page dictionary: the objects of its parent, its two fonts and its stream, and its size. */
  datatype PageObject = PageObject(parent: nat, box: Box, f1: nat, f2: nat, contents: nat)

  function ReadPageObject(s: string): Parsed<PageObject> {
    var (_, s) :- Expect(s, PAGE_WORDS);
    var (parent, s) :- ReadRef(s);
    var (_, s) :- Expect(s, BOX_WORDS);
    var (box, s) :- ReadBox(s);
    var (_, s) :- Expect(s, FONTS_WORDS);
    var (f1, s) :- ReadRef(s);
    var (_, s) :- Expect(s, " /F2 ");
    var (f2, s) :- ReadRef(s);
    var (_, s) :- Expect(s, CONTENTS_WORDS);
    var (contents, s) :- ReadRef(s);
    Ok(PageObject(parent, box, f1, f2, contents), s)
  }

  /** How many characters stand before the first space. */
  function NameLength(s: string): (k: nat)
    ensures k <= |s|
  {
    if s == [] || s[0] == ' ' then 0 else 1 + NameLength(s[1..])
  }

  /** The base font of a font dictionary. */
  function ReadFont(s: string): Parsed<string> {
    var (_, s) :- Expect(s, FONT_WORDS);
    var name := s[..NameLength(s)];
    var (_, s) :- Expect(s[NameLength(s)..], ENCODING_WORDS);
    Ok(name, s)
  }

  function FontAt(file: string, table: Table, k: nat): Option<string> {
    var s :- Locate(file, table, k);
    ReadFont(s).Value()
  }

  function ReadPage(file: string, table: Table, k: nat): Option<PageView> {
    var s :- Locate(file, table, k);
    var page :- ReadPageObject(s).Value();
    var f1 :- FontAt(file, table, page.f1);
    var f2 :- FontAt(file, table, page.f2);
    var s :- Locate(file, table, page.contents);
    var data :- ReadStreamObject(s).Value();
    var drawn :- ReadStream(data);
    Some(PageView(page.parent, page.box, f1, f2, drawn))
  }

  function ReadPages(file: string, table: Table, kids: seq<nat>): Option<seq<PageView>> {
    if kids == [] then Some([])
    else
      var first :- ReadPage(file, table, kids[0]);
      var more :- ReadPages(file, table, kids[1..]);
      Some([first] + more)
  }

  /** From `startxref` over the root and the page tree to every page. */
  function ReadDocument(file: string): Option<seq<PageView>> {
    var table :- ReadTable(file);
    var s :- Locate(file, table, table.root);
    var treeNumber :- ReadCatalog(s).Value();
    var s :- Locate(file, table, treeNumber);
    var (kids, count) :- ReadTree(s).Value();
    if count != |kids| then None else ReadPages(file, table, kids)
  }

  // ----- the reader undoes the writer

  function PageViewOf(page: Page): PageView {
    PageView(2, Box(0, 0, 612, 792), "Helvetica", "Helvetica-Bold", RenderedFrom(page, START_Y))
  }

  function PageViews(pages: seq<Page>, i: nat): (r: seq<PageView>)
    requires i <= |pages|
    ensures |r| == |pages| - i && forall j :: 0 <= j < |r| ==> r[j] == PageViewOf(pages[i + j])
    decreases |pages| - i
  {
    if i == |pages| then [] else [PageViewOf(pages[i])] + PageViews(pages, i + 1)
  }

  function PageNumbers(i: nat, n: nat): (r: seq<nat>)
    requires i <= n
    ensures |r| == n - i && forall j :: 0 <= j < |r| ==> r[j] == PageNumber(i + j)
    decreases n - i
  {
    if i == n then [] else [PageNumber(i)] + PageNumbers(i + 1, n)
  }

  lemma ReadCatalogOwn(rest: string)
    ensures ReadCatalog(CATALOG + rest).Value() == Some(2)
  {
    var s := " >>" + rest;
    assert Numeral(2) == "2";
    assert CATALOG + rest == "<< /Type /Catalog /Pages " + (Ref(2) + s);
    ReadRefOwn(2, s);
  }

  lemma {:induction false} ReadKidsOwn(i: nat, n: nat, rest: string)
    requires i <= n
    ensures ReadKids(Join(" ", KidRefs(i, n)) + ("]" + rest)) == Ok(PageNumbers(i, n), rest)
    decreases n - i
  {
    hide Ref, ReadRef;
    var tail := "]" + rest;
    if i == n {
      assert [] + tail == tail;
    } else {
      ReadKidsOwn(i + 1, n, rest);
      var first, more := Ref(PageNumber(i)), KidRefs(i + 1, n);
      if i + 1 == n {
        assert KidRefs(i, n) == [first];
        ReadRefOwn(PageNumber(i), tail);
        ReferenceIsNotBracket(PageNumber(i), tail);
        assert [] + tail == tail;
      } else {
        var s1 := Join(" ", more) + tail;
        JoinCons(" ", first, more);
        assert Join(" ", KidRefs(i, n)) + tail == first + (" " + s1);
        ReadRefOwn(PageNumber(i), " " + s1);
        ReferenceIsNotBracket(PageNumber(i), " " + s1);
        assert (" " + s1)[1..] == s1;
      }
    }
  }

  lemma ReferenceIsNotBracket(k: nat, rest: string)
    ensures (Ref(k) + rest)[0] != ']'
  {
    NumeralRoundTrip(k);
    assert (Ref(k) + rest)[0] == Numeral(k)[0];
  }

  lemma TreeWords()
    ensures TREE_OPEN == TREE_WORDS
  {
  }

  lemma ReadTreeOwn(n: nat, rest: string)
    ensures ReadTree(TreeBody(n) + rest).Value() == Some((PageNumbers(0, n), n))
  {
    TreeWords();
    hide Numeral, ReadNat, ReadKids, Join, TREE_OPEN, TREE_WORDS;
    var s4 := " >>" + rest;
    var s3 := Numeral(n) + s4;
    var s2 := " /Count " + s3;
    var kids := Join(" ", KidRefs(0, n));
    var s1 := kids + ("]" + s2);
    assert TreeBody(n) + rest == TREE_OPEN + s1;
    ExpectOwn(TREE_OPEN, s1);
    ReadKidsOwn(0, n, s2);
    ReadNatOwn(n, s4);
  }

  lemma ReadStreamObjectOwn(data: string, rest: string)
    ensures ReadStreamObject(StreamBody(data) + rest).Value() == Some(data)
  {
    hide Numeral, ReadNat;
    var s3 := "\nendstream" + rest;
    var s2 := " >>\nstream\n" + (data + s3);
    var s1 := Numeral(|data|) + s2;
    assert StreamBody(data) + rest == "<< /Length " + s1;
    ReadNatOwn(|data|, s2);
    assert (data + s3)[..|data|] == data && (data + s3)[|data|..] == s3;
  }

  lemma PageWords()
    ensures PAGE_OPEN == PAGE_WORDS && PAGE_BOX == BOX_WORDS && PAGE_FONTS == FONTS_WORDS
    ensures PAGE_CONTENTS == CONTENTS_WORDS
    ensures PAGE_FONTS != [] && PAGE_FONTS[0] == ']'
  {
  }

  lemma BoxNumerals()
    ensures MEDIA_BOX == Numeral(0) + " " + Numeral(0) + " " + Numeral(612) + " " + Numeral(792)
  {
    assert Numeral(612) == Numeral(61) + [DigitChar(2)] && Numeral(61) == Numeral(6) + [DigitChar(1)];
    assert Numeral(792) == Numeral(79) + [DigitChar(2)] && Numeral(79) == Numeral(7) + [DigitChar(9)];
  }

  lemma ReadBoxOwn(rest: string)
    requires !StartsWithDigit(rest)
    ensures ReadBox(MEDIA_BOX + rest) == Ok(Box(0, 0, 612, 792), rest)
  {
    hide Numeral, ReadNat, MEDIA_BOX;
    BoxNumerals();
    var s3 := Numeral(792) + rest;
    var s2 := Numeral(612) + (" " + s3);
    var s1 := Numeral(0) + (" " + s2);
    assert MEDIA_BOX + rest == Numeral(0) + (" " + s1);
    ReadNatOwn(0, " " + s1);
    ReadNatOwn(0, " " + s2);
    ReadNatOwn(612, " " + s3);
    ReadNatOwn(792, rest);
    ExpectOwn(" ", s1);
    ExpectOwn(" ", s2);
    ExpectOwn(" ", s3);
  }

  lemma ReadPageObjectOwn(i: nat, rest: string)
    ensures ReadPageObject(PageBody(i) + rest).Value() ==
            Some(PageObject(2, Box(0, 0, 612, 792), 3, 4, ContentNumber(i)))
  {
    PageWords();
    hide Ref, ReadRef, ReadBox, PAGE_OPEN, PAGE_BOX, MEDIA_BOX, PAGE_FONTS, PAGE_CONTENTS,
         PAGE_WORDS, BOX_WORDS, FONTS_WORDS, CONTENTS_WORDS;
    var s8 := " >>" + rest;
    var s7 := Ref(ContentNumber(i)) + s8;
    var s6 := PAGE_CONTENTS + s7;
    var s5 := Ref(4) + s6;
    var s4 := " /F2 " + s5;
    var s3 := Ref(3) + s4;
    var s2 := PAGE_FONTS + s3;
    var s1 := PAGE_BOX + (MEDIA_BOX + s2);
    var s0 := Ref(2) + s1;
    assert PageBody(i) + rest == PAGE_OPEN + s0;
    ExpectOwn(PAGE_OPEN, s0);
    ReadRefOwn(2, s1);
    ExpectOwn(PAGE_BOX, MEDIA_BOX + s2);
    ReadBoxOwn(s2);
    ExpectOwn(PAGE_FONTS, s3);
    ReadRefOwn(3, s4);
    ReadRefOwn(4, s6);
    ExpectOwn(PAGE_CONTENTS, s7);
    ReadRefOwn(ContentNumber(i), s8);
  }

  lemma {:induction false} NameLengthOf(name: string, rest: string)
    requires ' ' !in name && rest != [] && rest[0] == ' '
    ensures NameLength(name + rest) == |name|
  {
    if name == [] {
      assert name + rest == rest;
    } else {
      assert (name + rest)[1..] == name[1..] + rest;
      NameLengthOf(name[1..], rest);
    }
  }

  lemma ReadFontOwn(name: string, rest: string)
    requires ' ' !in name
    ensures ReadFont(FONT_WORDS + (name + (ENCODING_WORDS + rest))) == Ok(name, rest)
  {
    var s := ENCODING_WORDS + rest;
    assert s[0] == ' ';
    hide FONT_WORDS, ENCODING_WORDS;
    ExpectOwn(FONT_WORDS, name + s);
    NameLengthOf(name, s);
    assert (name + s)[..|name|] == name && (name + s)[|name|..] == s;
    ExpectOwn(ENCODING_WORDS, rest);
  }

  lemma FontWords()
    ensures FONT_OPEN == FONT_WORDS && FONT_CLOSE == ENCODING_WORDS
    ensures ' ' !in "Helvetica" && ' ' !in "Helvetica-Bold"
  {
  }

  lemma FontShape(name: string, rest: string)
    ensures FontBody(name) + rest == FONT_WORDS + (name + (ENCODING_WORDS + rest))
  {
    FontWords();
    hide FONT_OPEN, FONT_CLOSE, FONT_WORDS, ENCODING_WORDS;
    Assoc(FONT_OPEN + name, FONT_CLOSE, rest);
    Assoc(FONT_OPEN, name, FONT_CLOSE + rest);
  }

  lemma FontsFound(pages: seq<Page>)
    ensures FontAt(FileOf(Bodies(pages)), TableOf(Bodies(pages)), 3) == Some("Helvetica")
    ensures FontAt(FileOf(Bodies(pages)), TableOf(Bodies(pages)), 4) == Some("Helvetica-Bold")
  {
    hide Locate, FileOf, ReadFont, ExpectedEntries, TreeBody, CATALOG, Bodies, Body, END_OBJECT,
         FONT_WORDS, ENCODING_WORDS, FontBody;
    FontWords();
    BodiesAt(pages);
    FixedBodies(pages);
    var after := LocateOwn(Bodies(pages), 3);
    FontShape("Helvetica", END_OBJECT + after);
    ReadFontOwn("Helvetica", END_OBJECT + after);
    after := LocateOwn(Bodies(pages), 4);
    FontShape("Helvetica-Bold", END_OBJECT + after);
    ReadFontOwn("Helvetica-Bold", END_OBJECT + after);
  }

  function TableOf(bodies: seq<string>): Table {
    Table(ExpectedEntries(bodies), |bodies| + 1, 1)
  }

  lemma ReadPageOwn(pages: seq<Page>, i: nat)
    requires i < |pages|
    ensures ReadPage(FileOf(Bodies(pages)), TableOf(Bodies(pages)), PageNumber(i)) == Some(PageViewOf(pages[i]))
  {
    hide Locate, FileOf, ExpectedEntries, PageBody, StreamBody, PageStream, ReadPageObject, ReadStreamObject,
         ReadStream, FontAt;
    FontsFound(pages);
    var bodies := Bodies(pages);
    var after := LocateOwn(bodies, PageNumber(i));
    assert bodies[PageNumber(i) - 1] == PageBody(i);
    ReadPageObjectOwn(i, END_OBJECT + after);
    after := LocateOwn(bodies, ContentNumber(i));
    assert bodies[ContentNumber(i) - 1] == StreamBody(PageStream(pages[i]));
    ReadStreamObjectOwn(PageStream(pages[i]), END_OBJECT + after);
    PageStreamRoundTrip(pages[i]);
  }

  lemma {:induction false} ReadPagesOwn(pages: seq<Page>, i: nat)
    requires i <= |pages|
    ensures ReadPages(FileOf(Bodies(pages)), TableOf(Bodies(pages)), PageNumbers(i, |pages|)) ==
            Some(PageViews(pages, i))
    decreases |pages| - i
  {
    hide ReadPage, FileOf, Bodies, TableOf;
    if i < |pages| {
      ReadPageOwn(pages, i);
      ReadPagesOwn(pages, i + 1);
    }
  }

  /**
   Whatever the pages: if the last object starts below 10^10, a reader that enters at the end of
   the file recovers every page in order, with every line at its font, size, position and text;
   if it does not, no document can be read.
   */
  lemma DocumentRoundTrip(pages: seq<Page>)
    ensures ReadDocument(FileOf(Bodies(pages))) ==
            if Offset(Bodies(pages), 4 + 2 * |pages|) < Pow10(10) then Some(PageViews(pages, 0)) else None
  {
    hide Locate, FileOf, ReadTable, ReadCatalog, ReadTree, ReadPages, Offset, Bodies, TableOf, PageNumbers;
    TableFound(pages);
    CatalogFound(pages);
    TreeFound(pages);
    ReadPagesOwn(pages, 0);
  }

  lemma TableFound(pages: seq<Page>)
    ensures TableOf(Bodies(pages)).root == 1
    ensures ReadTable(FileOf(Bodies(pages))) ==
            if Offset(Bodies(pages), 4 + 2 * |pages|) < Pow10(10) then Some(TableOf(Bodies(pages))) else None
  {
    hide FileOf, ReadTable, Offset, ExpectedEntries, Body;
    ReadTableOwn(Bodies(pages));
  }

  lemma CatalogFound(pages: seq<Page>)
    ensures
      var r := Locate(FileOf(Bodies(pages)), TableOf(Bodies(pages)), 1);
      r.Some? && ReadCatalog(r.value).Value() == Some(2)
  {
    hide Locate, FileOf, ReadCatalog, ExpectedEntries, TreeBody, CATALOG, FONT, FONT_BOLD, Bodies, Body, END_OBJECT;
    BodiesAt(pages);
    FixedBodies(pages);
    var after := LocateOwn(Bodies(pages), 1);
    ReadCatalogOwn(END_OBJECT + after);
  }

  lemma TreeFound(pages: seq<Page>)
    ensures
      var r := Locate(FileOf(Bodies(pages)), TableOf(Bodies(pages)), 2);
      r.Some? && ReadTree(r.value).Value() == Some((PageNumbers(0, |pages|), |pages|))
  {
    hide Locate, FileOf, ReadTree, ExpectedEntries, TreeBody, CATALOG, FONT, FONT_BOLD, PageNumbers, Bodies, Body,
         END_OBJECT, Numeral;
    TreeIsSecond(pages);
    var after := LocateOwn(Bodies(pages), 2);
    ReadTreeOwn(|pages|, END_OBJECT + after);
  }

  lemma TreeIsSecond(pages: seq<Page>)
    ensures |Bodies(pages)| >= 2 && Bodies(pages)[1] == TreeBody(|pages|)
  {
    hide Bodies, Body, TreeBody;
    BodiesAt(pages);
    FixedBodies(pages);
  }

  /** The raw text of a page, line by line, as a reader extracts it. */
  function Texts(drawn: seq<Drawn>): seq<string> {
    if drawn == [] then [] else [drawn[0].text] + Texts(drawn[1..])
  }

  function RawTexts(page: Page): seq<string> {
    if page == [] then [] else [page[0].raw] + RawTexts(page[1..])
  }

  /** A page's text is extracted byte for byte exactly when no line holds a carriage return. */
  lemma {:induction false} TextsExactIffNoCr(page: Page, y: int)
    ensures Texts(RenderedFrom(page, y)) == RawTexts(page) <==> forall i :: 0 <= i < |page| ==> '\r' !in page[i].raw
    decreases |page|
  {
    if page != [] {
      var y' := y - LineStep(page[0].bold);
      TextsExactIffNoCr(page[1..], y');
      NormalizeIsIdentityIffNoCr(page[0].raw);
      var drawn := RenderedFrom(page, y);
      assert drawn[1..] == RenderedFrom(page[1..], y');
      assert Texts(drawn)[1..] == Texts(drawn[1..]) && RawTexts(page)[1..] == RawTexts(page[1..]);
      assert forall i :: 1 <= i < |page| ==> page[i] == page[1..][i - 1];
    }
  }

  /** Line i of a page is drawn once, below the lines before it. */
  lemma {:induction false} RenderedAt(page: Page, y: int, i: nat)
    requires i < |page|
    ensures |RenderedFrom(page, y)| == |page|
    ensures RenderedFrom(page, y)[i] == Rendered(page[i], YAfter(page[..i], y))
    decreases |page|
  {
    var y' := y - LineStep(page[0].bold);
    if i > 0 {
      RenderedAt(page[1..], y', i - 1);
      assert page[..i][1..] == page[1..][..i - 1];
    } else if |page| > 1 {
      RenderedAt(page[1..], y', 0);
    }
  }

  // ----- what a reader sees of the text handed to the writer

  /** One drawn item against the line it comes from. */
  ghost predicate ShowsLine(d: Drawn, line: TextLine, encoding: Encoding) {
    && d.font == (if line.bold then 2 else 1)
    && d.size == (if line.bold then 11 else 10)
    && d.x == 50
    && ((forall j :: 0 <= j < |line.text| ==> encoding(line.text[j]) != '\r') ==>
          |d.text| == |line.text| && forall j :: 0 <= j < |d.text| ==> d.text[j] == encoding(line.text[j]))
  }

  /** A page seen by a reader: each line once, in order, from the top, 16 points below a bold line, else 14. */
  ghost predicate ShowsPage(view: PageView, page: seq<TextLine>, encoding: Encoding) {
    && view.box == Box(0, 0, 612, 792)
    && view.f1 == "Helvetica" && view.f2 == "Helvetica-Bold"
    && |view.drawn| == |page|
    && (page != [] ==> view.drawn[0].y == 760)
    && (forall i :: 0 <= i < |page| ==> ShowsLine(view.drawn[i], page[i], encoding))
    && (forall i :: 0 <= i < |page| - 1 ==>
          view.drawn[i].y - view.drawn[i + 1].y == if page[i].bold then 16 else 14)
  }

  /** Every page in order. */
  ghost predicate Shows(views: seq<PageView>, pages: seq<seq<TextLine>>, encoding: Encoding) {
    |views| == |pages| && forall p :: 0 <= p < |pages| ==> ShowsPage(views[p], pages[p], encoding)
  }

  lemma RenderedShowsLine(line: TextLine, encoding: Encoding, y: int)
    ensures ShowsLine(Rendered(EncodeLine(line, encoding), y), line, encoding)
  {
    var raw := Encode(line.text, encoding);
    if forall j :: 0 <= j < |line.text| ==> encoding(line.text[j]) != '\r' {
      assert forall j :: 0 <= j < |raw| ==> raw[j] == encoding(line.text[j]);
      assert '\r' !in raw;
      NormalizeIsIdentityIffNoCr(raw);
    }
  }

  lemma YAfterSnoc(page: Page, i: nat, y: int)
    requires i < |page|
    ensures YAfter(page[..i + 1], y) == YAfter(page[..i], y) - LineStep(page[i].bold)
    decreases i
  {
    if i > 0 {
      YAfterSnoc(page[1..], i - 1, y - LineStep(page[0].bold));
      assert page[..i + 1][1..] == page[1..][..i] && page[..i][1..] == page[1..][..i - 1];
    }
  }

  lemma RenderedShowsPage(page: seq<TextLine>, encoding: Encoding)
    ensures ShowsPage(PageViewOf(EncodePage(page, encoding)), page, encoding)
  {
    hide Rendered, ShowsLine, Encode, RenderedFrom, YAfter;
    var encoded := EncodePage(page, encoding);
    var drawn := RenderedFrom(encoded, START_Y);
    if page == [] {
      assert encoded == [];
      RenderedNothing();
    } else {
      RenderedAt(encoded, START_Y, 0);
    }
    forall i | 0 <= i < |page|
      ensures drawn[i] == Rendered(encoded[i], YAfter(encoded[..i], START_Y))
      ensures ShowsLine(drawn[i], page[i], encoding)
    {
      RenderedAt(encoded, START_Y, i);
      RenderedShowsLine(page[i], encoding, YAfter(encoded[..i], START_Y));
    }
    forall i | 0 <= i < |page| ensures drawn[i].y == YAfter(encoded[..i], START_Y) {
      RenderedHeight(encoded[i], YAfter(encoded[..i], START_Y));
    }
    forall i | 0 <= i < |page| - 1
      ensures drawn[i].y - drawn[i + 1].y == if page[i].bold then 16 else 14
    {
      YAfterSnoc(encoded, i, START_Y);
    }
    if page != [] { HeightAtTop(encoded); }
  }

  lemma RenderedNothing()
    ensures RenderedFrom([], START_Y) == []
  {
  }

  lemma HeightAtTop(page: Page)
    ensures YAfter(page[..0], START_Y) == 760
  {
  }

  lemma RenderedHeight(line: Line, y: int)
    ensures Rendered(line, y).y == y
  {
  }

  /**
   Whatever the text and the one-byte encoding: a file below 10^10 bytes can be read, and whenever
   it can, every line of every page is shown character by character at its place, size and font.
   */
  lemma DocumentShows(pages: seq<seq<TextLine>>, encoding: Encoding)
    ensures
      var file := FileOf(Bodies(EncodePages(pages, encoding)));
      && (|file| < Pow10(10) ==> ReadDocument(file).Some?)
      && (ReadDocument(file).Some? ==> Shows(ReadDocument(file).value, pages, encoding))
  {
    hide ReadDocument, Objects, Offset, Bodies, EncodePage, PageViewOf, ShowsPage, Pow10;
    var encoded := EncodePages(pages, encoding);
    var bodies := Bodies(encoded);
    DocumentRoundTrip(encoded);
    BodiesAt(encoded);
    ObjectAtOffset(bodies, |bodies|, []);
    assert Objects(bodies) <= FileOf(bodies);
    forall p | 0 <= p < |pages| ensures ShowsPage(PageViews(encoded, 0)[p], pages[p], encoding) {
      RenderedShowsPage(pages[p], encoding);
    }
  }

  // ----- the method

  function KeysUpTo(m: nat): (r: set<nat>)
    ensures forall k :: k in r <==> 1 <= k <= m
  {
    if m == 0 then {} else KeysUpTo(m - 1) + {m}
  }

  /** The largest object number. */
  function LargestOf(keys: set<nat>): (m: nat)
    requires keys != {}
    ensures IsLargest(keys, m)
  {
    Largest(keys);
    LargestIsUnique(keys);
    var m :| IsLargest(keys, m);
    m
  }

  lemma LargestIsUnique(keys: set<nat>)
    ensures forall m, n :: IsLargest(keys, m) && IsLargest(keys, n) ==> m == n
  {
  }

  /** The object numbers of a dictionary, ascending. */
  function Sorted(keys: set<nat>): seq<nat> {
    if keys == {} then [] else Sorted(keys - {LargestOf(keys)}) + [LargestOf(keys)]
  }

  predicate IsLargest(keys: set<nat>, m: nat) {
    m in keys && forall k :: k in keys ==> k <= m
  }

  lemma {:induction false} Largest(keys: set<nat>)
    requires keys != {}
    ensures exists m :: IsLargest(keys, m)
  {
    var x :| x in keys;
    var rest := keys - {x};
    assert forall k :: k in keys ==> k == x || k in rest;
    if rest == {} {
      assert IsLargest(keys, x);
    } else {
      Largest(rest);
      var m :| IsLargest(rest, m);
      assert IsLargest(keys, if m < x then x else m);
    }
  }

  lemma {:induction false} SortedKeysUpTo(m: nat)
    ensures Sorted(KeysUpTo(m)) == seq(m, j => j + 1)
  {
    if m > 0 {
      SortedKeysUpTo(m - 1);
      assert m in KeysUpTo(m);
      assert KeysUpTo(m) - {m} == KeysUpTo(m - 1);
    }
  }

  /** Writes the document; the objects are numbered 1 to 4 + 2n with no gap. */
  method TypedPdf(pages: seq<seq<TextLine>>, encoding: Encoding) returns (out: string)
    ensures out == FileOf(Bodies(EncodePages(pages, encoding)))
    ensures |out| < Pow10(10) ==> ReadDocument(out).Some?
    ensures ReadDocument(out).Some? ==> Shows(ReadDocument(out).value, pages, encoding)
  {
    hide Objects, Offset, Bodies, Body, EntriesFrom, XrefHead, Trailer, Sorted, Framed, XrefEntry, HEADER, FileOf,
         EncodePage, ReadDocument, Shows, Pow10;
    ghost var bodies := Bodies(EncodePages(pages, encoding));
    BodiesAt(EncodePages(pages, encoding));
    var objs := FillObjects(pages, encoding);
    SortedKeysUpTo(4 + 2 * |pages|);
    var order := Sorted(objs.Keys);
    out := HEADER;
    var offsets: map<nat, nat> := map[];
    assert bodies[..0] == [];
    ObjectsEmpty();
    for j := 0 to |order|
      invariant out == Objects(bodies[..j])
      invariant offsets.Keys == KeysUpTo(j)
      invariant forall k :: 1 <= k <= j ==> offsets[k] == Offset(bodies, k)
    {
      var k := order[j];
      ObjectsSnoc(bodies, j);
      offsets := offsets[k := |out|];
      out := out + Framed(k, objs[k]);
    }
    assert bodies[..|order|] == bodies;
    var xref := |out|;
    var nobj := LargestOf(objs.Keys) + 1;
    assert nobj == |bodies| + 1;
    out := out + XrefHead(nobj);
    ghost var upToTable := out;
    for k := 1 to nobj
      invariant out + EntriesFrom(bodies, k) == upToTable + EntriesFrom(bodies, 1)
    {
      EntriesStep(bodies, k);
      assert out + EntriesFrom(bodies, k) == out + XrefEntry(offsets[k]) + EntriesFrom(bodies, k + 1);
      out := out + XrefEntry(offsets[k]);
    }
    EntriesEnd(bodies);
    assert out + [] == out;
    out := out + Trailer(nobj, xref);
    FileOfIs(bodies);
    DocumentShows(pages, encoding);
  }

  lemma FileOfIs(bodies: seq<string>)
    ensures FileOf(bodies) == Objects(bodies) + XrefHead(|bodies| + 1) + EntriesFrom(bodies, 1)
                              + Trailer(|bodies| + 1, |Objects(bodies)|)
  {
  }

  lemma ObjectsEmpty()
    ensures Objects([]) == HEADER
  {
  }

  lemma ObjectsSnoc(bodies: seq<string>, j: nat)
    requires j < |bodies|
    ensures Objects(bodies[..j + 1]) == Objects(bodies[..j]) + Framed(j + 1, bodies[j])
    ensures Offset(bodies, j + 1) == |Objects(bodies[..j])|
  {
    assert bodies[..j + 1][..j] == bodies[..j];
  }

  /** The dictionary of objects: catalog, tree, two fonts, then a page and a stream per page. */
  method FillObjects(pages: seq<seq<TextLine>>, encoding: Encoding) returns (objs: map<nat, string>)
    ensures objs.Keys == KeysUpTo(4 + 2 * |pages|)
    ensures forall k :: 1 <= k <= 4 + 2 * |pages| ==> objs[k] == Body(EncodePages(pages, encoding), k)
  {
    hide TreeBody, CATALOG, FONT, FONT_BOLD, PageStream, StreamBody, PageBody, Body, EncodePage;
    ghost var encoded := EncodePages(pages, encoding);
    FixedBodies(encoded);
    objs := map[1 := CATALOG, 2 := TreeBody(|pages|), 3 := FONT, 4 := FONT_BOLD];
    for i := 0 to |pages|
      invariant objs.Keys == KeysUpTo(4 + 2 * i)
      invariant forall k :: 1 <= k <= 4 + 2 * i ==> objs[k] == Body(encoded, k)
    {
      var stream := WritePage(pages[i], encoding);
      objs := objs[ContentNumber(i) := StreamBody(stream)];
      objs := objs[PageNumber(i) := PageBody(i)];
      PageBodies(encoded, i);
    }
  }

  /** One page's operators, with the text cursor moving down line by line. */
  method WritePage(page: seq<TextLine>, encoding: Encoding) returns (stream: string)
    ensures stream == PageStream(EncodePage(page, encoding))
  {
    hide DrawOp, Join, Encode;
    var ops: seq<string> := [];
    var y := START_Y;
    ghost var lines := EncodePage(page, encoding);
    assert lines[0..] == lines;
    for i := 0 to |page|
      invariant ops + DrawOps(lines[i..], y) == DrawOps(lines, START_Y)
    {
      assert lines[i..][1..] == lines[i + 1..];
      var raw := Encode(page[i].text, encoding);
      ops := ops + [DrawOp(Line(raw, page[i].bold), y)];
      y := y - LineStep(page[i].bold);
    }
    assert lines[|lines|..] == [];
    assert ops + [] == ops;
    stream := Join("\n", ops);
  }
}
