/**
 `paginate_typed`: lines are wrapped, flattened and cut into pages of `per_page`.  Wrapping
 itself is a parameter: any function from a long text to its parts.
 */
module Pagination {
  import opened Wrappers
  import opened PdfText
  import Decimal
  import PdfDocument
  import PdfLayout

  type Wrap = string -> seq<string>

  const WRAP_WIDTH := 92

  const PER_PAGE := 46

  function Parts(parts: seq<string>): seq<TextLine> {
    if parts == [] then [] else [TextLine(parts[0], false)] + Parts(parts[1..])
  }

  /** Bold and short lines stay whole; the parts of a long one are never bold. */
  function Flattened(lines: seq<TextLine>, wrap: Wrap): seq<TextLine> {
    if lines == [] then []
    else Piece(lines[0], wrap) + Flattened(lines[1..], wrap)
  }

  /** One page: at most `perPage` lines, fewer at the end. */
  function Slice(flat: seq<TextLine>, start: nat, perPage: nat): seq<TextLine>
    requires start <= |flat|
  {
    if start + perPage < |flat| then flat[start..start + perPage] else flat[start..]
  }

  /** The slices of `flat` that start at `start`, `start + perPage`, ... */
  function ChunksFrom(flat: seq<TextLine>, start: nat, perPage: nat): seq<seq<TextLine>>
    requires perPage > 0
    decreases |flat| - start
  {
    if start >= |flat| then []
    else [Slice(flat, start, perPage)] + ChunksFrom(flat, start + perPage, perPage)
  }

  /** At least one page: an empty application still prints one empty page. */
  function Pages(flat: seq<TextLine>, perPage: nat): seq<seq<TextLine>>
    requires perPage > 0
  {
    if flat == [] then [[]] else ChunksFrom(flat, 0, perPage)
  }

  function Paginated(flat: seq<TextLine>, perPage: int): Option<seq<seq<TextLine>>> {
    if perPage == 0 then None else if perPage < 0 then Some([[]]) else Some(Pages(flat, perPage))
  }

  function Concat(pages: seq<seq<TextLine>>): seq<TextLine> {
    if pages == [] then [] else pages[0] + Concat(pages[1..])
  }

  /** What one line contributes. */
  function Piece(line: TextLine, wrap: Wrap): seq<TextLine> {
    if line.bold || |line.text| <= WRAP_WIDTH then [line] else Parts(wrap(line.text))
  }

  method AppendParts(before: seq<TextLine>, parts: seq<string>) returns (flat: seq<TextLine>)
    ensures flat == before + Parts(parts)
  {
    flat := before;
    assert parts[0..] == parts;
    for j := 0 to |parts|
      invariant flat + Parts(parts[j..]) == before + Parts(parts)
    {
      assert parts[j..][1..] == parts[j + 1..];
      flat := flat + [TextLine(parts[j], false)];
    }
    assert parts[|parts|..] == [];
  }

  lemma {:induction false} FlattenedSnoc(lines: seq<TextLine>, wrap: Wrap, i: nat)
    requires i < |lines|
    ensures Flattened(lines[..i + 1], wrap) == Flattened(lines[..i], wrap) + Piece(lines[i], wrap)
    decreases i
  {
    hide Piece;
    var head := Piece(lines[0], wrap);
    if i == 0 {
      assert lines[..1][1..] == [] && lines[..0] == [];
      assert Flattened(lines[..1], wrap) == head + [];
    } else {
      FlattenedSnoc(lines[1..], wrap, i - 1);
      assert lines[..i + 1][1..] == lines[1..][..i] && lines[..i][1..] == lines[1..][..i - 1];
    }
  }

  /** The loop over `lines`: what it appends to `flat`. */
  method Flatten(lines: seq<TextLine>, wrap: Wrap) returns (flat: seq<TextLine>)
    ensures flat == Flattened(lines, wrap)
  {
    flat := [];
    for i := 0 to |lines|
      invariant flat == Flattened(lines[..i], wrap)
    {
      FlattenedSnoc(lines, wrap, i);
      if lines[i].bold || |lines[i].text| <= WRAP_WIDTH {
        flat := flat + [lines[i]];
      } else {
        flat := AppendParts(flat, wrap(lines[i].text));
      }
    }
    assert lines[..|lines|] == lines;
  }

  lemma ChunksStep(flat: seq<TextLine>, start: nat, perPage: nat)
    requires perPage > 0
    ensures ChunksFrom(flat, start, perPage) ==
            if start >= |flat| then []
            else [Slice(flat, start, perPage)] + ChunksFrom(flat, start + perPage, perPage)
  {
  }

  lemma ChunksNonEmpty(flat: seq<TextLine>, perPage: nat)
    requires perPage > 0
    ensures ChunksFrom(flat, 0, perPage) == [] <==> flat == []
  {
  }

  /** `range` refuses a zero step, and a negative one yields no chunk at all. */
  method PaginateTyped(lines: seq<TextLine>, wrap: Wrap, perPage: int) returns (r: Option<seq<seq<TextLine>>>)
    ensures r == Paginated(Flattened(lines, wrap), perPage)
    ensures r.None? <==> perPage == 0
    ensures perPage < 0 ==> r == Some([[]])
    ensures perPage > 0 ==> Concat(r.value) == Flattened(lines, wrap)
    ensures perPage > 0 ==> forall p :: 0 <= p < |r.value| - 1 ==> |r.value[p]| == perPage
  {
    hide ChunksFrom, Flattened;
    var flat := Flatten(lines, wrap);
    if perPage == 0 { return None; }
    var pages: seq<seq<TextLine>> := [];
    var start := 0;
    while perPage > 0 && start < |flat|
      invariant 0 <= start
      invariant perPage <= 0 ==> pages == []
      invariant perPage > 0 ==> pages + ChunksFrom(flat, start, perPage) == ChunksFrom(flat, 0, perPage)
      decreases |flat| - start
    {
      ChunksStep(flat, start, perPage);
      pages := pages + [Slice(flat, start, perPage)];
      start := start + perPage;
    }
    if perPage > 0 {
      ChunksStep(flat, start, perPage);
      ChunksNonEmpty(flat, perPage);
      assert pages + [] == pages;
    }
    r := Some(if pages == [] then [[]] else pages);
    if perPage > 0 { PagesPartition(flat, perPage); }
  }

  lemma SliceThenRest(flat: seq<TextLine>, start: nat, perPage: nat)
    requires start <= |flat|
    ensures
      var page := Slice(flat, start, perPage);
      if start + perPage <= |flat| then |page| == perPage && page + flat[start + perPage..] == flat[start..]
      else |page| < perPage && page == flat[start..]
  {
  }

  lemma {:induction false} ChunksPartition(flat: seq<TextLine>, start: nat, perPage: nat)
    requires perPage > 0 && start <= |flat|
    ensures
      var pages := ChunksFrom(flat, start, perPage);
      && Concat(pages) == flat[start..]
      && (pages == [] <==> start == |flat|)
      && (forall i :: 0 <= i < |pages| ==> 0 < |pages[i]| <= perPage)
      && (forall i :: 0 <= i < |pages| - 1 ==> |pages[i]| == perPage)
    decreases |flat| - start
  {
    hide Slice;
    var pages := ChunksFrom(flat, start, perPage);
    SliceThenRest(flat, start, perPage);
    if start + perPage <= |flat| {
      ChunksPartition(flat, start + perPage, perPage);
      if start < |flat| { assert pages[1..] == ChunksFrom(flat, start + perPage, perPage); }
    } else if start < |flat| {
      assert ChunksFrom(flat, start + perPage, perPage) == [];
      assert pages == [flat[start..]] + [];
      assert Concat(pages) == flat[start..] + Concat([]);
    }
  }

  /** Nothing is lost, every page fits, only the last may be short, and there is a page. */
  lemma PagesPartition(flat: seq<TextLine>, perPage: nat)
    requires perPage > 0
    ensures
      var pages := Pages(flat, perPage);
      && Concat(pages) == flat
      && |pages| >= 1
      && (forall i :: 0 <= i < |pages| ==> |pages[i]| <= perPage)
      && (forall i :: 0 <= i < |pages| - 1 ==> |pages[i]| == perPage)
      && (flat != [] ==> |pages[|pages| - 1]| > 0)
  {
    if flat == [] {
      assert Concat([[]]) == [] + Concat([]);
    } else {
      ChunksPartition(flat, 0, perPage);
      assert flat[0..] == flat;
    }
  }

  /** Pagination returns every line exactly when the page size is positive or there is no line. */
  lemma NothingLostIff(flat: seq<TextLine>, perPage: int)
    ensures (Paginated(flat, perPage).Some? && Concat(Paginated(flat, perPage).value) == flat)
            <==> perPage > 0 || (perPage < 0 && flat == [])
  {
    if perPage > 0 {
      PagesPartition(flat, perPage);
    } else {
      assert Concat([[]]) == [] + Concat([]);
    }
  }

  /** Line by line: a bold or short line stays, a long one becomes its wrapped parts, none of them bold. */
  lemma FlattenedOne(line: TextLine, wrap: Wrap)
    ensures Flattened([line], wrap) ==
            if line.bold || |line.text| <= 92 then [line]
            else seq(|wrap(line.text)|, i requires 0 <= i < |wrap(line.text)| => TextLine(wrap(line.text)[i], false))
  {
    PartsAre(wrap(line.text));
    assert [line][1..] == [] && Flattened([], wrap) == [];
    assert Flattened([line], wrap) == Piece(line, wrap) + [] == Piece(line, wrap);
  }

  lemma {:induction false} PartsAre(parts: seq<string>)
    ensures Parts(parts) == seq(|parts|, i requires 0 <= i < |parts| => TextLine(parts[i], false))
  {
    if parts != [] { PartsAre(parts[1..]); }
  }

  lemma {:induction false} FlattenedConcat(a: seq<TextLine>, b: seq<TextLine>, wrap: Wrap)
    ensures Flattened(a + b, wrap) == Flattened(a, wrap) + Flattened(b, wrap)
  {
    hide Piece;
    if a == [] {
      assert a + b == b && Flattened([], wrap) == [];
    } else {
      FlattenedConcat(a[1..], b, wrap);
      assert (a + b)[1..] == a[1..] + b;
    }
  }

  /** Lines that are bold or at most 92 characters long are left as they are. */
  lemma {:induction false} ShortLinesStay(lines: seq<TextLine>, wrap: Wrap)
    requires forall i :: 0 <= i < |lines| ==> lines[i].bold || |lines[i].text| <= 92
    ensures Flattened(lines, wrap) == lines
  {
    if lines != [] {
      ShortLinesStay(lines[1..], wrap);
      assert Flattened(lines, wrap) == [lines[0]] + lines[1..];
    }
  }

  lemma {:induction false} ChunkAt(flat: seq<TextLine>, start: nat, p: nat, i: nat)
    requires i < 46 && start + 46 * p + i < |flat|
    ensures
      var pages := ChunksFrom(flat, start, 46);
      p < |pages| && i < |pages[p]| && pages[p][i] == flat[start + 46 * p + i]
    decreases p
  {
    hide Slice, ChunksFrom;
    ChunksStep(flat, start, 46);
    if p == 0 {
      SliceAt(flat, start, 46, i);
    } else {
      ChunkAt(flat, start + 46, p - 1, i);
      var page := [Slice(flat, start, 46)];
      assert (page + ChunksFrom(flat, start + 46, 46))[p] == ChunksFrom(flat, start + 46, 46)[p - 1];
    }
  }

  lemma SliceAt(flat: seq<TextLine>, start: nat, perPage: nat, i: nat)
    requires i < perPage && start + i < |flat|
    ensures i < |Slice(flat, start, perPage)| && Slice(flat, start, perPage)[i] == flat[start + i]
  {
  }

  /** Line k stands on page k / 46, at place k % 46. */
  lemma PlaceOfLine(flat: seq<TextLine>, k: nat)
    requires k < |flat|
    ensures
      var pages := Pages(flat, PER_PAGE);
      k / 46 < |pages| && k % 46 < |pages[k / 46]| && pages[k / 46][k % 46] == flat[k]
  {
    hide ChunksFrom;
    ChunkAt(flat, 0, k / 46, k % 46);
  }

  /** Line k of an application as a reader finds it. */
  ghost predicate FoundAt(views: seq<PdfDocument.PageView>, flat: seq<TextLine>, encoding: Encoding, k: nat)
    requires k < |flat|
  {
    k / 46 < |views| && k % 46 < |views[k / 46].drawn|
    && PdfDocument.ShowsLine(views[k / 46].drawn[k % 46], flat[k], encoding)
  }

  /** The whole production of an application: paginated with the default page size, then written. */
  method WriteApplication(lines: seq<TextLine>, wrap: Wrap, encoding: Encoding) returns (out: string)
    ensures out == PdfLayout.FileOf(PdfDocument.Bodies(EncodePages(Pages(Flattened(lines, wrap), PER_PAGE), encoding)))
    ensures |out| < Decimal.Pow10(10) ==> PdfDocument.ReadDocument(out).Some?
    ensures
      var read, flat := PdfDocument.ReadDocument(out), Flattened(lines, wrap);
      read.Some? ==>
        && PdfDocument.Shows(read.value, Pages(flat, PER_PAGE), encoding)
        && forall k :: 0 <= k < |flat| ==> FoundAt(read.value, flat, encoding, k)
  {
    hide PdfLayout.FileOf, PdfDocument.Bodies, EncodePages, Flattened, Decimal.Pow10, PdfDocument.ReadDocument,
         Pages, PdfDocument.ShowsLine;
    var pages := PaginateTyped(lines, wrap, PER_PAGE);
    out := PdfDocument.TypedPdf(pages.value, encoding);
    ghost var read := PdfDocument.ReadDocument(out);
    ghost var flat := Flattened(lines, wrap);
    if read.Some? {
      forall k | 0 <= k < |flat| ensures FoundAt(read.value, flat, encoding, k) {
        PlaceOfLine(flat, k);
        assert PdfDocument.ShowsPage(read.value[k / 46], pages.value[k / 46], encoding);
      }
    }
  }

  // ----- the bottom margin

  /** How far the text cursor falls over some lines. */
  function Drop(lines: seq<TextLine>): nat {
    if lines == [] then 0 else LineStep(lines[0].bold) + Drop(lines[1..])
  }

  lemma {:induction false} DropBounds(lines: seq<TextLine>)
    ensures 14 * |lines| <= Drop(lines) <= 16 * |lines|
    ensures (forall i :: 0 <= i < |lines| ==> lines[i].bold) ==> Drop(lines) == 16 * |lines|
  {
    if lines != [] { DropBounds(lines[1..]); }
  }

  lemma {:induction false} CursorIs(lines: seq<TextLine>, encoding: Encoding, y: int)
    ensures YAfter(EncodePage(lines, encoding), y) == y - Drop(lines)
    decreases |lines|
  {
    hide Encode;
    if lines != [] {
      assert EncodePage(lines, encoding)[1..] == EncodePage(lines[1..], encoding);
      CursorIs(lines[1..], encoding, y - LineStep(lines[0].bold));
    }
  }

  /** Where a reader finds line i of a page: the height left by the lines before it, whatever the encoding. */
  lemma DrawnAt(page: seq<TextLine>, encoding: Encoding, i: nat)
    requires i < |page|
    ensures |RenderedFrom(EncodePage(page, encoding), START_Y)| == |page|
    ensures RenderedFrom(EncodePage(page, encoding), START_Y)[i].y == START_Y - Drop(page[..i])
  {
    var encoded := EncodePage(page, encoding);
    PdfDocument.RenderedAt(encoded, START_Y, i);
    assert encoded[..i] == EncodePage(page[..i], encoding);
    CursorIs(page[..i], encoding, START_Y);
  }

  const MARGIN := 40

  ghost predicate PageAboveMargin(page: seq<TextLine>) {
    forall i :: 0 <= i < |page| ==> MARGIN <= START_Y - Drop(page[..i]) <= START_Y
  }

  /** Every line of every page lies between the margin and the top. */
  ghost predicate AboveMargin(flat: seq<TextLine>, perPage: nat)
    requires perPage > 0
  {
    forall p :: 0 <= p < |Pages(flat, perPage)| ==> PageAboveMargin(Pages(flat, perPage)[p])
  }

  /** A page size keeps every application above the margin exactly when it is at most 46. */
  lemma AboveMarginIff(perPage: nat)
    requires perPage > 0
    ensures (forall flat :: AboveMargin(flat, perPage)) <==> perPage <= 46
  {
    if perPage <= 46 {
      forall flat ensures AboveMargin(flat, perPage) { SmallPagesStayAbove(flat, perPage); }
    } else {
      var flat := seq(perPage, _ => TextLine([], true));
      PagesPartition(flat, perPage);
      BoldPageFalls(flat, perPage);
    }
  }

  lemma SmallPagesStayAbove(flat: seq<TextLine>, perPage: nat)
    requires 0 < perPage <= 46
    ensures AboveMargin(flat, perPage)
  {
    hide Pages;
    PagesPartition(flat, perPage);
    forall p, i | 0 <= p < |Pages(flat, perPage)| && 0 <= i < |Pages(flat, perPage)[p]|
      ensures MARGIN <= START_Y - Drop(Pages(flat, perPage)[p][..i]) <= START_Y
    {
      DropBounds(Pages(flat, perPage)[p][..i]);
    }
  }

  lemma BoldPageFalls(flat: seq<TextLine>, perPage: nat)
    requires perPage > 46 && |flat| == perPage && forall i :: 0 <= i < perPage ==> flat[i].bold
    ensures !AboveMargin(flat, perPage)
  {
    ChunksStep(flat, 0, perPage);
    assert Slice(flat, 0, perPage) == flat;
    assert Pages(flat, perPage)[0] == flat;
    DropBounds(flat[..46]);
    assert START_Y - Drop(flat[..46]) < MARGIN;
  }

  /** As printed, with the page size in use: every line a reader finds lies above the margin. */
  lemma DrawnAboveMargin(lines: seq<TextLine>, wrap: Wrap, encoding: Encoding, p: nat, i: nat)
    requires p < |Pages(Flattened(lines, wrap), PER_PAGE)|
    requires i < |Pages(Flattened(lines, wrap), PER_PAGE)[p]|
    ensures
      var page := EncodePage(Pages(Flattened(lines, wrap), PER_PAGE)[p], encoding);
      i < |RenderedFrom(page, START_Y)| && 40 <= RenderedFrom(page, START_Y)[i].y <= START_Y
  {
    hide RenderedFrom, Flattened, Pages, EncodePage;
    AboveMarginIff(PER_PAGE);
    var flat := Flattened(lines, wrap);
    assert AboveMargin(flat, PER_PAGE);
    DrawnAt(Pages(flat, PER_PAGE)[p], encoding, i);
  }

  /** The margin is reached: the last of 46 bold lines is drawn at exactly 40. */
  lemma BoldPageIsTight(page: seq<TextLine>, encoding: Encoding)
    requires |page| == 46 && forall i :: 0 <= i < 46 ==> page[i].bold
    ensures |RenderedFrom(EncodePage(page, encoding), START_Y)| == 46
    ensures RenderedFrom(EncodePage(page, encoding), START_Y)[45].y == 40
  {
    hide RenderedFrom, EncodePage;
    DrawnAt(page, encoding, 45);
    DropBounds(page[..45]);
  }

  // ----- the whole application: paginate, write, read back

  /** Every line's text as a reader meets it, page after page. */
  function AllTexts(views: seq<PdfDocument.PageView>): seq<string> {
    if views == [] then [] else PdfDocument.Texts(views[0].drawn) + AllTexts(views[1..])
  }

  lemma {:induction false} TextsConcat(a: seq<Line>, b: seq<Line>, y: int, y': int)
    ensures PdfDocument.Texts(RenderedFrom(a, y)) + PdfDocument.Texts(RenderedFrom(b, y'))
            == PdfDocument.Texts(RenderedFrom(a + b, START_Y))
    decreases |a|
  {
    hide NormalizeEol;
    if a == [] {
      TextsIgnoreHeight(b, y', START_Y);
      assert a + b == b;
      assert [] + PdfDocument.Texts(RenderedFrom(b, y')) == PdfDocument.Texts(RenderedFrom(b, y'));
    } else {
      var below, below' := y - LineStep(a[0].bold), START_Y - LineStep(a[0].bold);
      TextsConcat(a[1..], b, below, y');
      TextsIgnoreHeight(a[1..] + b, below', START_Y);
      TextsStep(a, y);
      TextsStep(a + b, START_Y);
      assert (a + b)[1..] == a[1..] + b;
    }
  }

  lemma TextsStep(lines: seq<Line>, y: int)
    requires lines != []
    ensures PdfDocument.Texts(RenderedFrom(lines, y)) ==
            [NormalizeEol(lines[0].raw)] + PdfDocument.Texts(RenderedFrom(lines[1..], y - LineStep(lines[0].bold)))
  {
    hide NormalizeEol;
    assert RenderedFrom(lines, y)[1..] == RenderedFrom(lines[1..], y - LineStep(lines[0].bold));
  }

  lemma {:induction false} TextsIgnoreHeight(lines: seq<Line>, y: int, y': int)
    ensures PdfDocument.Texts(RenderedFrom(lines, y)) == PdfDocument.Texts(RenderedFrom(lines, y'))
    decreases |lines|
  {
    if lines != [] {
      TextsStep(lines, y);
      TextsStep(lines, y');
      TextsIgnoreHeight(lines[1..], y - LineStep(lines[0].bold), y' - LineStep(lines[0].bold));
    }
  }

  function ConcatLines(pages: seq<seq<Line>>): seq<Line> {
    if pages == [] then [] else pages[0] + ConcatLines(pages[1..])
  }

  lemma {:induction false} TextsOfPages(pages: seq<seq<Line>>, i: nat)
    requires i <= |pages|
    ensures AllTexts(PdfDocument.PageViews(pages, i)) ==
            PdfDocument.Texts(RenderedFrom(ConcatLines(pages[i..]), START_Y))
    decreases |pages| - i
  {
    if i < |pages| {
      hide PdfDocument.Texts, RenderedFrom;
      TextsOfPages(pages, i + 1);
      assert pages[i..][1..] == pages[i + 1..];
      TextsConcat(pages[i], ConcatLines(pages[i + 1..]), START_Y, START_Y);
      var views := PdfDocument.PageViews(pages, i);
      assert views[1..] == PdfDocument.PageViews(pages, i + 1);
    }
  }

  lemma {:induction false} EncodingConcat(pages: seq<seq<TextLine>>, encoding: Encoding)
    ensures ConcatLines(EncodePages(pages, encoding)) == EncodePage(Concat(pages), encoding)
  {
    hide Encode;
    if pages != [] {
      assert EncodePages(pages, encoding)[1..] == EncodePages(pages[1..], encoding);
      EncodingConcat(pages[1..], encoding);
    }
  }

  /**
   Paginating an application, writing it and reading the file back: there is a document exactly
   when the last object starts below 10^10, and it then yields the encoded lines, none lost, none
   twice, in order - byte for byte exactly when no encoded line holds a carriage return.
   */
  lemma ApplicationRoundTrip(lines: seq<TextLine>, wrap: Wrap, encoding: Encoding)
    ensures
      var flat := EncodePage(Flattened(lines, wrap), encoding);
      var pages := EncodePages(Pages(Flattened(lines, wrap), PER_PAGE), encoding);
      var read := PdfDocument.ReadDocument(PdfLayout.FileOf(PdfDocument.Bodies(pages)));
      && (read.Some? <==> PdfLayout.Offset(PdfDocument.Bodies(pages), 4 + 2 * |pages|) < Decimal.Pow10(10))
      && (read.Some? ==>
            && |AllTexts(read.value)| == |flat|
            && (AllTexts(read.value) == PdfDocument.RawTexts(flat) <==>
                forall i :: 0 <= i < |flat| ==> '\r' !in flat[i].raw))
  {
    hide PdfDocument.ReadDocument, PdfLayout.FileOf, PdfDocument.Bodies, PdfLayout.Offset, PdfDocument.PageViews,
         PdfDocument.Texts, PdfDocument.RawTexts, RenderedFrom, Flattened, Decimal.Pow10, AllTexts, EncodePage;
    var text := Flattened(lines, wrap);
    var flat, pages := EncodePage(text, encoding), EncodePages(Pages(text, PER_PAGE), encoding);
    PdfDocument.DocumentRoundTrip(pages);
    PagesPartition(text, PER_PAGE);
    EncodingConcat(Pages(text, PER_PAGE), encoding);
    TextsOfPages(pages, 0);
    assert pages[0..] == pages;
    PdfDocument.TextsExactIffNoCr(flat, START_Y);
    TextsLength(flat, START_Y);
  }

  lemma {:induction false} TextsLength(lines: seq<Line>, y: int)
    ensures |PdfDocument.Texts(RenderedFrom(lines, y))| == |lines|
    decreases |lines|
  {
    if lines != [] {
      TextsStep(lines, y);
      TextsLength(lines[1..], y - LineStep(lines[0].bold));
    }
  }
}
