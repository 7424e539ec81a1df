/**
  How plain text becomes a generated document: one DOCX paragraph per
  '\n'-separated line, or jsPDF pages filled top to bottom. The PDF loop
  starts at y = 10, steps 7 per line and adds a page when y has passed 280
  before drawing, which leaves room for exactly 39 lines per page.
  Wrapping long lines to the page width (jsPDF's `splitTextToSize`) belongs
  to the library and is a parameter here.
 */
module DocumentLayout {
  import opened Text
  import opened Media
  import opened ConversionConfig

  const LeftMargin: int := 10
  const TopMargin: int := 10
  const LineHeight: int := 7
  const PageBottom: int := 280

  /** The lines that fit on one page: the first k with TopMargin + LineHeight * k > PageBottom. */
  const LinesPerPage: nat := 39

  lemma LinesPerPageFromMargins(k: int)
    ensures TopMargin + LineHeight * k > PageBottom <==> k >= LinesPerPage
  {
  }

  /** max(1, ceil(n / 39)): a new jsPDF document already has its first page. */
  function PageCount(n: nat): (c: nat)
    ensures c >= 1
    ensures n == 0 ==> c == 1
    ensures n > 0 ==> (c - 1) * LinesPerPage < n <= c * LinesPerPage
  {
    if n == 0 then 1 else (n + LinesPerPage - 1) / LinesPerPage
  }

  /** How many of n lines land on page p. */
  function PageLength(n: nat, p: nat): (len: nat)
    requires LinesPerPage * p <= n
    ensures len <= LinesPerPage
    ensures LinesPerPage * p + len <= n
  {
    if n - LinesPerPage * p >= LinesPerPage then LinesPerPage else n - LinesPerPage * p
  }

  /** The reference layout: line j sits on page j / 39, slot j % 39, at y = 10 + 7 * (j % 39). */
  function Layout(lines: seq<string>): (pages: seq<Page>)
    ensures |pages| == PageCount(|lines|)
  {
    var n := |lines|;
    seq(PageCount(n), p requires 0 <= p < PageCount(n) =>
      seq(PageLength(n, p), k requires 0 <= k < PageLength(n, p) =>
        DrawnLine(LeftMargin, TopMargin + LineHeight * k, lines[LinesPerPage * p + k])))
  }

  /** The drawing loop of `txtToPdf` / `convertDocument`, statement for statement. */
  method Paginate(lines: seq<string>) returns (pages: seq<Page>)
    ensures pages == Layout(lines)
  {
    pages := [[]];
    var y := TopMargin;
    var i := 0;
    while i < |lines|
      invariant 0 <= i <= |lines|
      invariant PagesShaped(pages, i) && LinesDrawn(lines, pages)
      invariant y == TopMargin + LineHeight * |pages[|pages| - 1]|
    {
      var before, y0 := pages, y;
      if y > PageBottom {
        pages := pages + [[]];
        y := TopMargin;
      }
      pages := pages[|pages| - 1 := pages[|pages| - 1] + [DrawnLine(LeftMargin, y, lines[i])]];
      y := y + LineHeight;
      assert pages == DrawOne(before, y0, lines[i]);
      DrawStepShape(before, i, y0, lines[i]);
      DrawStepLines(lines, before, i, y0);
      i := i + 1;
    }
    DrawnAllIsLayout(lines, pages);
  }

  /** Page p of the pages drawn for the first i lines holds its share of them. */
  ghost predicate PagesShaped(pages: seq<Page>, i: nat) {
    |pages| == PageCount(i) &&
    forall p :: 0 <= p < |pages| ==> LinesPerPage * p <= i && |pages[p]| == PageLength(i, p)
  }

  /** Slot k of page p holds line 39 p + k, drawn at its row. */
  ghost predicate LinesDrawn(lines: seq<string>, pages: seq<Page>) {
    forall p, k :: 0 <= p < |pages| && 0 <= k < |pages[p]| ==>
      0 <= LinesPerPage * p + k < |lines| &&
      pages[p][k] == DrawnLine(LeftMargin, TopMargin + LineHeight * k, lines[LinesPerPage * p + k])
  }

  /** What one iteration does to the pages: a new page when y has passed the bottom, then the
      line at the current y on the last page. */
  function DrawOne(pages: seq<Page>, y: int, line: string): (r: seq<Page>)
    requires |pages| > 0
  {
    var ps := if y > PageBottom then pages + [[]] else pages;
    var row := if y > PageBottom then TopMargin else y;
    ps[|ps| - 1 := ps[|ps| - 1] + [DrawnLine(LeftMargin, row, line)]]
  }

  lemma DrawStepShape(pages: seq<Page>, i: nat, y: int, line: string)
    requires PagesShaped(pages, i)
    requires y == TopMargin + LineHeight * |pages[|pages| - 1]|
    ensures PagesShaped(DrawOne(pages, y, line), i + 1)
    ensures var r := DrawOne(pages, y, line);
      |r[|r| - 1]| == if y > PageBottom then 1 else |pages[|pages| - 1]| + 1
  {
  }

  lemma DrawStepLines(lines: seq<string>, pages: seq<Page>, i: nat, y: int)
    requires i < |lines| && PagesShaped(pages, i) && LinesDrawn(lines, pages)
    requires y == TopMargin + LineHeight * |pages[|pages| - 1]|
    ensures LinesDrawn(lines, DrawOne(pages, y, lines[i]))
  {
  }

  /** Once every line is drawn, the pages are the reference layout. */
  lemma DrawnAllIsLayout(lines: seq<string>, pages: seq<Page>)
    requires PagesShaped(pages, |lines|) && LinesDrawn(lines, pages)
    ensures pages == Layout(lines)
  {
    var expected := Layout(lines);
    assert forall p :: 0 <= p < |pages| ==> pages[p] == expected[p];
  }

  /** Every input line is drawn once, in order: line j on page j / 39 at slot j % 39. */
  lemma LayoutPlacesEveryLine(lines: seq<string>, j: nat)
    requires j < |lines|
    ensures j / LinesPerPage < |Layout(lines)|
    ensures j % LinesPerPage < |Layout(lines)[j / LinesPerPage]|
    ensures Layout(lines)[j / LinesPerPage][j % LinesPerPage] ==
      DrawnLine(LeftMargin, TopMargin + LineHeight * (j % LinesPerPage), lines[j])
  {
    var p, k := j / LinesPerPage, j % LinesPerPage;
    assert LinesPerPage * p + k == j;
  }

  /** No page holds more than 39 lines, every page but the last is full, and the last is empty
      only for empty text. */
  lemma LayoutPageSizes(lines: seq<string>)
    ensures forall p :: 0 <= p < |Layout(lines)| ==> |Layout(lines)[p]| <= LinesPerPage
    ensures forall p :: 0 <= p < |Layout(lines)| - 1 ==> |Layout(lines)[p]| == LinesPerPage
    ensures |lines| > 0 ==> |Layout(lines)[|Layout(lines)| - 1]| > 0
  {
  }

  /** The DOCX body of `txtToDocx` / `convertDocument`: one paragraph per '\n'-separated line. */
  function Paragraphs(text: string): (r: seq<string>)
    ensures |r| >= 1
    ensures forall i :: 0 <= i < |r| ==> '\n' !in r[i]
    ensures Join(r, '\n') == text
  {
    JoinSplit(text, '\n');
    Split(text, '\n')
  }

  /** Paragraphs are exactly the lines: re-splitting joined '\n'-free lines gives them back. */
  lemma ParagraphsOfLines(lines: seq<string>)
    requires |lines| >= 1
    requires forall i :: 0 <= i < |lines| ==> '\n' !in lines[i]
    ensures Paragraphs(Join(lines, '\n')) == lines
  {
    SplitJoin(lines, '\n');
  }

  function PdfBlob(lines: seq<string>): Blob {
    Blob(PdfBody(Layout(lines)), GetMimeType(Pdf))
  }

  function DocxBlob(text: string): Blob {
    Blob(DocxBody(Paragraphs(text)), GetMimeType(Docx))
  }

  /** `convertDocument`: the PDF branch only for the exact format "pdf", a DOCX for anything else. */
  function ConvertDocument(text: string, format: string, splitTextToSize: string -> seq<string>): (r: Blob)
    ensures format == "pdf" ==> r.content.PdfBody? && r.content.pages == Layout(splitTextToSize(text))
    ensures format != "pdf" ==> r.content.DocxBody? && |r.content.paragraphs| >= 1
    ensures format != "pdf" ==> Join(r.content.paragraphs, '\n') == text
    ensures format != "pdf" ==> forall i :: 0 <= i < |r.content.paragraphs| ==> '\n' !in r.content.paragraphs[i]
  {
    if format == "pdf" then PdfBlob(splitTextToSize(text)) else DocxBlob(text)
  }
}
