/**
  The values that flow through a conversion: the uploaded file (its name,
  declared media type and text), and the produced blob (a media type and a
  content). Generated documents are kept structured (the paragraphs of a
  DOCX, the drawn lines of each PDF page) so that the local pathways can be
  specified exactly; everything a library we cannot see produces is opaque
  bytes.
 */
module Media {

  /** A browser `File`: `name`, `type` and what `file.text()` resolves to. */
  datatype File = File(name: string, mime: string, text: string)

  /** One `doc.text(line, x, y)` call on a jsPDF page. */
  datatype DrawnLine = DrawnLine(x: int, y: int, text: string)

  type Page = seq<DrawnLine>

  datatype Content =
    | PlainText(text: string)
    | DocxBody(paragraphs: seq<string>)
    | PdfBody(pages: seq<Page>)
    | Bytes(data: seq<int>)

  /** A `Blob` with its `type`. */
  datatype Blob = Blob(content: Content, mime: string)
}
