/**
  The pathway registry of the strategy service: which handler serves each
  (category, target) pair, how a handler is looked up, and what every handler
  does. Handlers that call a library we cannot see (pdf.js, mammoth, marked,
  turndown, html2canvas, ffmpeg, the canvas encoder) or the remote
  CloudConvert service read those as fields of an `Env`.
 */
module ConversionStrategy {
  import opened Outcomes
  import opened Text
  import opened Media
  import opened ConversionConfig
  import opened DocumentLayout
  import opened Markup

  /** The collaborators the handlers call. `docxToHtml` is the HTML conversion the docx
      pathways expect (mammoth's `convertToHtml`); the document converter does not provide
      it, so only the intended handlers of RunIntended read it. */
  datatype Env = Env(
    pdfToText: File -> Result<string>,
    docxToText: File -> Result<string>,
    docxToHtml: File -> Result<string>,
    htmlToPdf: string -> Result<Blob>,
    htmlToMarkdown: string -> Result<Blob>,
    markdownToHtml: string -> Result<Blob>,
    markdownToPdf: string -> Result<Blob>,
    splitTextToSize: string -> seq<string>,
    convertVideo: (File, SupportedFormat) -> Result<Blob>,
    convertToGif: File -> Result<Blob>,
    extractAudio: (File, SupportedFormat) -> Result<Blob>,
    convertImage: (File, SupportedFormat) -> Result<Blob>,
    cloudApiKey: string,
    cloudConvert: (File, string) -> Result<Blob>)

  /** `cloudConvert.isConfigured()`: an API key is set. */
  predicate RemoteConfigured(env: Env) {
    env.cloudApiKey != ""
  }

  /** One registered handler per pathway of the source. */
  datatype Handler =
    | PdfToTxt | PdfToDocxHybrid | PdfToHtml | PdfToMd
    | DocxToTxt | DocxToPdf | DocxToHtml | DocxToMd
    | MarkdownToHtml | MarkdownToPdf | MarkdownToTxt | MarkdownToDocx
    | HtmlToPdf | HtmlToMd | HtmlToTxt | HtmlToDocx
    | TxtToPdf | TxtToDocx | TxtToHtml | TxtToMd
    | VideoTranscode(format: SupportedFormat) | VideoToGif | VideoToAudio(format: SupportedFormat)
    | AudioToWav | AudioToMp3
    | ImageEncode(format: SupportedFormat)

  type Registry = map<(FileType, SupportedFormat), Handler>

  /** The string key `${source}->${target}` the source's registry is indexed by. */
  function Key(source: FileType, target: string): string {
    TypeName(source) + "->" + target
  }

  /** Distinct (category, target) pairs have distinct string keys, so a registry keyed by
      strings behaves as one keyed by pairs. */
  lemma KeyInjective(s1: FileType, t1: string, s2: FileType, t2: string)
    requires Key(s1, t1) == Key(s2, t2)
    ensures s1 == s2 && t1 == t2
  {
    TypeNameHasNoDash(s1);
    TypeNameHasNoDash(s2);
    ArrowJoinInjective(TypeName(s1), t1, TypeName(s2), t2);
    TypeNameInjective(s1, s2);
  }

  /** `a->x` splits back into a and x when a has no '-'. */
  lemma ArrowJoinInjective(a: string, x: string, b: string, y: string)
    requires '-' !in a && '-' !in b
    requires a + "->" + x == b + "->" + y
    ensures a == b && x == y
  {
    var k := a + "->" + x;
    FirstDashEndsName(k, a, x);
    FirstDashEndsName(k, b, y);
    assert a == k[..|a|] == b;
    assert x == k[|a| + 2..] == y;
  }

  /** In `a->x` with a free of '-', the first '-' is the one right after a. */
  lemma FirstDashEndsName(k: string, a: string, x: string)
    requires '-' !in a && k == a + "->" + x
    ensures IndexOf(k, '-') == |a|
  {
    var r := IndexOf(k, '-');
    assert k[|a|] == '-';
    assert k[..|a|] == a;
  }

  lemma TypeNameInjective(s1: FileType, s2: FileType)
    requires TypeName(s1) == TypeName(s2)
    ensures s1 == s2
  {
  }

  /** A string key names a registered pair exactly when its target parses to that format. */
  lemma KeyOfFormat(source: FileType, target: string, s: FileType, f: SupportedFormat)
    ensures Key(source, target) == Key(s, FormatName(f)) <==> source == s && ParseFormat(target) == Some(f)
  {
    ParseFormatName(f);
    if Key(source, target) == Key(s, FormatName(f)) {
      KeyInjective(source, target, s, FormatName(f));
    }
  }

  /** `register`: sets the key, replacing any earlier handler, and leaves other keys alone. */
  function Register(reg: Registry, source: FileType, target: SupportedFormat, h: Handler): (r: Registry)
    ensures r.Keys == reg.Keys + {(source, target)}
    ensures r[(source, target)] == h
    ensures forall k :: k in reg && k != (source, target) ==> r[k] == reg[k]
  {
    reg[(source, target) := h]
  }

  /** Registering in order; a later registration of the same key wins. */
  function RegisterAll(reg: Registry, regs: seq<(FileType, SupportedFormat, Handler)>): Registry
    decreases |regs|
  {
    if |regs| == 0 then reg
    else RegisterAll(Register(reg, regs[0].0, regs[0].1, regs[0].2), regs[1..])
  }

  /** The calls of `registerStrategies`, in the source's order: document pathways, then
      markup and text pathways, then media pathways. */
  const Registrations: seq<(FileType, SupportedFormat, Handler)> :=
    DocumentRegistrations + MarkupRegistrations + MediaRegistrations

  const DocumentRegistrations: seq<(FileType, SupportedFormat, Handler)> := [
    (PdfDoc, TxtFormat, PdfToTxt), (PdfDoc, Docx, PdfToDocxHybrid),
    (PdfDoc, HtmlFormat, PdfToHtml), (PdfDoc, Md, PdfToMd),
    (DocxDoc, TxtFormat, DocxToTxt), (DocxDoc, Pdf, DocxToPdf),
    (DocxDoc, HtmlFormat, DocxToHtml), (DocxDoc, Md, DocxToMd),
    (Markdown, HtmlFormat, MarkdownToHtml), (Markdown, Pdf, MarkdownToPdf),
    (Markdown, TxtFormat, MarkdownToTxt), (Markdown, Docx, MarkdownToDocx)
  ]

  const MarkupRegistrations: seq<(FileType, SupportedFormat, Handler)> := [
    (Html, Pdf, HtmlToPdf), (Html, Md, HtmlToMd), (Html, TxtFormat, HtmlToTxt), (Html, Docx, HtmlToDocx),
    (Txt, Pdf, TxtToPdf), (Txt, Docx, TxtToDocx), (Txt, HtmlFormat, TxtToHtml), (Txt, Md, TxtToMd)
  ]

  const MediaRegistrations: seq<(FileType, SupportedFormat, Handler)> := [
    (Video, Mp4, VideoTranscode(Mp4)), (Video, Webm, VideoTranscode(Webm)), (Video, Gif, VideoToGif),
    (Video, Mp3, VideoToAudio(Mp3)), (Video, Wav, VideoToAudio(Wav)),
    (Audio, Wav, AudioToWav), (Audio, Mp3, AudioToMp3),
    (Image, Png, ImageEncode(Png)), (Image, Jpeg, ImageEncode(Jpeg)), (Image, Webp, ImageEncode(Webp))
  ]

  /** The registry as the constructor leaves it. */
  function Strategies(): Registry {
    RegisterAll(map[], Registrations)
  }

  /** The keys after registering are the keys before plus every registered pair. */
  lemma {:induction false} RegisterAllKeys(reg: Registry, regs: seq<(FileType, SupportedFormat, Handler)>)
    ensures RegisterAll(reg, regs).Keys == reg.Keys + set i | 0 <= i < |regs| :: (regs[i].0, regs[i].1)
    decreases |regs|
  {
    if |regs| > 0 {
      var next := Register(reg, regs[0].0, regs[0].1, regs[0].2);
      RegisterAllKeys(next, regs[1..]);
      var rest := set i | 0 <= i < |regs[1..]| :: (regs[1..][i].0, regs[1..][i].1);
      var all := set i | 0 <= i < |regs| :: (regs[i].0, regs[i].1);
      assert all == {(regs[0].0, regs[0].1)} + rest by {
        forall k | k in all ensures k in {(regs[0].0, regs[0].1)} + rest {
          var i :| 0 <= i < |regs| && k == (regs[i].0, regs[i].1);
          if i > 0 {
            assert k == (regs[1..][i - 1].0, regs[1..][i - 1].1);
          }
        }
      }
    }
  }

  /** A key registered once, at position i, keeps the handler of position i. */
  lemma {:induction false} RegisterAllValue(reg: Registry, regs: seq<(FileType, SupportedFormat, Handler)>, i: nat)
    requires i < |regs|
    requires forall j :: i < j < |regs| ==> (regs[j].0, regs[j].1) != (regs[i].0, regs[i].1)
    ensures (regs[i].0, regs[i].1) in RegisterAll(reg, regs)
    ensures RegisterAll(reg, regs)[(regs[i].0, regs[i].1)] == regs[i].2
    decreases |regs|
  {
    var next := Register(reg, regs[0].0, regs[0].1, regs[0].2);
    if i == 0 {
      KeptAfter(next, regs[1..], (regs[0].0, regs[0].1));
    } else {
      RegisterAllValue(next, regs[1..], i - 1);
    }
  }

  /** Registering pairs other than k leaves k's handler as it was. */
  lemma {:induction false} KeptAfter(reg: Registry, regs: seq<(FileType, SupportedFormat, Handler)>, k: (FileType, SupportedFormat))
    requires k in reg
    requires forall j :: 0 <= j < |regs| ==> (regs[j].0, regs[j].1) != k
    ensures k in RegisterAll(reg, regs) && RegisterAll(reg, regs)[k] == reg[k]
    decreases |regs|
  {
    if |regs| > 0 {
      KeptAfter(Register(reg, regs[0].0, regs[0].1, regs[0].2), regs[1..], k);
    }
  }

  /** Every registration is a pair of the conversion matrix. */
  lemma RegistrationInMatrix(i: nat)
    requires i < |Registrations|
    ensures Registrations[i].1 in Matrix(Registrations[i].0)
  {
  }

  /** The position at which the constructor registers a pair of the conversion matrix. */
  function RegistrationIndex(t: FileType, f: SupportedFormat): (i: int)
    requires f in Matrix(t)
    ensures 0 <= i < |Registrations| && (Registrations[i].0, Registrations[i].1) == (t, f)
  {
    if t in {PdfDoc, DocxDoc, Markdown} then DocumentIndex(t, f)
    else if t in {Html, Txt} then MarkupIndex(t, f)
    else MediaIndex(t, f)
  }

  function DocumentIndex(t: FileType, f: SupportedFormat): (i: int)
    requires t in {PdfDoc, DocxDoc, Markdown} && f in Matrix(t)
    ensures 0 <= i < |Registrations| && (Registrations[i].0, Registrations[i].1) == (t, f)
  {
    if t == PdfDoc then (if f == TxtFormat then 0 else if f == Docx then 1 else if f == HtmlFormat then 2 else 3)
    else if t == DocxDoc then (if f == TxtFormat then 4 else if f == Pdf then 5 else if f == HtmlFormat then 6 else 7)
    else (if f == HtmlFormat then 8 else if f == Pdf then 9 else if f == TxtFormat then 10 else 11)
  }

  function MarkupIndex(t: FileType, f: SupportedFormat): (i: int)
    requires t in {Html, Txt} && f in Matrix(t)
    ensures 0 <= i < |Registrations| && (Registrations[i].0, Registrations[i].1) == (t, f)
  {
    if t == Html then (if f == Pdf then 12 else if f == Md then 13 else if f == TxtFormat then 14 else 15)
    else (if f == Pdf then 16 else if f == Docx then 17 else if f == HtmlFormat then 18 else 19)
  }

  function MediaIndex(t: FileType, f: SupportedFormat): (i: int)
    requires t in {Video, Audio, Image} && f in Matrix(t)
    ensures 0 <= i < |Registrations| && (Registrations[i].0, Registrations[i].1) == (t, f)
  {
    if t == Video then (if f == Mp4 then 20 else if f == Webm then 21 else if f == Gif then 22 else if f == Mp3 then 23 else 24)
    else if t == Audio then (if f == Wav then 25 else 26)
    else (if f == Png then 27 else if f == Jpeg then 28 else 29)
  }

  /** Every pair of the conversion matrix is registered. */
  lemma MatrixPairIsRegistered(t: FileType, f: SupportedFormat)
    requires f in Matrix(t)
    ensures exists i :: 0 <= i < |Registrations| && (Registrations[i].0, Registrations[i].1) == (t, f)
  {
    var i := RegistrationIndex(t, f);
  }

  /** Each registration sits at the position `RegistrationIndex` gives its pair. */
  lemma RegistrationIndexOf(i: nat)
    requires i < |Registrations|
    ensures Registrations[i].1 in Matrix(Registrations[i].0)
    ensures RegistrationIndex(Registrations[i].0, Registrations[i].1) == i
  {
    RegistrationInMatrix(i);
    if i < 12 {
      DocumentIndexOf(i);
    } else if i < 20 {
      MarkupIndexOf(i);
    } else {
      MediaIndexOf(i);
    }
  }

  lemma DocumentIndexOf(i: nat)
    requires i < 12
    ensures Registrations[i].0 in {PdfDoc, DocxDoc, Markdown} && Registrations[i].1 in Matrix(Registrations[i].0)
    ensures DocumentIndex(Registrations[i].0, Registrations[i].1) == i
  {
  }

  lemma MarkupIndexOf(i: nat)
    requires 12 <= i < 20
    ensures Registrations[i].0 in {Html, Txt} && Registrations[i].1 in Matrix(Registrations[i].0)
    ensures MarkupIndex(Registrations[i].0, Registrations[i].1) == i
  {
  }

  lemma MediaIndexOf(i: nat)
    requires 20 <= i < |Registrations|
    ensures Registrations[i].0 in {Video, Audio, Image} && Registrations[i].1 in Matrix(Registrations[i].0)
    ensures MediaIndex(Registrations[i].0, Registrations[i].1) == i
  {
  }

  /** The keys the constructor registers, as a set. */
  ghost function RegisteredPairs(): set<(FileType, SupportedFormat)> {
    set j | 0 <= j < |Registrations| :: (Registrations[j].0, Registrations[j].1)
  }

  /** After construction the registered keys are exactly {(t, f) | f in CONVERSION_MATRIX[t]}. */
  lemma StrategiesCoverMatrix(t: FileType, f: SupportedFormat)
    ensures (t, f) in Strategies() <==> f in Matrix(t)
  {
    StrategiesKeys();
    RegisteredPairsAreMatrix(t, f);
  }

  lemma StrategiesKeys()
    ensures Strategies().Keys == RegisteredPairs()
  {
    RegisterAllKeys(map[], Registrations);
  }

  lemma RegisteredPairsAreMatrix(t: FileType, f: SupportedFormat)
    ensures (t, f) in RegisteredPairs() <==> f in Matrix(t)
  {
    if f in Matrix(t) {
      MatrixPairIsRegistered(t, f);
      var i :| 0 <= i < |Registrations| && (Registrations[i].0, Registrations[i].1) == (t, f);
    }
    if (t, f) in RegisteredPairs() {
      var i :| 0 <= i < |Registrations| && (Registrations[i].0, Registrations[i].1) == (t, f);
      RegistrationInMatrix(i);
    }
  }

  /** No pair is registered twice, so each keeps the handler registered for it. */
  lemma RegistrationsDistinct()
    ensures forall i, j :: 0 <= i < j < |Registrations| ==>
      (Registrations[i].0, Registrations[i].1) != (Registrations[j].0, Registrations[j].1)
  {
    forall i, j | 0 <= i < j < |Registrations|
      ensures (Registrations[i].0, Registrations[i].1) != (Registrations[j].0, Registrations[j].1)
    {
      RegistrationIndexOf(i);
      RegistrationIndexOf(j);
    }
  }

  lemma StrategiesHandler(i: nat)
    requires i < |Registrations|
    ensures (Registrations[i].0, Registrations[i].1) in Strategies()
    ensures Strategies()[(Registrations[i].0, Registrations[i].1)] == Registrations[i].2
  {
    RegistrationsDistinct();
    RegisterAllValue(map[], Registrations, i);
  }

  /** Looking up a registered pair by its format name finds the handler registered for it. */
  lemma RegisteredHandlerIsFound(i: nat)
    requires i < |Registrations|
    ensures GetHandler(Strategies(), Registrations[i].0, FormatName(Registrations[i].1)) == Some(Registrations[i].2)
  {
    StrategiesHandler(i);
    ParseFormatName(Registrations[i].1);
  }

  /** The pdf to docx pathway is the hybrid one. */
  lemma PdfToDocxIsHybrid()
    ensures (PdfDoc, Docx) in Strategies() && Strategies()[(PdfDoc, Docx)] == PdfToDocxHybrid
  {
    StrategiesHandler(1);
  }

  /** `strategies.get(key) || null` for a target given as free text. */
  function Lookup(reg: Registry, source: FileType, target: string): (r: Option<Handler>)
    ensures r.Some? <==> CanConvert(reg, source, target)
    ensures forall k :: k in reg && Key(k.0, FormatName(k.1)) == Key(source, target) ==> r == Some(reg[k])
  {
    KeysMatch(reg, source, target);
    match ParseFormat(target)
    case None => None
    case Some(f) => if (source, f) in reg then Some(reg[(source, f)]) else None
  }

  /** Comparing string keys against a registered pair is comparing the category and parsing
      the target. */
  lemma KeysMatch(reg: Registry, source: FileType, target: string)
    ensures forall k :: k in reg ==>
      (Key(k.0, FormatName(k.1)) == Key(source, target) <==> k.0 == source && ParseFormat(target) == Some(k.1))
  {
    forall k | k in reg
      ensures Key(k.0, FormatName(k.1)) == Key(source, target) <==> k.0 == source && ParseFormat(target) == Some(k.1)
    {
      KeyOfFormat(source, target, k.0, k.1);
    }
  }

  /** `canConvert`: `strategies.has(key)`, the registry's pairs read as their string keys. */
  function CanConvert(reg: Registry, source: FileType, target: string): (r: bool)
    ensures r <==> exists k :: k in reg && Key(k.0, FormatName(k.1)) == Key(source, target)
  {
    KeysMatch(reg, source, target);
    match ParseFormat(target)
    case None => false
    case Some(f) => (source, f) in reg
  }

  /** `getHandler`, including its branch for an unregistered video key. */
  function GetHandler(reg: Registry, source: FileType, target: string): (r: Option<Handler>)
    ensures r.Some? <==> CanConvert(reg, source, target)
    ensures r.Some? ==> exists f :: ParseFormat(target) == Some(f) && (source, f) in reg && r.value == reg[(source, f)]
    ensures r == Lookup(reg, source, target)
  {
    if !CanConvert(reg, source, target) && source == Video then Lookup(reg, Video, target)
    else Lookup(reg, source, target)
  }

  /** With the constructed registry, a handler exists exactly for the matrix pairs. */
  lemma HandlerExistsIffInMatrix(source: FileType, target: string)
    ensures GetHandler(Strategies(), source, target).Some? <==>
      exists f :: ParseFormat(target) == Some(f) && f in Matrix(source)
  {
    match ParseFormat(target)
    case None =>
    case Some(f) => StrategiesCoverMatrix(source, f);
  }

  /** `new Blob([text], { type })`. */
  function TextBlob(text: string, mime: string): Blob {
    Blob(PlainText(text), mime)
  }

  /** `txtToDocx` on text already read. */
  function TxtToDocxBlob(text: string): (b: Blob)
    ensures b.mime == GetMimeType(Docx) && b.content.DocxBody? && |b.content.paragraphs| >= 1
    ensures Join(b.content.paragraphs, '\n') == text
  {
    DocxBlob(text)
  }

  /** `txtToPdf` on text already read: the jsPDF pages of the wrapped lines. */
  function TxtToPdfBlob(env: Env, text: string): (b: Blob)
    ensures b.mime == GetMimeType(Pdf) && b.content == PdfBody(Layout(env.splitTextToSize(text)))
  {
    PdfBlob(env.splitTextToSize(text))
  }

  /** The remote call: rejects at once without an API key, otherwise the service's answer. */
  function RemoteConvert(env: Env, f: File, target: string): (r: Result<Blob>)
    ensures !RemoteConfigured(env) ==> r == Err(ErrorObject("CloudConvert API key not configured"))
    ensures RemoteConfigured(env) ==> r == env.cloudConvert(f, target)
  {
    if env.cloudApiKey == "" then Err(ErrorObject("CloudConvert API key not configured"))
    else env.cloudConvert(f, target)
  }

  /** The local fallback of the hybrid pathway: extracted text written out as a DOCX. */
  function PdfToDocxFallback(f: File, env: Env): (r: Result<Blob>)
    ensures r.Ok? <==> env.pdfToText(f).Ok?
    ensures r.Err? ==> r.thrown == env.pdfToText(f).thrown
    ensures r.Ok? ==> r.value.mime == GetMimeType(Docx) && r.value.content.DocxBody?
    ensures r.Ok? ==> |r.value.content.paragraphs| >= 1
    ensures r.Ok? ==> Join(r.value.content.paragraphs, '\n') == env.pdfToText(f).value
  {
    var text :- env.pdfToText(f);
    Ok(TxtToDocxBlob(text))
  }

  /** What a handler resolves or rejects with. */
  function Run(h: Handler, f: File, env: Env): (r: Result<Blob>)
    ensures h in {PdfToTxt, PdfToHtml, PdfToMd} ==> (r.Ok? <==> env.pdfToText(f).Ok?)
    ensures h == DocxToTxt ==> (r.Ok? <==> env.docxToText(f).Ok?)
    ensures h in {MarkdownToTxt, MarkdownToDocx, HtmlToTxt, HtmlToDocx, TxtToPdf, TxtToDocx, TxtToHtml, TxtToMd} ==> r.Ok?
    ensures h in {DocxToPdf, DocxToHtml, DocxToMd} ==> r.Err?
  {
    match h
    case PdfToTxt =>
      var t :- env.pdfToText(f); Ok(TextBlob(t, "text/plain"))
    case PdfToDocxHybrid =>
      if RemoteConfigured(env) && RemoteConvert(env, f, "docx").Ok? then RemoteConvert(env, f, "docx")
      else PdfToDocxFallback(f, env)
    case PdfToHtml =>
      var t :- env.pdfToText(f); Ok(TextBlob(WrapInPre(t), "text/html"))
    case PdfToMd =>
      var t :- env.pdfToText(f); Ok(TextBlob(t, "text/markdown"))
    case DocxToTxt =>
      var t :- env.docxToText(f); Ok(TextBlob(t, "text/plain"))
    case DocxToPdf => Err(DocxToHtmlMissing)
    case DocxToHtml => Err(DocxToHtmlMissing)
    case DocxToMd => Err(DocxToHtmlMissing)
    case MarkdownToHtml => env.markdownToHtml(f.text)
    case MarkdownToPdf => env.markdownToPdf(f.text)
    case MarkdownToTxt => Ok(TextBlob(f.text, "text/plain"))
    case MarkdownToDocx => Ok(TxtToDocxBlob(f.text))
    case HtmlToPdf => env.htmlToPdf(f.text)
    case HtmlToMd => env.htmlToMarkdown(f.text)
    case HtmlToTxt => Ok(TextBlob(StripTags(f.text), "text/plain"))
    case HtmlToDocx => Ok(TxtToDocxBlob(StripTags(f.text)))
    case TxtToPdf => Ok(TxtToPdfBlob(env, f.text))
    case TxtToDocx => Ok(TxtToDocxBlob(f.text))
    case TxtToHtml => Ok(TextBlob(WrapInPre(f.text), "text/html"))
    case TxtToMd => Ok(TextBlob(f.text, "text/markdown"))
    case VideoTranscode(fmt) => env.convertVideo(f, fmt)
    case VideoToGif => env.convertToGif(f)
    case VideoToAudio(fmt) => env.extractAudio(f, fmt)
    case AudioToWav => env.extractAudio(f, Wav)
    case AudioToMp3 => env.extractAudio(f, Mp3)
    case ImageEncode(fmt) => env.convertImage(f, fmt)
  }

  /** The three docx pathways other than docx to txt call `documentConverter.docxToHtml`,
      a method the document converter does not define. Calling `undefined` inside the async
      handler throws a TypeError, so the handler's promise rejects before any work is done. */
  const DocxToHtmlMissing: Thrown := ErrorObject("this.documentConverter.docxToHtml is not a function")

  /** The handlers as evidently intended: the docx pathways go through the document's HTML,
      every other handler is as written. */
  function RunIntended(h: Handler, f: File, env: Env): Result<Blob> {
    match h
    case DocxToPdf =>
      var html :- env.docxToHtml(f); env.htmlToPdf(StyledForPdf(html))
    case DocxToHtml =>
      var html :- env.docxToHtml(f); Ok(TextBlob(html, "text/html"))
    case DocxToMd =>
      var html :- env.docxToHtml(f); env.htmlToMarkdown(html)
    case _ => Run(h, f, env)
  }

  /** As written, docx to pdf, docx to html and docx to md reject on every file, whatever the
      libraries would do; only docx to txt can produce anything from a DOCX. */
  lemma DocxHtmlPathwaysReject(h: Handler, f: File, env: Env)
    requires h in {DocxToPdf, DocxToHtml, DocxToMd}
    ensures Run(h, f, env) == Err(DocxToHtmlMissing)
    ensures forall e: Env :: Run(h, f, e) == Run(h, f, env)
  {
  }

  /** As intended, docx to html returns the document's HTML as an HTML page, and a failed
      extraction is passed on. */
  lemma IntendedDocxToHtml(f: File, env: Env)
    ensures env.docxToHtml(f).Err? ==> RunIntended(DocxToHtml, f, env) == Err(env.docxToHtml(f).thrown)
    ensures env.docxToHtml(f).Ok? ==>
      RunIntended(DocxToHtml, f, env) == Ok(Blob(PlainText(env.docxToHtml(f).value), GetMimeType(HtmlFormat)))
  {
  }

  /** As intended, docx to pdf renders the document's HTML inside the style wrapper. */
  lemma IntendedDocxToPdf(f: File, env: Env)
    ensures env.docxToHtml(f).Err? ==> RunIntended(DocxToPdf, f, env) == Err(env.docxToHtml(f).thrown)
    ensures env.docxToHtml(f).Ok? ==>
      RunIntended(DocxToPdf, f, env) == env.htmlToPdf(StyledForPdf(env.docxToHtml(f).value))
  {
  }

  /** As intended, docx to md converts the document's HTML to Markdown. */
  lemma IntendedDocxToMd(f: File, env: Env)
    ensures env.docxToHtml(f).Err? ==> RunIntended(DocxToMd, f, env) == Err(env.docxToHtml(f).thrown)
    ensures env.docxToHtml(f).Ok? ==> RunIntended(DocxToMd, f, env) == env.htmlToMarkdown(env.docxToHtml(f).value)
  {
  }

  /** The correction touches only the three docx pathways. */
  lemma IntendedElsewhereAsWritten(h: Handler, f: File, env: Env)
    requires h !in {DocxToPdf, DocxToHtml, DocxToMd}
    ensures RunIntended(h, f, env) == Run(h, f, env)
  {
  }

  /** The audio service's two conversions are audio extraction by the video converter with
      the target as the container: audio to wav and audio to mp3 do what video to wav and
      video to mp3 do. */
  lemma AudioPathwaysExtract(f: File, env: Env)
    ensures Run(AudioToWav, f, env) == env.extractAudio(f, Wav) == Run(VideoToAudio(Wav), f, env)
    ensures Run(AudioToMp3, f, env) == env.extractAudio(f, Mp3) == Run(VideoToAudio(Mp3), f, env)
  {
  }

  /** The wrapper docx to pdf is meant to put around the document's HTML before rendering it. */
  function StyledForPdf(html: string): (r: string)
    ensures |r| == |StyledOpen| + |html| + |StyledClose|
    ensures r[..|StyledOpen|] == StyledOpen && r[|StyledOpen| + |html|..] == StyledClose
    ensures r[|StyledOpen|..|StyledOpen| + |html|] == html
  {
    StyledOpen + html + StyledClose
  }

  const StyledOpen: string := "\n        <div style=\"font-family: Arial, sans-serif; line-height: 1.6; color: #333;\">\n          "
  const StyledClose: string := "\n        </div>\n      "

  /** Without an API key the hybrid pathway never consults the remote service: its result is
      the local fallback whatever the service would have answered. */
  lemma HybridUnconfiguredIsLocal(f: File, env: Env, remote: (File, string) -> Result<Blob>)
    requires !RemoteConfigured(env)
    ensures Run(PdfToDocxHybrid, f, env) == PdfToDocxFallback(f, env)
    ensures Run(PdfToDocxHybrid, f, env) == Run(PdfToDocxHybrid, f, env.(cloudConvert := remote))
  {
  }

  /** Configured and answered: the remote document is returned as it came. */
  lemma HybridRemoteSuccess(f: File, env: Env)
    requires RemoteConfigured(env) && env.cloudConvert(f, "docx").Ok?
    ensures Run(PdfToDocxHybrid, f, env) == env.cloudConvert(f, "docx")
  {
  }

  /** Configured but the remote call rejects: the failure is swallowed and the result is the
      local fallback, the extracted text as a DOCX with one paragraph per line. */
  lemma HybridRemoteFailureFallsBack(f: File, env: Env)
    requires RemoteConfigured(env) && env.cloudConvert(f, "docx").Err?
    ensures Run(PdfToDocxHybrid, f, env) == PdfToDocxFallback(f, env)
    ensures env.pdfToText(f).Ok? ==> Run(PdfToDocxHybrid, f, env) == Ok(TxtToDocxBlob(env.pdfToText(f).value))
    ensures env.pdfToText(f).Err? ==> Run(PdfToDocxHybrid, f, env) == Err(env.pdfToText(f).thrown)
  {
  }

  /** html to txt and html to docx both drop every tag the pattern matches, and nothing else
      is left for it to match. */
  lemma HtmlPathwaysStripTags(f: File, env: Env)
    ensures Run(HtmlToTxt, f, env).Ok? && TagFree(Run(HtmlToTxt, f, env).value.content.text)
    ensures Run(HtmlToDocx, f, env).Ok?
    ensures Join(Run(HtmlToDocx, f, env).value.content.paragraphs, '\n') == StripTags(f.text)
    ensures '<' !in f.text ==> Run(HtmlToTxt, f, env).value.content.text == f.text
  {
    StripTagsIsTagFree(f.text);
    if '<' !in f.text {
      StripTagsWithoutOpenBracket(f.text);
    }
  }

  /** txt to html and pdf to html produce the same `<pre>` page around the text, unescaped. */
  lemma HtmlPathwaysWrapVerbatim(f: File, env: Env)
    ensures Run(TxtToHtml, f, env) == Ok(Blob(PlainText(PreOpen + f.text + PreClose), "text/html"))
    ensures env.pdfToText(f).Ok? ==>
      Run(PdfToHtml, f, env) == Ok(Blob(PlainText(PreOpen + env.pdfToText(f).value + PreClose), "text/html"))
  {
  }

  /** txt to md, markdown to txt and pdf to md keep the characters and change only the type. */
  lemma PassThroughPathways(f: File, env: Env)
    ensures Run(TxtToMd, f, env) == Ok(Blob(PlainText(f.text), GetMimeType(Md)))
    ensures Run(MarkdownToTxt, f, env) == Ok(Blob(PlainText(f.text), GetMimeType(TxtFormat)))
    ensures env.pdfToText(f).Ok? ==> Run(PdfToMd, f, env) == Ok(Blob(PlainText(env.pdfToText(f).value), GetMimeType(Md)))
  {
  }

  /** The target whose media type a local pathway labels its output with; None for the
      pathways whose output type a library or the remote service decides. */
  function LocalTarget(h: Handler): (r: Option<SupportedFormat>)
    ensures r.Some? ==> forall f, env :: Run(h, f, env).Ok? ==> Run(h, f, env).value.mime == GetMimeType(r.value)
  {
    match h
    case PdfToTxt => Some(TxtFormat)
    case PdfToHtml => Some(HtmlFormat)
    case PdfToMd => Some(Md)
    case DocxToTxt => Some(TxtFormat)
    case MarkdownToTxt => Some(TxtFormat)
    case MarkdownToDocx => Some(Docx)
    case HtmlToTxt => Some(TxtFormat)
    case HtmlToDocx => Some(Docx)
    case TxtToPdf => Some(Pdf)
    case TxtToDocx => Some(Docx)
    case TxtToHtml => Some(HtmlFormat)
    case TxtToMd => Some(Md)
    case _ => None
  }

  /** A local pathway that resolves labels its blob with the table's media type. */
  lemma LocalOutputType(h: Handler, f: File, env: Env)
    requires LocalTarget(h).Some? && Run(h, f, env).Ok?
    ensures Run(h, f, env).value.mime == GetMimeType(LocalTarget(h).value)
  {
    if h in {PdfToTxt, PdfToHtml, PdfToMd, DocxToTxt} {
      ExtractedOutputType(h, f, env);
    } else {
      WrittenOutputType(h, f, env);
    }
  }

  /** The pathways that relabel text a library extracted. */
  lemma ExtractedOutputType(h: Handler, f: File, env: Env)
    requires h in {PdfToTxt, PdfToHtml, PdfToMd, DocxToTxt} && Run(h, f, env).Ok?
    ensures LocalTarget(h).Some? && Run(h, f, env).value.mime == GetMimeType(LocalTarget(h).value)
  {
  }

  /** The pathways that write the file's own text out. */
  lemma WrittenOutputType(h: Handler, f: File, env: Env)
    requires LocalTarget(h).Some? && h !in {PdfToTxt, PdfToHtml, PdfToMd, DocxToTxt}
    ensures Run(h, f, env).Ok? && Run(h, f, env).value.mime == GetMimeType(LocalTarget(h).value)
  {
  }

  /** Every local pathway is registered under the target it labels its output with. */
  lemma LocalTargetIsRegisteredTarget(i: nat)
    requires i < |Registrations|
    ensures LocalTarget(Registrations[i].2) in {None, Some(Registrations[i].1)}
  {
    if i < 10 {
    } else if i < 20 {
    } else {
    }
  }
}
