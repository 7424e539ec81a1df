/**
  The static conversion configuration: the input categories and output
  formats, the conversion matrix, the media type of every output format, the
  ordered detection rules, the default target per category, and the
  classifier built on them.
 */
module ConversionConfig {
  import opened Outcomes
  import opened Text
  import opened Media

  /** An input category. */
  datatype FileType = PdfDoc | DocxDoc | Markdown | Html | Txt | Image | Video | Audio

  /** An output encoding. */
  datatype SupportedFormat = Pdf | Docx | HtmlFormat | Md | TxtFormat | Png | Jpeg | Webp | Mp4 | Webm | Gif | Mp3 | Wav

  /** The string tag the source uses for a category. */
  function TypeName(t: FileType): string {
    match t
    case PdfDoc => "pdf"
    case DocxDoc => "docx"
    case Markdown => "markdown"
    case Html => "html"
    case Txt => "txt"
    case Image => "image"
    case Video => "video"
    case Audio => "audio"
  }

  /** The string tag the source uses for a format. */
  function FormatName(f: SupportedFormat): string {
    match f
    case Pdf => "pdf"
    case Docx => "docx"
    case HtmlFormat => "html"
    case Md => "md"
    case TxtFormat => "txt"
    case Png => "png"
    case Jpeg => "jpeg"
    case Webp => "webp"
    case Mp4 => "mp4"
    case Webm => "webm"
    case Gif => "gif"
    case Mp3 => "mp3"
    case Wav => "wav"
  }

  /** The format whose tag is `s`, if any: how a free-form target string is read. */
  function ParseFormat(s: string): (r: Option<SupportedFormat>)
    ensures r.Some? ==> FormatName(r.value) == s
    ensures r.None? ==> forall g :: FormatName(g) != s
  {
    if s == "pdf" then Some(Pdf)
    else if s == "docx" then Some(Docx)
    else if s == "html" then Some(HtmlFormat)
    else if s == "md" then Some(Md)
    else if s == "txt" then Some(TxtFormat)
    else if s == "png" then Some(Png)
    else if s == "jpeg" then Some(Jpeg)
    else if s == "webp" then Some(Webp)
    else if s == "mp4" then Some(Mp4)
    else if s == "webm" then Some(Webm)
    else if s == "gif" then Some(Gif)
    else if s == "mp3" then Some(Mp3)
    else if s == "wav" then Some(Wav)
    else None
  }

  /** Every format tag parses back to its format, so the tags are distinct. */
  lemma ParseFormatName(f: SupportedFormat)
    ensures ParseFormat(FormatName(f)) == Some(f)
  {
  }

  /** No category tag contains '-', which keeps `type + "->" + target` keys unambiguous. */
  lemma TypeNameHasNoDash(t: FileType)
    ensures '-' !in TypeName(t)
  {
  }

  /** `CONVERSION_MATRIX`: the allowed targets of each category, in the source's order. */
  function Matrix(t: FileType): (r: seq<SupportedFormat>)
    ensures |r| > 0
    ensures forall i, j :: 0 <= i < j < |r| ==> r[i] != r[j]
  {
    match t
    case PdfDoc => [Docx, TxtFormat, HtmlFormat, Md]
    case DocxDoc => [Pdf, TxtFormat, HtmlFormat, Md]
    case Markdown => [HtmlFormat, Pdf, TxtFormat, Docx]
    case Html => [Pdf, Md, TxtFormat, Docx]
    case Txt => [Pdf, Docx, HtmlFormat, Md]
    case Image => [Png, Jpeg, Webp]
    case Video => [Mp4, Webm, Gif, Mp3, Wav]
    case Audio => [Mp3, Wav]
  }

  /** `DEFAULT_TARGET_FORMAT`. */
  function DefaultTarget(t: FileType): (r: SupportedFormat)
    ensures r in Matrix(t)
  {
    match t
    case PdfDoc => TxtFormat
    case DocxDoc => TxtFormat
    case Markdown => HtmlFormat
    case Html => Pdf
    case Txt => Pdf
    case Image => Webp
    case Video => Mp4
    case Audio => Mp3
  }

  /** Every category has a target, its default is one of them, and no target is listed twice. */
  lemma MatrixWellFormed(t: FileType)
    ensures |Matrix(t)| > 0
    ensures DefaultTarget(t) in Matrix(t)
    ensures forall i, j :: 0 <= i < j < |Matrix(t)| ==> Matrix(t)[i] != Matrix(t)[j]
  {
  }

  const OctetStream: string := "application/octet-stream"

  /** `MIME_TYPES`. */
  const MimeTable: map<SupportedFormat, string> := map[
    TxtFormat := "text/plain",
    HtmlFormat := "text/html",
    Md := "text/markdown",
    Pdf := "application/pdf",
    Docx := "application/vnd.openxmlformats-officedocument.wordprocessingml.document",
    Png := "image/png",
    Jpeg := "image/jpeg",
    Webp := "image/webp",
    Mp4 := "video/mp4",
    Webm := "video/webm",
    Gif := "image/gif",
    Mp3 := "audio/mpeg",
    Wav := "audio/wav"
  ]

  /** `MIME_TYPES` has a non-empty entry for every format, and none is the octet-stream fallback. */
  lemma MimeTableTotal(f: SupportedFormat)
    ensures f in MimeTable && MimeTable[f] != "" && MimeTable[f] != OctetStream
  {
  }

  /** `getMimeType`: the table entry, or the octet-stream fallback for a missing or empty one. */
  function GetMimeType(f: SupportedFormat): (r: string)
    ensures r != OctetStream
    ensures f in MimeTable && r == MimeTable[f]
  {
    MimeTableTotal(f);
    if f in MimeTable && MimeTable[f] != "" then MimeTable[f] else OctetStream
  }

  /** One entry of `FILE_TYPE_RULES`. */
  datatype Rule = Rule(mimeTypes: seq<string>, extensions: seq<string>, fileType: FileType)

  /** `FILE_TYPE_RULES`, in scan order. */
  const Rules: seq<Rule> := [
    Rule(["application/pdf"], ["pdf"], PdfDoc),
    Rule(["application/vnd.openxmlformats-officedocument.wordprocessingml.document"], ["docx"], DocxDoc),
    Rule(["text/markdown"], ["md", "markdown"], Markdown),
    Rule(["text/html"], ["html", "htm"], Html),
    Rule(["text/plain"], ["txt"], Txt),
    Rule(["image/png", "image/jpeg", "image/webp", "image/gif"], ["png", "jpg", "jpeg", "webp", "gif"], Image),
    Rule(["video/mp4", "video/webm", "video/ogg"], ["mp4", "webm", "mkv", "mov"], Video),
    Rule(["audio/mpeg", "audio/wav", "audio/ogg", "audio/x-wav"], ["mp3", "wav", "ogg", "aac"], Audio)
  ]

  /** `file.name.split('.').pop()?.toLowerCase()`: the lower-cased text after the last '.', or the whole name. */
  function Extension(name: string): (r: string)
    ensures '.' !in r
    ensures '.' !in name ==> r == Lower(name)
  {
    Lower(LastSegment(name, '.'))
  }

  /** A rule accepts a file when its media type is listed, or its non-empty extension is. */
  predicate RuleMatches(rule: Rule, mime: string, ext: string) {
    mime in rule.mimeTypes || (ext != "" && ext in rule.extensions)
  }

  /** The position of the first rule from `from` on that accepts the file, or -1. */
  function FirstMatch(rules: seq<Rule>, mime: string, ext: string, from: nat): (i: int)
    requires from <= |rules|
    ensures i == -1 || from <= i < |rules|
    ensures i == -1 ==> forall j :: from <= j < |rules| ==> !RuleMatches(rules[j], mime, ext)
    ensures i >= 0 ==> RuleMatches(rules[i], mime, ext)
    ensures i >= 0 ==> forall j :: from <= j < i ==> !RuleMatches(rules[j], mime, ext)
    decreases |rules| - from
  {
    if from == |rules| then -1
    else if mime in rules[from].mimeTypes then from
    else if ext != "" && ext in rules[from].extensions then from
    else FirstMatch(rules, mime, ext, from + 1)
  }

  /** The coarse media-type prefix fallback, checked video, audio, image in that order. */
  function PrefixFallback(mime: string): (r: Option<FileType>)
    ensures r == Some(Video) <==> StartsWith(mime, "video/")
    ensures r == Some(Audio) <==> StartsWith(mime, "audio/") && !StartsWith(mime, "video/")
    ensures r == Some(Image) <==> StartsWith(mime, "image/") && !StartsWith(mime, "video/") && !StartsWith(mime, "audio/")
    ensures r.None? <==> !StartsWith(mime, "video/") && !StartsWith(mime, "audio/") && !StartsWith(mime, "image/")
  {
    if StartsWith(mime, "video/") then Some(Video)
    else if StartsWith(mime, "audio/") then Some(Audio)
    else if StartsWith(mime, "image/") then Some(Image)
    else None
  }

  /** `detectFileType`: the first matching rule's category, else the prefix fallback, else null. */
  function DetectFileType(f: File): (r: Option<FileType>)
    ensures forall j :: 0 <= j < |Rules| && RuleMatches(Rules[j], f.mime, Extension(f.name)) ==>
      r.Some? && exists i :: 0 <= i <= j && r.value == Rules[i].fileType && RuleMatches(Rules[i], f.mime, Extension(f.name))
    ensures (forall j :: 0 <= j < |Rules| ==> !RuleMatches(Rules[j], f.mime, Extension(f.name))) ==> r == PrefixFallback(f.mime)
  {
    Classify(f.mime, Extension(f.name))
  }

  /** `getAvailableFormats`: the matrix row of the detected category, or nothing. */
  function AvailableFormats(f: File): (r: seq<SupportedFormat>)
    ensures r == [] <==> DetectFileType(f).None?
    ensures DetectFileType(f).Some? ==> r == Matrix(DetectFileType(f).value)
  {
    var t := DetectFileType(f);
    MatrixWellFormed(if t.Some? then t.value else PdfDoc);
    if t.Some? then Matrix(t.value) else []
  }

  /** `getDefaultTargetFormat`: null exactly when undetected, otherwise the detected category's
      entry of the default-target table, which is one of the available formats. */
  function DefaultTargetFormat(f: File): (r: Option<SupportedFormat>)
    ensures r.None? <==> DetectFileType(f).None?
    ensures DetectFileType(f).Some? ==> r == Some(DefaultTarget(DetectFileType(f).value))
    ensures r.Some? ==> r.value in AvailableFormats(f)
  {
    var t := DetectFileType(f);
    if t.Some? then MatrixWellFormed(t.value); Some(DefaultTarget(t.value)) else None
  }

  /** The category an output format belongs to, as the rule table classifies it. */
  function CategoryOf(f: SupportedFormat): FileType {
    match f
    case Pdf => PdfDoc
    case Docx => DocxDoc
    case HtmlFormat => Html
    case Md => Markdown
    case TxtFormat => Txt
    case Png | Jpeg | Webp | Gif => Image
    case Mp4 | Webm => Video
    case Mp3 | Wav => Audio
  }

  /** Media-type evidence alone suffices, and so does extension evidence alone: a file typed
      `application/pdf` or named `*.pdf` (any case) is a PDF, whatever the other says. */
  lemma PdfEvidenceSuffices(f: File)
    requires f.mime == "application/pdf" || Extension(f.name) == "pdf"
    ensures DetectFileType(f) == Some(PdfDoc)
  {
    assert RuleMatches(Rules[0], f.mime, Extension(f.name));
  }

  /** Rules are scanned in order and a rule matches by media type or by extension, so an
      extension matching an earlier rule beats a media type matching a later one. */
  lemma EarlierRuleWins(f: File, i: nat, j: nat)
    requires i < j < |Rules|
    requires Extension(f.name) != "" && Extension(f.name) in Rules[i].extensions
    requires f.mime in Rules[j].mimeTypes
    requires forall k :: 0 <= k < i ==> !RuleMatches(Rules[k], f.mime, Extension(f.name))
    ensures DetectFileType(f) == Some(Rules[i].fileType)
  {
  }

  lemma PdfNameBeatsPlainTextType(text: string)
    ensures DetectFileType(File("x.pdf", "text/plain", text)) == Some(PdfDoc)
  {
    assert LastIndexOf("x.pdf", '.') == 1;
    assert Extension("x.pdf") == "pdf";
    PdfEvidenceSuffices(File("x.pdf", "text/plain", text));
  }

  /** A name without '.' is its own extension, lower-cased. */
  lemma BareNameIsExtension(text: string)
    ensures DetectFileType(File("TXT", "", text)) == Some(Txt)
  {
    var name := "TXT";
    assert '.' !in name;
    LowerOfTxt();
    ClassifyBy("", "txt", 4);
  }

  lemma LowerOfTxt()
    ensures Lower("TXT") == "txt"
  {
    var r := Lower("TXT");
    assert r[0] == 't' && r[1] == 'x' && r[2] == 't';
  }

  lemma TypeWithoutExtension(text: string)
    ensures DetectFileType(File("report", "application/pdf", text)) == Some(PdfDoc)
  {
    PdfEvidenceSuffices(File("report", "application/pdf", text));
  }

  /** When no rule accepts the file, the category comes from the media-type prefix alone,
      and a media type with none of the three prefixes is unknown. */
  lemma FallbackByPrefix(f: File)
    requires forall j :: 0 <= j < |Rules| ==> !RuleMatches(Rules[j], f.mime, Extension(f.name))
    ensures StartsWith(f.mime, "video/") ==> DetectFileType(f) == Some(Video)
    ensures !StartsWith(f.mime, "video/") && StartsWith(f.mime, "audio/") ==> DetectFileType(f) == Some(Audio)
    ensures !StartsWith(f.mime, "video/") && !StartsWith(f.mime, "audio/") && StartsWith(f.mime, "image/") ==>
      DetectFileType(f) == Some(Image)
    ensures !StartsWith(f.mime, "video/") && !StartsWith(f.mime, "audio/") && !StartsWith(f.mime, "image/") ==>
      DetectFileType(f) == None
  {
  }

  /** Classification reads only the name and the media type, never the content. */
  lemma DetectIgnoresContent(f: File, g: File)
    requires f.name == g.name && f.mime == g.mime
    ensures DetectFileType(f) == DetectFileType(g)
  {
  }

  /** The extension of `base.tag` is `tag` when `tag` is a lower-case format tag. */
  lemma ExtensionOfFormatName(base: string, fmt: SupportedFormat)
    ensures Extension(base + "." + FormatName(fmt)) == FormatName(fmt)
  {
    var x := FormatName(fmt);
    FormatNameIsLowerCase(fmt);
    LastSegmentAfter(base, x, '.');
    LowerOfLowerCase(x);
  }

  lemma FormatNameIsLowerCase(fmt: SupportedFormat)
    ensures '.' !in FormatName(fmt)
    ensures forall i :: 0 <= i < |FormatName(fmt)| ==> !IsUpperAscii(FormatName(fmt)[i])
  {
  }

  /** A file accepted by rule `c` and by no earlier rule is classified by rule `c`. */
  lemma ClassifiedBy(f: File, c: nat)
    requires c < |Rules|
    requires RuleMatches(Rules[c], f.mime, Extension(f.name))
    requires forall k :: 0 <= k < c ==> !RuleMatches(Rules[k], f.mime, Extension(f.name))
    ensures DetectFileType(f) == Some(Rules[c].fileType)
  {
  }

  /** Rule scan plus fallback on already-extracted evidence. */
  function Classify(mime: string, ext: string): (r: Option<FileType>)
    ensures forall c :: 0 <= c < |Rules| && RuleMatches(Rules[c], mime, ext) && NoEarlierMatch(mime, ext, c) ==>
      r == Some(Rules[c].fileType)
    ensures NoEarlierMatch(mime, ext, |Rules|) ==> r == PrefixFallback(mime)
  {
    var i := FirstMatch(Rules, mime, ext, 0);
    if i >= 0 then Some(Rules[i].fileType) else PrefixFallback(mime)
  }

  /** No rule before position `c` accepts the evidence. */
  predicate NoEarlierMatch(mime: string, ext: string, c: nat)
    requires c <= |Rules|
  {
    forall k :: 0 <= k < c ==> !RuleMatches(Rules[k], mime, ext)
  }

  /** Evidence accepted by rule `c` and by no earlier rule is classified by rule `c`. */
  lemma ClassifyBy(mime: string, ext: string, c: nat)
    requires c < |Rules|
    requires RuleMatches(Rules[c], mime, ext)
    requires forall k :: 0 <= k < c ==> !RuleMatches(Rules[k], mime, ext)
    ensures Classify(mime, ext) == Some(Rules[c].fileType)
  {
  }

  lemma ClassifyDocumentTag(fmt: SupportedFormat)
    requires fmt in {Pdf, Docx}
    ensures Classify(GetMimeType(fmt), FormatName(fmt)) == Some(CategoryOf(fmt))
  {
    if fmt == Pdf {
      ClassifyBy(GetMimeType(fmt), FormatName(fmt), 0);
    } else {
      ClassifyBy(GetMimeType(fmt), FormatName(fmt), 1);
    }
  }

  lemma ClassifyMarkupTag(fmt: SupportedFormat)
    requires fmt in {Md, HtmlFormat}
    ensures Classify(GetMimeType(fmt), FormatName(fmt)) == Some(CategoryOf(fmt))
  {
    if fmt == Md {
      ClassifyBy(GetMimeType(fmt), FormatName(fmt), 2);
    } else {
      ClassifyBy(GetMimeType(fmt), FormatName(fmt), 3);
    }
  }

  lemma ClassifyTextTag()
    ensures Classify(GetMimeType(TxtFormat), FormatName(TxtFormat)) == Some(CategoryOf(TxtFormat))
  {
    ClassifyBy(GetMimeType(TxtFormat), FormatName(TxtFormat), 4);
  }

  lemma ClassifyImageTag(fmt: SupportedFormat)
    requires fmt in {Png, Jpeg, Webp, Gif}
    ensures Classify(GetMimeType(fmt), FormatName(fmt)) == Some(CategoryOf(fmt))
  {
    if fmt in {Png, Jpeg} {
      ClassifyPhotoTag(fmt);
    } else {
      ClassifyWebTag(fmt);
    }
  }

  lemma ClassifyPhotoTag(fmt: SupportedFormat)
    requires fmt in {Png, Jpeg}
    ensures Classify(GetMimeType(fmt), FormatName(fmt)) == Some(CategoryOf(fmt))
  {
    ClassifyBy(GetMimeType(fmt), FormatName(fmt), 5);
  }

  lemma ClassifyWebTag(fmt: SupportedFormat)
    requires fmt in {Webp, Gif}
    ensures Classify(GetMimeType(fmt), FormatName(fmt)) == Some(CategoryOf(fmt))
  {
    ClassifyBy(GetMimeType(fmt), FormatName(fmt), 5);
  }

  lemma ClassifyVideoTag(fmt: SupportedFormat)
    requires fmt in {Mp4, Webm}
    ensures Classify(GetMimeType(fmt), FormatName(fmt)) == Some(CategoryOf(fmt))
  {
    ClassifyBy(GetMimeType(fmt), FormatName(fmt), 6);
  }

  lemma ClassifyAudioTag(fmt: SupportedFormat)
    requires fmt in {Mp3, Wav}
    ensures Classify(GetMimeType(fmt), FormatName(fmt)) == Some(CategoryOf(fmt))
  {
    ClassifyBy(GetMimeType(fmt), FormatName(fmt), 7);
  }

  lemma ClassifyOwnTag(fmt: SupportedFormat)
    ensures Classify(GetMimeType(fmt), FormatName(fmt)) == Some(CategoryOf(fmt))
  {
    if fmt in {Pdf, Docx} {
      ClassifyDocumentTag(fmt);
    } else if fmt in {Md, HtmlFormat} {
      ClassifyMarkupTag(fmt);
    } else if fmt == TxtFormat {
      ClassifyTextTag();
    } else if fmt in {Png, Jpeg, Webp, Gif} {
      ClassifyImageTag(fmt);
    } else if fmt in {Mp4, Webm} {
      ClassifyVideoTag(fmt);
    } else {
      ClassifyAudioTag(fmt);
    }
  }

  /** The tables agree: a produced file, named with its format tag and typed with its format's
      media type, classifies as that format's category. */
  lemma OutputReclassifies(base: string, fmt: SupportedFormat, text: string)
    ensures DetectFileType(File(base + "." + FormatName(fmt), GetMimeType(fmt), text)) == Some(CategoryOf(fmt))
  {
    ExtensionOfFormatName(base, fmt);
    ClassifyOwnTag(fmt);
  }
}
