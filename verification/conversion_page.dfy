/**
  The conversion page's derived values: the formats offered for the selected
  file, the warning shown for the chosen pathway, the reaction to a newly
  selected file, and the name proposed for the download.
 */
module ConversionPage {
  import opened Outcomes
  import opened Text
  import opened Media
  import opened ConversionConfig
  import opened ConversionStrategy
  import Batch

  datatype PageState = PageState(selectedFile: Option<File>, targetFormat: string, convertedFileUrl: Option<string>)

  /** The page after a selection, and whether the media engine is asked to load. */
  datatype Selection = Selection(state: PageState, loadsMediaEngine: bool)

  /** `availableFormats`. */
  function AvailableFormatsFor(selected: Option<File>): (r: seq<SupportedFormat>)
    ensures selected.None? ==> r == []
    ensures selected.Some? && DetectFileType(selected.value).None? ==> r == []
    ensures selected.Some? && DetectFileType(selected.value).Some? ==> r == Matrix(DetectFileType(selected.value).value)
  {
    match selected
    case None => []
    case Some(f) => AvailableFormats(f)
  }

  const HighFidelity: string := "\U{2728} Conversion haute fid\U{E9}lit\U{E9} via CloudConvert API"
  const ApiMissing: string := "\U{26A0}\U{FE0F} API non configur\U{E9}e : La mise en forme sera perdue (texte brut uniquement)"
  const FormatLoss: string := "\U{26A0}\U{FE0F} La mise en forme sera perdue (texte brut uniquement)"
  const BasicPdf: string := "\U{2139}\U{FE0F} Cr\U{E9}ation de PDF basique (texte brut)"
  const BasicDocx: string := "\U{2139}\U{FE0F} Cr\U{E9}ation de DOCX basique (texte brut)"
  const SlowGif: string := "\U{2139}\U{FE0F} La conversion en GIF peut prendre du temps"
  const H264: string := "\U{2139}\U{FE0F} Encodage H.264 en cours..."
  const Vp9: string := "\U{2139}\U{FE0F} Encodage VP9 en cours..."

  /** The fixed warnings, keyed like the registry. */
  const Warnings: map<string, string> := map[
    "pdf->txt" := FormatLoss, "pdf->html" := FormatLoss, "pdf->md" := FormatLoss, "docx->txt" := FormatLoss,
    "txt->pdf" := BasicPdf, "txt->docx" := BasicDocx,
    "video->gif" := SlowGif, "video->mp4" := H264, "video->webm" := Vp9]

  /** `warnings[key] || null`: every value is non-empty, so only an absent key gives null. */
  function LookupWarning(key: string): (r: Option<string>)
    ensures r.Some? <==> key in Warnings
    ensures r.Some? ==> r.value == Warnings[key] && r.value != ""
  {
    if key in Warnings && Warnings[key] != "" then Some(Warnings[key]) else None
  }

  /** The warning for a detected category and a non-empty target. */
  function PathwayWarning(t: FileType, target: string, apiConfigured: bool): (r: Option<string>)
    ensures Key(t, target) == "pdf->docx" ==> r == Some(if apiConfigured then HighFidelity else ApiMissing)
    ensures Key(t, target) != "pdf->docx" ==> r == LookupWarning(Key(t, target))
  {
    var key := Key(t, target);
    if key == "pdf->docx" then Some(if apiConfigured then HighFidelity else ApiMissing)
    else LookupWarning(key)
  }

  /** `conversionWarning`. */
  function ConversionWarning(selected: Option<File>, target: string, apiConfigured: bool): (r: Option<string>)
    ensures selected.None? || target == "" ==> r.None?
    ensures selected.Some? && DetectFileType(selected.value).None? ==> r.None?
    ensures selected.Some? && target != "" && DetectFileType(selected.value).Some? ==>
      r == PathwayWarning(DetectFileType(selected.value).value, target, apiConfigured)
  {
    if selected.None? || target == "" then None
    else
      match DetectFileType(selected.value)
      case None => None
      case Some(t) => PathwayWarning(t, target, apiConfigured)
  }

  /** Only the pdf to docx warning depends on whether the remote service is configured;
      it announces the remote conversion when it is, and the loss of formatting when not. */
  lemma ApiFlagMattersOnlyForPdfToDocx(t: FileType, target: string)
    ensures PathwayWarning(t, target, true) != PathwayWarning(t, target, false) <==> t == PdfDoc && target == "docx"
    ensures t == PdfDoc && target == "docx" ==>
      PathwayWarning(t, target, true) == Some(HighFidelity) && PathwayWarning(t, target, false) == Some(ApiMissing)
  {
    assert Key(PdfDoc, "docx") == "pdf->docx";
    if Key(t, target) == "pdf->docx" {
      KeyInjective(t, target, PdfDoc, "docx");
    }
  }

  /** The table holds exactly these nine keys. */
  lemma WarningKeys(key: string)
    requires key in Warnings
    ensures key == "pdf->txt" || key == "pdf->html" || key == "pdf->md" || key == "docx->txt" || key == "txt->pdf" ||
      key == "txt->docx" || key == "video->gif" || key == "video->mp4" || key == "video->webm"
  {
  }

  /** The registered pathway each fixed warning is about. */
  function WarningPathway(key: string): (r: (FileType, SupportedFormat))
    requires key in Warnings
    ensures r.1 in Matrix(r.0)
  {
    if key == "pdf->txt" then (PdfDoc, TxtFormat)
    else if key == "pdf->html" then (PdfDoc, HtmlFormat)
    else if key == "pdf->md" then (PdfDoc, Md)
    else if key == "docx->txt" then (DocxDoc, TxtFormat)
    else if key == "txt->pdf" then (Txt, Pdf)
    else if key == "txt->docx" then (Txt, Docx)
    else if key == "video->gif" then (Video, Gif)
    else if key == "video->mp4" then (Video, Mp4)
    else (Video, Webm)
  }

  /** Each warning key is the registry key of its pathway. */
  lemma WarningPathwayKey(key: string)
    requires key in Warnings
    ensures Key(WarningPathway(key).0, FormatName(WarningPathway(key).1)) == key
  {
    WarningKeys(key);
    if key == "pdf->txt" || key == "pdf->html" || key == "pdf->md" {
      PdfWarningKeys();
    } else if key == "docx->txt" || key == "txt->pdf" || key == "txt->docx" {
      TextWarningKeys();
    } else {
      VideoWarningKeys();
    }
  }

  lemma PdfWarningKeys()
    ensures Key(PdfDoc, FormatName(TxtFormat)) == "pdf->txt"
    ensures Key(PdfDoc, FormatName(HtmlFormat)) == "pdf->html"
    ensures Key(PdfDoc, FormatName(Md)) == "pdf->md"
  {
  }

  lemma TextWarningKeys()
    ensures Key(DocxDoc, FormatName(TxtFormat)) == "docx->txt"
    ensures Key(Txt, FormatName(Pdf)) == "txt->pdf"
    ensures Key(Txt, FormatName(Docx)) == "txt->docx"
  {
  }

  lemma VideoWarningKeys()
    ensures Key(Video, FormatName(Gif)) == "video->gif"
    ensures Key(Video, FormatName(Mp4)) == "video->mp4"
    ensures Key(Video, FormatName(Webm)) == "video->webm"
  {
  }

  /** A warning is only ever shown for a pathway the registry serves. */
  lemma PathwayWarningIsServed(t: FileType, target: string, api: bool)
    requires PathwayWarning(t, target, api).Some?
    ensures exists fmt :: ParseFormat(target) == Some(fmt) && fmt in Matrix(t)
  {
    var key := Key(t, target);
    if key == "pdf->docx" {
      assert key == Key(PdfDoc, FormatName(Docx));
      KeyOfFormat(t, target, PdfDoc, Docx);
      assert Docx in Matrix(PdfDoc);
    } else {
      var p := WarningPathway(key);
      WarningPathwayKey(key);
      KeyOfFormat(t, target, p.0, p.1);
    }
  }

  /** The page shows a warning only for a classified file and a target it can convert to. */
  lemma WarningOnlyForServedPathways(f: File, target: string, api: bool)
    ensures ConversionWarning(Some(f), target, api).Some? ==>
      DetectFileType(f).Some? &&
      exists fmt :: ParseFormat(target) == Some(fmt) && fmt in Matrix(DetectFileType(f).value)
  {
    if ConversionWarning(Some(f), target, api).Some? {
      PathwayWarningIsServed(DetectFileType(f).value, target, api);
    }
  }

  /** `onFileSelected`. */
  function OnFileSelected(s: PageState, file: Option<File>): (r: Selection)
    ensures file.None? ==> r.state == s.(selectedFile := None) && !r.loadsMediaEngine
    ensures file.Some? ==> r.state.selectedFile == file && r.state.convertedFileUrl.None?
    ensures file.Some? && DefaultTargetFormat(file.value).Some? ==>
      r.state.targetFormat == FormatName(DefaultTargetFormat(file.value).value)
    ensures file.Some? && DefaultTargetFormat(file.value).None? ==> r.state.targetFormat == s.targetFormat
    ensures r.loadsMediaEngine <==> file.Some? && (StartsWith(file.value.mime, "video/") || StartsWith(file.value.mime, "audio/"))
  {
    match file
    case None => Selection(s.(selectedFile := None), false)
    case Some(f) =>
      var target := match DefaultTargetFormat(f) case Some(d) => FormatName(d) case None => s.targetFormat;
      Selection(PageState(Some(f), target, None), StartsWith(f.mime, "video/") || StartsWith(f.mime, "audio/"))
  }

  /** Selecting a classifiable file leaves a target the page offers for it, and one the
      converter accepts. */
  lemma SelectedTargetIsOffered(s: PageState, f: File)
    ensures DetectFileType(f).Some? ==>
      var st := OnFileSelected(s, Some(f)).state;
      exists fmt :: ParseFormat(st.targetFormat) == Some(fmt) && fmt in AvailableFormatsFor(st.selectedFile)
  {
    if DetectFileType(f).Some? {
      var d := DefaultTargetFormat(f).value;
      ParseFormatName(d);
    }
  }

  const FallbackDownloadName: string := "converted-file"

  /** `getDownloadName`: the name up to its last '.', then '.' and the target. */
  function GetDownloadName(selected: Option<File>, target: string): (r: string)
    ensures selected.None? ==> r == FallbackDownloadName
    ensures selected.Some? && '.' in selected.value.name ==>
      selected.value.name == BeforeLast(selected.value.name, '.') + ['.'] + LastSegment(selected.value.name, '.') &&
      r == BeforeLast(selected.value.name, '.') + "." + target
  {
    match selected
    case None => FallbackDownloadName
    case Some(f) => BeforeLast(f.name, '.') + "." + target
  }

  /** A name without '.' loses the whole name: `substring(0, -1)` is empty. */
  lemma DownloadNameOfDotlessName(f: File, target: string)
    requires '.' !in f.name
    ensures GetDownloadName(Some(f), target) == "." + target
  {
  }

  /** The download name with the batch's fallback to the whole name. */
  function DownloadNameWithFallback(selected: Option<File>, target: string): (r: string)
    ensures selected.None? ==> r == FallbackDownloadName
    ensures selected.Some? && '.' !in selected.value.name ==> r == selected.value.name + "." + target
    ensures selected.Some? && '.' in selected.value.name && selected.value.name[0] != '.' ==>
      r == BeforeLast(selected.value.name, '.') + "." + target
  {
    match selected
    case None => FallbackDownloadName
    case Some(f) =>
      var stem := BeforeLast(f.name, '.');
      (if stem == "" then f.name else stem) + "." + target
  }

  /** With the fallback the page proposes the same name as the batch archive does. */
  lemma DownloadNameAgreesWithArchive(f: File, target: string, job: Batch.BatchJob)
    requires job.file == f && job.targetFormat == target
    ensures DownloadNameWithFallback(Some(f), target) == Batch.EntryName(job)
  {
  }
}
