/**
  The upload drop zone: which files it accepts, and what it holds, shows
  and emits after a drop, a selection through the file input, or a clear.
 */
module Dropzone {
  import opened Outcomes
  import opened Text
  import opened Media
  import opened ConversionConfig

  /** `ALLOWED_TYPES`. */
  const AllowedTypes: seq<string> := [
    "image/png", "image/jpeg", "image/webp", "image/gif",
    "video/mp4", "video/webm",
    "application/pdf",
    "application/vnd.openxmlformats-officedocument.wordprocessingml.document",
    "text/plain"]

  /** The extensions accepted when the media type is not in the list. */
  const AllowedExtensions: seq<string> := ["png", "jpg", "jpeg", "webp", "gif", "mp4", "webm", "pdf", "docx", "txt"]

  const UnsupportedMessage: string := "Unsupported file type. Please upload an Image, Video, PDF, DOCX, or TXT file."

  /** The test of `isValidFileType`: a listed media type, or a non-empty listed extension. */
  predicate AcceptedEvidence(f: File) {
    f.mime in AllowedTypes || (Extension(f.name) != "" && Extension(f.name) in AllowedExtensions)
  }

  /** `isValidFileType`; every file it accepts is one the converter can classify. */
  predicate IsValidFileType(f: File)
    ensures IsValidFileType(f) <==> AcceptedEvidence(f)
    ensures IsValidFileType(f) ==> DetectFileType(f).Some?
  {
    if AcceptedEvidence(f) then AcceptedEvidenceIsClassified(f); true else false
  }

  datatype DropzoneState = DropzoneState(isDragging: bool, selectedFile: Option<File>, error: Option<string>)

  /** What the `fileSelected` output sees after an event: nothing, or one emitted value. */
  datatype Emission = Silent | Emitted(file: Option<File>)

  datatype Outcome = Outcome(state: DropzoneState, emission: Emission)

  /** `handleFile`. */
  function HandleFile(s: DropzoneState, f: File): (r: Outcome)
    ensures !IsValidFileType(f) ==> r.state == s.(selectedFile := None, error := Some(UnsupportedMessage))
    ensures IsValidFileType(f) ==> r.state == s.(selectedFile := Some(f))
    ensures r.emission == Emitted(r.state.selectedFile)
  {
    if !IsValidFileType(f) then
      var t := s.(error := Some(UnsupportedMessage), selectedFile := None);
      Outcome(t, Emitted(None))
    else
      Outcome(s.(selectedFile := Some(f)), Emitted(Some(f)))
  }

  /** `onDrop`: stop dragging, clear the error, and handle the first dropped file only. */
  function OnDrop(s: DropzoneState, files: seq<File>): (r: Outcome)
    ensures !r.state.isDragging
    ensures |files| == 0 ==> r == Outcome(s.(isDragging := false, error := None), Silent)
    ensures |files| > 0 ==> r == HandleFile(s.(isDragging := false, error := None), files[0])
  {
    var t := s.(isDragging := false, error := None);
    if |files| > 0 then HandleFile(t, files[0]) else Outcome(t, Silent)
  }

  /** `onFileSelected`: the first chosen file is handled; the previous error is not cleared. */
  function OnInputSelected(s: DropzoneState, files: seq<File>): (r: Outcome)
    ensures |files| == 0 ==> r == Outcome(s, Silent)
    ensures |files| > 0 ==> r == HandleFile(s, files[0])
  {
    if |files| > 0 then HandleFile(s, files[0]) else Outcome(s, Silent)
  }

  /** `clearFile`. */
  function ClearFile(s: DropzoneState): (r: Outcome)
    ensures r.state.selectedFile.None? && r.state.error.None? && r.state.isDragging == s.isDragging
    ensures r.emission == Emitted(None)
  {
    Outcome(s.(selectedFile := None, error := None), Emitted(None))
  }

  function OnDragOver(s: DropzoneState): (r: DropzoneState)
    ensures r.isDragging && r.selectedFile == s.selectedFile && r.error == s.error
  {
    s.(isDragging := true)
  }

  function OnDragLeave(s: DropzoneState): (r: DropzoneState)
    ensures !r.isDragging && r.selectedFile == s.selectedFile && r.error == s.error
  {
    s.(isDragging := false)
  }

  /** The drop zone shows an error exactly when the last drop was rejected. */
  lemma DropErrorIffRejected(s: DropzoneState, files: seq<File>)
    ensures OnDrop(s, files).state.error.Some? <==> |files| > 0 && !IsValidFileType(files[0])
    ensures |files| > 0 ==> (OnDrop(s, files).state.selectedFile == Some(files[0]) <==> IsValidFileType(files[0]))
  {
  }

  /** Files after the first in a drop play no part. */
  lemma DropIgnoresLaterFiles(s: DropzoneState, f: File, rest: seq<File>)
    ensures OnDrop(s, [f] + rest) == OnDrop(s, [f])
  {
  }

  /** Choosing a valid file through the input keeps a message left by an earlier rejection. */
  lemma InputSelectionKeepsStaleError(s: DropzoneState, bad: File, good: File)
    ensures !IsValidFileType(bad) && IsValidFileType(good) ==>
      var r := OnInputSelected(OnInputSelected(s, [bad]).state, [good]);
      r.state.selectedFile == Some(good) && r.state.error == Some(UnsupportedMessage)
  {
  }

  /** A listed media type is accepted whatever the name. */
  lemma AllowedTypeSuffices(f: File)
    requires f.mime in AllowedTypes
    ensures IsValidFileType(f)
  {
  }

  /** Without a listed media type, acceptance is exactly a listed extension; the whole
      name counts as the extension when it has no '.'. */
  lemma ExtensionDecides(f: File)
    requires f.mime !in AllowedTypes
    ensures IsValidFileType(f) <==> Extension(f.name) in AllowedExtensions
    ensures '.' !in f.name ==> (IsValidFileType(f) <==> Lower(f.name) in AllowedExtensions)
  {
    assert forall k :: 0 <= k < |AllowedExtensions| ==> |AllowedExtensions[k]| > 0;
    var ext := Extension(f.name);
    assert ext in AllowedExtensions ==> ext != "";
  }

  /** Markdown and HTML uploads are refused even though the converter handles them. */
  lemma MarkdownAndHtmlRejected(stem: string, text: string)
    ensures !IsValidFileType(File(stem + ".md", "text/markdown", text))
    ensures !IsValidFileType(File(stem + ".html", "text/html", text))
  {
    assert stem + ".md" == stem + ['.'] + "md";
    assert stem + ".html" == stem + ['.'] + "html";
    MarkdownIsUnlisted();
    HtmlIsUnlisted();
    RejectedByNameAndType(stem, "md", "text/markdown", text);
    RejectedByNameAndType(stem, "html", "text/html", text);
  }

  lemma MarkdownIsUnlisted()
    ensures "text/markdown" !in AllowedTypes && "md" !in AllowedExtensions
  {
  }

  lemma HtmlIsUnlisted()
    ensures "text/html" !in AllowedTypes && "html" !in AllowedExtensions
  {
  }

  /** A file with an unlisted media type and an unlisted lower-case extension is refused. */
  lemma RejectedByNameAndType(stem: string, ext: string, mime: string, text: string)
    requires '.' !in ext && forall i :: 0 <= i < |ext| ==> !IsUpperAscii(ext[i])
    requires mime !in AllowedTypes && ext !in AllowedExtensions
    ensures !IsValidFileType(File(stem + ['.'] + ext, mime, text))
  {
    LastSegmentAfter(stem, ext, '.');
    LowerOfLowerCase(ext);
  }

  /** Each accepted media type is one a classification rule lists. */
  lemma AllowedTypeIsClassified(i: nat)
    requires i < |AllowedTypes|
    ensures exists j :: 0 <= j < |Rules| && AllowedTypes[i] in Rules[j].mimeTypes
  {
    if i < 4 { assert AllowedTypes[i] in Rules[5].mimeTypes; }
    else if i < 6 { assert AllowedTypes[i] in Rules[6].mimeTypes; }
    else if i == 6 { assert AllowedTypes[i] in Rules[0].mimeTypes; }
    else if i == 7 { assert AllowedTypes[i] in Rules[1].mimeTypes; }
    else { assert AllowedTypes[i] in Rules[4].mimeTypes; }
  }

  /** Each accepted extension is one a classification rule lists. */
  lemma AllowedExtensionIsClassified(i: nat)
    requires i < |AllowedExtensions|
    ensures exists j :: 0 <= j < |Rules| && AllowedExtensions[i] in Rules[j].extensions
  {
    if i < 5 { assert AllowedExtensions[i] in Rules[5].extensions; }
    else if i < 7 { assert AllowedExtensions[i] in Rules[6].extensions; }
    else if i == 7 { assert AllowedExtensions[i] in Rules[0].extensions; }
    else if i == 8 { assert AllowedExtensions[i] in Rules[1].extensions; }
    else { assert AllowedExtensions[i] in Rules[4].extensions; }
  }

  /** Every file the drop zone accepts is one the converter can classify. */
  lemma AcceptedFilesAreClassified(f: File)
    requires IsValidFileType(f)
    ensures DetectFileType(f).Some?
  {
    AcceptedEvidenceIsClassified(f);
  }

  lemma AcceptedEvidenceIsClassified(f: File)
    requires AcceptedEvidence(f)
    ensures DetectFileType(f).Some?
  {
    var ext := Extension(f.name);
    if f.mime in AllowedTypes {
      var i :| 0 <= i < |AllowedTypes| && AllowedTypes[i] == f.mime;
      AllowedTypeIsClassified(i);
      var j :| 0 <= j < |Rules| && AllowedTypes[i] in Rules[j].mimeTypes;
      assert RuleMatches(Rules[j], f.mime, ext);
    } else {
      var i :| 0 <= i < |AllowedExtensions| && AllowedExtensions[i] == ext;
      AllowedExtensionIsClassified(i);
      var j :| 0 <= j < |Rules| && AllowedExtensions[i] in Rules[j].extensions;
      assert RuleMatches(Rules[j], f.mime, ext);
    }
  }
}
