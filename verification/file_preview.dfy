/**
  The preview panel: how a selected file is shown, decided from its media
  type first and its name second, and the shortened text of a text preview.
 */
module FilePreview {
  import opened Text
  import opened Media

  datatype PreviewType = ImagePreview | VideoPreview | AudioPreview | PdfPreview | TextPreview | UnknownPreview

  /** A name the text preview recognises by its ending. */
  predicate TextName(name: string)
    ensures TextName(name) <==> exists stem :: name == stem + ".md" || name == stem + ".txt" || name == stem + ".html"
  {
    EndsWith(name, ".md") || EndsWith(name, ".txt") || EndsWith(name, ".html")
  }

  lemma PdfTypeHasNoMediaPrefix()
    ensures !StartsWith("application/pdf", "image/") && !StartsWith("application/pdf", "video/") &&
      !StartsWith("application/pdf", "audio/")
  {
    assert "application/pdf"[0] == 'a' && "image/"[0] == 'i' && "video/"[0] == 'v';
    assert "application/pdf"[1] == 'p' && "audio/"[1] == 'u';
  }

  /** `previewType`. */
  function PreviewTypeOf(f: File): (r: PreviewType)
    ensures r == ImagePreview <==> StartsWith(f.mime, "image/")
    ensures r == VideoPreview <==> StartsWith(f.mime, "video/") && !StartsWith(f.mime, "image/")
    ensures r == AudioPreview <==> StartsWith(f.mime, "audio/") && !StartsWith(f.mime, "image/") && !StartsWith(f.mime, "video/")
    ensures r == PdfPreview <==> f.mime == "application/pdf"
    ensures r == TextPreview <==>
      !StartsWith(f.mime, "image/") && !StartsWith(f.mime, "video/") && !StartsWith(f.mime, "audio/") &&
      f.mime != "application/pdf" && (f.mime == "text/plain" || TextName(f.name))
  {
    PdfTypeHasNoMediaPrefix();
    if StartsWith(f.mime, "image/") then ImagePreview
    else if StartsWith(f.mime, "video/") then VideoPreview
    else if StartsWith(f.mime, "audio/") then AudioPreview
    else if f.mime == "application/pdf" then PdfPreview
    else if f.mime == "text/plain" || TextName(f.name) then TextPreview
    else UnknownPreview
  }

  /** A media prefix decides the preview whatever the name says. */
  lemma MediaPrefixOverridesName(f: File, g: File)
    requires f.mime == g.mime
    requires StartsWith(f.mime, "image/") || StartsWith(f.mime, "video/") || StartsWith(f.mime, "audio/")
    ensures PreviewTypeOf(f) == PreviewTypeOf(g)
  {
  }

  /** A file falls through to the unknown preview exactly when no test accepts it. */
  lemma UnknownIffNothingMatches(f: File)
    ensures PreviewTypeOf(f) == UnknownPreview <==>
      !StartsWith(f.mime, "image/") && !StartsWith(f.mime, "video/") && !StartsWith(f.mime, "audio/") &&
      f.mime != "application/pdf" && f.mime != "text/plain" && !TextName(f.name)
  {
  }

  const PreviewLimit: nat := 1000

  /** `text.slice(0, 1000) + (text.length > 1000 ? '...' : '')`. */
  function PreviewText(text: string): (r: string)
    ensures |text| <= PreviewLimit ==> r == text
    ensures |text| > PreviewLimit ==> |r| == PreviewLimit + 3 && r[..PreviewLimit] == text[..PreviewLimit] && r[PreviewLimit..] == "..."
  {
    if |text| > PreviewLimit then text[..PreviewLimit] + "..." else text
  }

  /** The preview starts with the text's own beginning and is never longer than the limit plus the ellipsis. */
  lemma PreviewTextIsPrefix(text: string)
    ensures |PreviewText(text)| <= PreviewLimit + 3
    ensures var n := if |text| < PreviewLimit then |text| else PreviewLimit;
      PreviewText(text)[..n] == text[..n]
  {
  }

  /** Shortening is stable: a preview of a short enough preview is itself. */
  lemma PreviewOfShortText(text: string)
    requires |text| <= PreviewLimit
    ensures PreviewText(PreviewText(text)) == text
  {
  }
}
