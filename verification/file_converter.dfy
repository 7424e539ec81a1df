/**
  The conversion facade: detect the category of the upload, look up the
  handler for the requested target, and run it. Both lookups that can fail
  reject with an `Error` whose message names what was missing.
 */
module FileConverter {
  import opened Outcomes
  import opened Media
  import opened ConversionConfig
  import opened ConversionStrategy

  const UnknownFileType: string := "Unknown file type"

  function NotSupported(source: FileType, target: string): (r: string)
    ensures r != UnknownFileType
  {
    assert ("Conversion from " + TypeName(source) + " to " + target + " not supported")[0] == 'C';
    "Conversion from " + TypeName(source) + " to " + target + " not supported"
  }

  /** `FileConverterService.convert` against a given registry. */
  function ConvertWith(reg: Registry, f: File, target: string, env: Env): (r: Result<Blob>)
    ensures DetectFileType(f).None? ==> r == Err(ErrorObject(UnknownFileType))
    ensures DetectFileType(f).Some? && !CanConvert(reg, DetectFileType(f).value, target) ==>
      r == Err(ErrorObject(NotSupported(DetectFileType(f).value, target)))
    ensures DetectFileType(f).Some? && CanConvert(reg, DetectFileType(f).value, target) ==>
      exists fmt :: ParseFormat(target) == Some(fmt) && (DetectFileType(f).value, fmt) in reg &&
        r == Run(reg[(DetectFileType(f).value, fmt)], f, env)
  {
    match DetectFileType(f)
    case None => Err(ErrorObject(UnknownFileType))
    case Some(source) =>
      match GetHandler(reg, source, target)
      case None => Err(ErrorObject(NotSupported(source, target)))
      case Some(h) => Run(h, f, env)
  }

  /** The service as the application wires it, with the constructed registry. */
  function Convert(f: File, target: string, env: Env): (r: Result<Blob>)
    ensures DetectFileType(f).None? ==> r == Err(ErrorObject(UnknownFileType))
    ensures r.Ok? ==> DetectFileType(f).Some? && ParseFormat(target).Some?
    ensures r.Ok? ==> ParseFormat(target).value in Matrix(DetectFileType(f).value)
  {
    if DetectFileType(f).Some? && ParseFormat(target).Some? then
      StrategiesCoverMatrix(DetectFileType(f).value, ParseFormat(target).value);
      ConvertWith(Strategies(), f, target, env)
    else
      ConvertWith(Strategies(), f, target, env)
  }

  /** Against the constructed registry the facade follows the conversion matrix: a target in
      the detected category's row runs that pair's handler, any other target is rejected as
      not supported before a handler runs. */
  lemma ConvertFollowsMatrix(f: File, target: string, env: Env)
    ensures DetectFileType(f).Some? && (exists fmt :: ParseFormat(target) == Some(fmt) && fmt in Matrix(DetectFileType(f).value)) ==>
      exists fmt :: ParseFormat(target) == Some(fmt) && (DetectFileType(f).value, fmt) in Strategies() &&
        Convert(f, target, env) == Run(Strategies()[(DetectFileType(f).value, fmt)], f, env)
    ensures DetectFileType(f).Some? && !(exists fmt :: ParseFormat(target) == Some(fmt) && fmt in Matrix(DetectFileType(f).value)) ==>
      Convert(f, target, env) == Err(ErrorObject(NotSupported(DetectFileType(f).value, target)))
  {
    if DetectFileType(f).Some? {
      HandlerExistsIffInMatrix(DetectFileType(f).value, target);
    }
  }

  /** A file named and typed for a format, asked for any target registered for that format's
      category, is handed to exactly the handler registered for the pair. */
  lemma ConvertNamedFile(base: string, src: SupportedFormat, text: string, i: nat, env: Env)
    requires i < |Registrations| && Registrations[i].0 == CategoryOf(src)
    ensures Convert(File(base + "." + FormatName(src), GetMimeType(src), text), FormatName(Registrations[i].1), env) ==
      Run(Registrations[i].2, File(base + "." + FormatName(src), GetMimeType(src), text), env)
  {
    OutputReclassifies(base, src, text);
    RegisteredHandlerIsFound(i);
  }

  /** End to end, a local pathway's output is typed with the media type of the requested
      target. */
  lemma ConvertLocalOutputType(base: string, src: SupportedFormat, text: string, i: nat, env: Env)
    requires i < |Registrations| && Registrations[i].0 == CategoryOf(src)
    requires LocalTarget(Registrations[i].2).Some?
    ensures var f := File(base + "." + FormatName(src), GetMimeType(src), text);
      var r := Convert(f, FormatName(Registrations[i].1), env);
      r.Ok? ==> r.value.mime == GetMimeType(Registrations[i].1)
  {
    var f := File(base + "." + FormatName(src), GetMimeType(src), text);
    ConvertNamedFile(base, src, text, i, env);
    if Run(Registrations[i].2, f, env).Ok? {
      LocalOutputType(Registrations[i].2, f, env);
      LocalTargetIsRegisteredTarget(i);
    }
  }

}
