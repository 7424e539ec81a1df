# File-conversion tools, modelled in Dafny

This project models the browser-side file-conversion tools of an Angular application. It covers:

- the static conversion configuration: input categories, output formats, the conversion matrix, media types, the ordered detection rules and default targets;
- the pathway registry of the strategy service, its handlers, and the hybrid PDF to DOCX pathway with its local fallback;
- the conversion facade, which classifies a file, resolves a handler and runs it;
- the batch coordinator: a queue of jobs moving pending → processing → completed | error, plus archive entry naming and statistics;
- plain-text document generation: jsPDF pagination and DOCX paragraphs;
- the smaller pieces around them:
  - the upload drop zone's validator;
  - the conversion page's warning and download name;
  - the preview classifier;
  - the RGBA filter loop and rotation canvas size;
  - the password generator;
  - the search history;
  - the navigation search dialog;
  - emoji completion in the Markdown editor;
  - the scroll-hide directive;
  - the maintenance guard and flag.

Every module is one component of the application. Two shared modules support them:

- `Text` models the JavaScript string operations the components use: `split`/`pop`, `lastIndexOf`, `includes`, `startsWith` and ASCII `toLowerCase`.
- `Outcomes` models `T | null`, thrown values and settled promises.

What the application gets from outside is passed in as a parameter:

- library calls (pdf.js, mammoth, marked, turndown, html2canvas, jsPDF's `splitTextToSize`, ffmpeg, canvas encoding) are function fields of an `Env`. The audio service's two conversions are the video converter's `extractAudio`, and the `docxToHtml` field is the HTML conversion the docx pathways expect, used only by the corrected pathways (see Findings);
- the remote CloudConvert service is an API key plus an oracle function;
- the converter given to a batch run is a function from (file, target) to a result;
- `crypto.randomUUID`, `crypto.getRandomValues` and `Date.now` are arguments.

## Model

| member | source | states |
|---|---|---|
| ConversionConfig.ParseFormatName | src/app/core/config/conversion-config.ts:7 | every format tag reads back as its format, so the thirteen tags are pairwise distinct |
| ConversionConfig.ParseFormat | src/app/core/config/conversion-config.ts:7 | a text that parses is a format's name, and one that does not is no format's name |
| ConversionConfig.Matrix | src/app/core/config/conversion-config.ts:12-28 | every category has a non-empty list of targets without repeats |
| ConversionConfig.DefaultTarget | src/app/core/config/conversion-config.ts:104-113 | each category's default target is one of its matrix targets |
| ConversionConfig.TypeNameHasNoDash | src/app/core/config/conversion-config.ts:6 | no category tag contains '-', which keeps `type->target` registry keys unambiguous |
| ConversionConfig.MatrixWellFormed | src/app/core/config/conversion-config.ts:12-28 | every category has at least one target, its default target is in its row, and no row lists a target twice |
| ConversionConfig.MimeTableTotal | src/app/core/config/conversion-config.ts:33-47 | the media-type table has a non-empty entry for every format, none of them the octet-stream fallback |
| ConversionConfig.GetMimeType | src/app/core/config/conversion-config.ts:159-161 | for every format the table's entry is returned, never 'application/octet-stream' |
| ConversionConfig.Extension | src/app/core/config/conversion-config.ts:119 | the extension contains no '.', and a name without '.' is its own extension, lower-cased |
| ConversionConfig.FirstMatch | src/app/core/config/conversion-config.ts:121-130 | the scan returns the first rule accepting the file (by media type or by non-empty extension), or -1 exactly when none does |
| ConversionConfig.Classify | src/app/core/config/conversion-config.ts:121-137 | the first rule that accepts the media type or the extension decides; with none, the media-type prefix fallback does |
| ConversionConfig.PrefixFallback | src/app/core/config/conversion-config.ts:133-137 | 'video/' gives video, then 'audio/' audio, then 'image/' image, each only when the earlier prefixes fail; none of the three gives null |
| ConversionConfig.DetectFileType | src/app/core/config/conversion-config.ts:118-138 | if some rule matches, the result is the category of a matching rule no later than it; if none matches, the result is the prefix fallback |
| ConversionConfig.AvailableFormats | src/app/core/config/conversion-config.ts:143-146 | empty exactly when the file is unclassified; otherwise the detected category's matrix row |
| ConversionConfig.DefaultTargetFormat | src/app/core/config/conversion-config.ts:151-154 | null exactly when the file is unclassified; otherwise the detected category's entry of the default-target table, which is one of the available formats |
| ConversionConfig.PdfEvidenceSuffices | src/app/core/config/conversion-config.ts:121-129 | a file typed 'application/pdf' or with extension 'pdf' is a PDF, whatever the other piece of evidence says |
| ConversionConfig.EarlierRuleWins | src/app/core/config/conversion-config.ts:121-129 | an extension matching an earlier rule beats a media type matching a later rule |
| ConversionConfig.PdfNameBeatsPlainTextType | src/app/core/config/conversion-config.ts:121-129 | 'x.pdf' typed 'text/plain' is classified as a PDF |
| ConversionConfig.BareNameIsExtension | src/app/core/config/conversion-config.ts:119-129 | a file named 'TXT' with an empty media type is classified as txt |
| ConversionConfig.TypeWithoutExtension | src/app/core/config/conversion-config.ts:123-125 | 'report' typed 'application/pdf' is classified as a PDF |
| ConversionConfig.FallbackByPrefix | src/app/core/config/conversion-config.ts:133-137 | with no rule matching, the category comes from the media-type prefix alone, in video, audio, image order, else null |
| ConversionConfig.DetectIgnoresContent | src/app/core/config/conversion-config.ts:118-138 | two files with the same name and media type are classified alike |
| ConversionConfig.ClassifiedBy | src/app/core/config/conversion-config.ts:121-130 | a file accepted by rule c and by no earlier rule gets rule c's category |
| ConversionConfig.OutputReclassifies | src/app/core/config/conversion-config.ts:33-99 | a file named `base.<tag>` and typed with its format's media type is classified as that format's category, so the media-type table and the rule table agree |
| ConversionStrategy.KeyInjective | src/app/core/services/conversion-strategy-service.ts:147-150 | distinct (category, target) pairs give distinct `${source}->${target}` keys |
| ConversionStrategy.KeyOfFormat | src/app/core/services/conversion-strategy-service.ts:155-179 | a free-text target names the key of a registered pair exactly when it is that pair's format tag |
| ConversionStrategy.Register | src/app/core/services/conversion-strategy-service.ts:147-150 | registering adds the key, overwrites its handler and leaves every other key's handler alone |
| ConversionStrategy.RegisterAllKeys | src/app/core/services/conversion-strategy-service.ts:44-142 | after a sequence of registrations the keys are the earlier keys plus every registered pair |
| ConversionStrategy.RegisterAllValue | src/app/core/services/conversion-strategy-service.ts:147-150 | a pair registered at position i and never again keeps the handler of position i |
| ConversionStrategy.KeptAfter | src/app/core/services/conversion-strategy-service.ts:147-150 | registering other pairs leaves a key's handler unchanged |
| ConversionStrategy.RegistrationInMatrix | src/app/core/services/conversion-strategy-service.ts:44-142 | every registration made by the constructor is a pair of the conversion matrix |
| ConversionStrategy.RegistrationIndex | src/app/core/services/conversion-strategy-service.ts:44-142 | every pair of the conversion matrix is registered, at a position this function names |
| ConversionStrategy.MatrixPairIsRegistered | src/app/core/services/conversion-strategy-service.ts:44-142 | every matrix pair appears among the constructor's registrations |
| ConversionStrategy.RegistrationIndexOf | src/app/core/services/conversion-strategy-service.ts:44-142 | each registration sits at the position its pair maps to, so positions and pairs correspond one to one |
| ConversionStrategy.RegistrationsDistinct | src/app/core/services/conversion-strategy-service.ts:44-142 | no pair is registered twice, so no registration overwrites another |
| ConversionStrategy.StrategiesCoverMatrix | src/app/core/services/conversion-strategy-service.ts:36-38 | after construction a pair is registered exactly when its target is in the category's matrix row |
| ConversionStrategy.StrategiesHandler | src/app/core/services/conversion-strategy-service.ts:44-142 | after construction each registered pair holds the handler the constructor registered for it |
| ConversionStrategy.KeysMatch | src/app/core/services/conversion-strategy-service.ts:147-179 | a registered key equals the key built from a category and a free-text target exactly when the category matches and the text names the key's format |
| ConversionStrategy.CanConvert | src/app/core/services/conversion-strategy-service.ts:176-179 | true exactly when some registered pair builds the same key as the category and target text |
| ConversionStrategy.Lookup | src/app/core/services/conversion-strategy-service.ts:155-171 | found exactly when `canConvert` holds, and then it is the handler registered under the matching key |
| ConversionStrategy.RemoteConvert | src/app/core/services/converters/cloudconvert-service.ts:43-46 | without an API key the call rejects with 'CloudConvert API key not configured'; with one it is the remote service's answer |
| ConversionStrategy.Run | src/app/core/services/conversion-strategy-service.ts:47-141 | pdf to txt, html and md resolve exactly when pdf.js text extraction does, docx to txt exactly when mammoth's does; the markdown, html and txt pathways always resolve; docx to pdf, html and md always reject |
| ConversionStrategy.PdfToDocxFallback | src/app/core/services/conversion-strategy-service.ts:58-61 | resolves exactly when text extraction does, with the same thrown value otherwise; the result is a DOCX blob whose paragraphs, joined by newlines, give back the extracted text |
| ConversionStrategy.StyledForPdf | src/app/core/services/conversion-strategy-service.ts:78-82 | the document's HTML sits unchanged between the styled div's opening and closing text |
| ConversionStrategy.DocxHtmlPathwaysReject | src/app/core/services/conversion-strategy-service.ts:75-93 | docx to pdf, html and md call `docxToHtml`, which the document converter does not define, so they reject with the same TypeError whatever the libraries would do |
| ConversionStrategy.IntendedDocxToHtml | src/app/core/services/conversion-strategy-service.ts:85-88 | with an HTML conversion in place, docx to html rejects as it does and otherwise labels its HTML text/html |
| ConversionStrategy.IntendedDocxToPdf | src/app/core/services/conversion-strategy-service.ts:75-84 | with an HTML conversion in place, docx to pdf rejects as it does and otherwise renders the styled HTML |
| ConversionStrategy.IntendedDocxToMd | src/app/core/services/conversion-strategy-service.ts:89-93 | with an HTML conversion in place, docx to md rejects as it does and otherwise converts its HTML to Markdown |
| ConversionStrategy.IntendedElsewhereAsWritten | src/app/core/services/conversion-strategy-service.ts:44-141 | the correction changes no pathway other than the three docx ones |
| ConversionStrategy.AudioPathwaysExtract | src/app/core/services/converters/audio-converter-service.ts:10-16 | audio to wav and to mp3 are the video converter's audio extraction to that format, the same as video to wav and to mp3 |
| ConversionStrategy.LocalTarget | src/app/core/services/conversion-strategy-service.ts:47-125 | for each local pathway its target format, whose media type labels every blob the pathway resolves with |
| ConversionStrategy.RegisteredHandlerIsFound | src/app/core/services/conversion-strategy-service.ts:155-171 | looking up a registered pair by its format tag returns that pair's handler |
| ConversionStrategy.PdfToDocxIsHybrid | src/app/core/services/conversion-strategy-service.ts:50-62 | the pdf to docx pathway is the hybrid handler |
| ConversionStrategy.GetHandler | src/app/core/services/conversion-strategy-service.ts:155-179 | non-null exactly when `canConvert` holds, and then it is the registered handler for the parsed target; the video branch looks up the same key, so it adds no fallback |
| ConversionStrategy.HandlerExistsIffInMatrix | src/app/core/services/conversion-strategy-service.ts:155-179 | with the constructed registry, a handler exists exactly when the target is a format tag in the category's matrix row |
| ConversionStrategy.TxtToDocxBlob | src/app/core/services/conversion-strategy-service.ts:199-210 | the result is a DOCX with at least one paragraph, and joining the paragraphs with '\n' gives back the text |
| ConversionStrategy.TxtToPdfBlob | src/app/core/services/conversion-strategy-service.ts:183-197 | the result is a PDF whose pages are the reference layout of the wrapped lines |
| ConversionStrategy.HybridUnconfiguredIsLocal | src/app/core/services/conversion-strategy-service.ts:50-62 | without an API key the result is the local fallback and does not depend on the remote service |
| ConversionStrategy.HybridRemoteSuccess | src/app/core/services/conversion-strategy-service.ts:51-53 | when configured and the remote call resolves, its document is returned unchanged |
| ConversionStrategy.HybridRemoteFailureFallsBack | src/app/core/services/conversion-strategy-service.ts:54-61 | when configured and the remote call rejects, the result is the extracted text written as a DOCX, or the extraction's own rejection |
| ConversionStrategy.HtmlPathwaysStripTags | src/app/core/services/conversion-strategy-service.ts:112-119 | html to txt yields tag-free text and html to docx writes the stripped text; text without '<' passes unchanged |
| ConversionStrategy.HtmlPathwaysWrapVerbatim | src/app/core/services/conversion-strategy-service.ts:64-67 | txt to html and pdf to html output '<html><body><pre>' + text + '</pre></body></html>', unescaped |
| ConversionStrategy.PassThroughPathways | src/app/core/services/conversion-strategy-service.ts:68-71 | txt to md, markdown to txt and pdf to md keep the characters and change only the media type |
| ConversionStrategy.LocalOutputType | src/app/core/services/conversion-strategy-service.ts:47-125 | a local pathway that resolves labels its blob with the media type of its target format; the three docx pathways through HTML never resolve and are not among them |
| ConversionStrategy.ExtractedOutputType | src/app/core/services/conversion-strategy-service.ts:47-74 | pdf to txt, html and md and docx to txt, which relabel library-extracted text, use their target's media type |
| ConversionStrategy.WrittenOutputType | src/app/core/services/conversion-strategy-service.ts:102-125 | the pathways that write the file's own text always resolve, labelled with their target's media type |
| ConversionStrategy.LocalTargetIsRegisteredTarget | src/app/core/services/conversion-strategy-service.ts:44-142 | every local pathway is registered under the target whose media type it produces |
| FileConverter.ConvertWith | src/app/core/services/file-converter-service.ts:11-25 | an unclassified file rejects with 'Unknown file type'; a missing handler rejects with a message naming source and target; otherwise the result is the resolved handler's |
| FileConverter.Convert | src/app/core/services/file-converter-service.ts:11-25 | an unclassified file rejects with 'Unknown file type'; a resolved conversion implies a classified file and a parsed target listed for its category |
| FileConverter.NotSupported | src/app/core/services/file-converter-service.ts:21 | the unsupported-pair message differs from the unknown-type message, so the two rejections are told apart |
| FileConverter.ConvertFollowsMatrix | src/app/core/services/file-converter-service.ts:11-25 | with the constructed registry a handler runs exactly when the target is in the detected category's matrix row; otherwise the result is the not-supported rejection |
| FileConverter.ConvertNamedFile | src/app/core/services/file-converter-service.ts:11-25 | a file named and typed for a format and asked for a registered target reaches exactly that pair's handler |
| FileConverter.ConvertLocalOutputType | src/app/core/services/file-converter-service.ts:11-25 | end to end, a local pathway's output carries the media type of the requested target |
| DocumentLayout.LinesPerPageFromMargins | src/app/core/services/file-converter.service.ts:69-79 | y = 10 + 7k passes 280 exactly when k >= 39, so a page holds 39 lines |
| DocumentLayout.PageCount | src/app/core/services/file-converter.service.ts:65-79 | the number of pages is max(1, ceil(n / 39)) |
| DocumentLayout.Layout | src/app/core/services/file-converter.service.ts:65-79 | the reference layout has PageCount(n) pages |
| DocumentLayout.Paginate | src/app/core/services/file-converter.service.ts:68-81 | the drawing loop, statement for statement, produces exactly the reference layout |
| DocumentLayout.DrawStepShape | src/app/core/services/file-converter.service.ts:72-79 | one iteration keeps every page at its share of the lines drawn so far |
| DocumentLayout.DrawStepLines | src/app/core/services/file-converter.service.ts:72-79 | one iteration keeps every drawn slot holding its line at its row |
| DocumentLayout.DrawnAllIsLayout | src/app/core/services/file-converter.service.ts:72-79 | pages shaped and filled for all n lines are the reference layout |
| DocumentLayout.LayoutPlacesEveryLine | src/app/core/services/file-converter.service.ts:72-79 | line j is drawn at x = 10 on page j / 39, slot j % 39, at y = 10 + 7 (j % 39) |
| DocumentLayout.LayoutPageSizes | src/app/core/services/file-converter.service.ts:73-76 | no page holds more than 39 lines, every page but the last is full, and the last is empty only for empty text |
| DocumentLayout.Paragraphs | src/app/core/services/file-converter.service.ts:84-90 | at least one paragraph, none containing '\n', and joining them with '\n' gives back the text |
| DocumentLayout.ParagraphsOfLines | src/app/core/services/file-converter.service.ts:84-90 | joining '\n'-free lines and splitting again gives the same lines, in order |
| DocumentLayout.ConvertDocument | src/app/core/services/file-converter.service.ts:61-95 | only the exact format 'pdf' gives the paginated PDF; any other format gives a DOCX whose paragraphs join back to the text |
| Markup.StripTagsKeepsOnlyInputChars | src/app/core/services/conversion-strategy-service.ts:112 | stripping only deletes characters: the result is a subsequence of the input, its characters in their original order |
| Markup.StripTags | src/app/core/services/conversion-strategy-service.ts:112 | stripping never lengthens the text |
| Markup.StripTagsIsTagFree | src/app/core/services/conversion-strategy-service.ts:112 | after stripping, no '<' is followed anywhere later by a '>' |
| Markup.StripTagsOfTagFree | src/app/core/services/conversion-strategy-service.ts:112 | text the pattern cannot match is left unchanged |
| Markup.StripTagsWithoutOpenBracket | src/app/core/services/conversion-strategy-service.ts:112 | text without '<' is unchanged |
| Markup.StripTagsIdempotent | src/app/core/services/conversion-strategy-service.ts:112-116 | stripping twice equals stripping once |
| Markup.WrapInPre | src/app/core/services/conversion-strategy-service.ts:212-215 | the page starts with the opening markup and ends with the closing markup |
| Markup.WrapInPreRecoversText | src/app/core/services/conversion-strategy-service.ts:212-215 | the text sits unchanged between the two pieces of markup |
| Markup.WrapInPreInjective | src/app/core/services/conversion-strategy-service.ts:212-215 | distinct texts give distinct pages |
| Batch.AddToBatch | src/app/core/services/processors/batch-processor.service.ts:25-35 | one pending job at progress 0 per file, in order, with the given target and fresh id, appended after the unchanged earlier jobs |
| Batch.UpdateJobStatus | src/app/core/services/processors/batch-processor.service.ts:120-134 | jobs with the id get all four fields, an absent result or error included; every other job is unchanged |
| Batch.Settle | src/app/core/services/processors/batch-processor.service.ts:48-62 | completed at 100 with the blob exactly when the conversion resolves; otherwise error at 0 with the Error's message, or 'Conversion failed' |
| Batch.Step | src/app/core/services/processors/batch-processor.service.ts:48-62 | one iteration keeps every job's position, id, file and target, leaves jobs with other ids alone, and leaves the job completed when conversion resolved and errored when it rejected |
| Batch.FailureMessage | src/app/core/services/processors/batch-processor.service.ts:60 | an Error's own message, and 'Conversion failed' for any other thrown value |
| Batch.RunJobs | src/app/core/services/processors/batch-processor.service.ts:47-63 | the loop over the snapshot keeps the list's length and every job's position, id, file and target |
| Batch.RunJobsKeepsOthers | src/app/core/services/processors/batch-processor.service.ts:47-63 | a job whose id is not in the snapshot comes out of the loop unchanged |
| Batch.RunOne | src/app/core/services/processors/batch-processor.service.ts:49-61 | one iteration in two states: after marking, the flag is up and the count kept; after settling, the jobs are one step further |
| Batch.ProcessBatch | src/app/core/services/processors/batch-processor.service.ts:40-66 | after a run the flag is down, the jobs keep their positions, ids, files and targets, and jobs not pending at the start are unchanged |
| Batch.ProcessBatchLoop | src/app/core/services/processors/batch-processor.service.ts:40-66 | the flag raised at line 43 stays up in the state after every `updateJobStatus` of the loop, the job count never changes, two states are observed per pending job, and the flag is lowered at the end; the final state is `ProcessBatch` |
| Batch.StepSettles | src/app/core/services/processors/batch-processor.service.ts:48-62 | one step settles the jobs carrying the snapshot job's id and nothing else |
| Batch.RunJobsSettles | src/app/core/services/processors/batch-processor.service.ts:47-63 | a run settles exactly the jobs whose id is in the snapshot and leaves the others |
| Batch.PendingJobs | src/app/core/services/processors/batch-processor.service.ts:45 | the snapshot holds exactly the pending jobs of the list |
| Batch.PendingJobsUnique | src/app/core/services/processors/batch-processor.service.ts:45 | the snapshot of a list with distinct ids has distinct ids |
| Batch.PendingSnapshot | src/app/core/services/processors/batch-processor.service.ts:45-47 | the snapshot agrees with the list on each job's file and target; it holds exactly the ids of pending jobs and none of the jobs appended later |
| Batch.ProcessBatchSettlesPending | src/app/core/services/processors/batch-processor.service.ts:40-66 | a run settles every job that was pending, leaves every other job as it was, and ends with the flag cleared |
| Batch.NothingPendingAfterRun | src/app/core/services/processors/batch-processor.service.ts:47-63 | after a run no job is pending, and every job that was pending is completed or in error |
| Batch.LateJobsUntouched | src/app/core/services/processors/batch-processor.service.ts:45-47 | jobs appended after the snapshot are unchanged; the earlier jobs end as if run alone |
| Batch.AppendedJobsKept | src/app/core/services/processors/batch-processor.service.ts:45-47 | the appended jobs come out of the run unchanged |
| Batch.EarlierJobsAsAlone | src/app/core/services/processors/batch-processor.service.ts:45-47 | the earlier jobs end as they would without the appended ones |
| Batch.ConversionsIndependent | src/app/core/services/processors/batch-processor.service.ts:47-63 | changing one job's conversion outcome changes no other job's result: a failure does not stop the later ones |
| Batch.ReadyAfterRunIffConverted | src/app/core/services/processors/batch-processor.service.ts:51-53 | a pending job is ready for the archive after the run exactly when its conversion resolved |
| Batch.EntryName | src/app/core/services/processors/batch-processor.service.ts:83-85 | when the part before the last '.' is empty (no '.', or a leading one only), the whole name is kept and '.' + target appended |
| Batch.EntryNameReplacesExtension | src/app/core/services/processors/batch-processor.service.ts:83-85 | `stem.ext` with a non-empty stem becomes `stem.<target>` |
| Batch.EntryNameOfDotfile | src/app/core/services/processors/batch-processor.service.ts:84 | a name such as '.env' has an empty stem, so it falls back to the whole name: '.env.pdf' |
| Batch.ReadyJobs | src/app/core/services/processors/batch-processor.service.ts:72 | every selected job is completed with a result, and the selection is no longer than the queue |
| Batch.ReadyJobsMembers | src/app/core/services/processors/batch-processor.service.ts:72 | a job is selected exactly when it is in the queue, completed and holding a result |
| Batch.ReadyJobsAppend | src/app/core/services/processors/batch-processor.service.ts:72 | selection distributes over concatenation, so the selected jobs keep their queue order |
| Batch.ZipEntries | src/app/core/services/processors/batch-processor.service.ts:78-89 | one entry per selected job, in the selection's order, each the job's entry name with its result |
| Batch.ZipEntriesEmpty | src/app/core/services/processors/batch-processor.service.ts:72-76 | there is no entry exactly when no job is completed with a result |
| Batch.ZipEntriesFromReadyJobs | src/app/core/services/processors/batch-processor.service.ts:81-89 | every entry is a ready job's result under that job's entry name |
| Batch.ZipEntriesOfReadyJob | src/app/core/services/processors/batch-processor.service.ts:81-89 | every ready job's named result is among the entries |
| Batch.BuildArchiveNames | src/app/core/services/processors/batch-processor.service.ts:87 | after the `zip.file` calls the archive's names are those it had plus every name written |
| Batch.BuildArchiveKeeps | src/app/core/services/processors/batch-processor.service.ts:87 | a name never written keeps its data |
| Batch.BuildArchiveLastWrite | src/app/core/services/processors/batch-processor.service.ts:87 | a name holds the data of the last `zip.file` call with that name: later calls replace earlier ones |
| Batch.BuildArchive | src/app/core/services/processors/batch-processor.service.ts:78-89 | adding entries never removes a name already in the archive |
| Batch.ArchiveHoldsReadyResults | src/app/core/services/processors/batch-processor.service.ts:78-89 | the archive built from the entries holds exactly the ready jobs' entry names, each with the result of the last ready job carrying it |
| Batch.DownloadAsZip | src/app/core/services/processors/batch-processor.service.ts:71-89 | rejects with 'No completed jobs to download' exactly when no job is ready; otherwise the archive is non-empty and holds exactly the ready jobs' entry names, each with the result of the last ready job carrying it |
| Batch.SameNameJobsCollide | src/app/core/services/processors/batch-processor.service.ts:83-87 | two ready jobs with the same entry name leave one archive entry, with the later job's result |
| Batch.SameStemJobsCollide | src/app/core/services/processors/batch-processor.service.ts:83-87 | 'a.txt' and 'a.md' converted to the same target leave the single entry 'a.<target>' holding the later result |
| Batch.RemoveJob | src/app/core/services/processors/batch-processor.service.ts:113-115 | exactly the jobs with other ids remain |
| Batch.RemoveJobAppend | src/app/core/services/processors/batch-processor.service.ts:113-115 | removal distributes over concatenation, so the remaining jobs keep their order |
| Batch.RemoveJobRemovesOne | src/app/core/services/processors/batch-processor.service.ts:113-115 | with distinct ids, removing a present id shortens the list by one |
| Batch.RemoveJobAbsent | src/app/core/services/processors/batch-processor.service.ts:113-115 | removing an id no job has changes nothing |
| Batch.ClearJobs | src/app/core/services/processors/batch-processor.service.ts:106-108 | the list is emptied and the processing flag kept |
| Batch.GetStats | src/app/core/services/processors/batch-processor.service.ts:139-148 | total is the list's length; pending, processing, completed and error are each the number of jobs with that status, and the four add up to the total |
| Batch.Count | src/app/core/services/processors/batch-processor.service.ts:143-146 | zero exactly when no job has the status |
| Batch.CountAppend | src/app/core/services/processors/batch-processor.service.ts:143-146 | counting distributes over concatenation, and a single job counts 1 exactly when it has the status |
| Batch.StatusesPartition | src/app/core/services/processors/batch-processor.service.ts:139-148 | every job is counted under exactly one status |
| Batch.NoPendingInStatsAfterRun | src/app/core/services/processors/batch-processor.service.ts:139-148 | after a run the statistics show no pending job and the same total |
| Batch.AddedJobsSettledByNextRun | src/app/core/services/processors/batch-processor.service.ts:25-66 | the next run settles every freshly added job |
| ConversionPage.AvailableFormatsFor | src/app/features/media-converter/pages/conversion-page/conversion-page.ts:117-120 | empty with no file or an unclassified file; otherwise the detected category's matrix row |
| ConversionPage.LookupWarning | src/app/features/media-converter/pages/conversion-page/conversion-page.ts:140-152 | null exactly for keys absent from the table; otherwise the table's non-empty message |
| ConversionPage.PathwayWarning | src/app/features/media-converter/pages/conversion-page/conversion-page.ts:130-152 | the pdf to docx key gives the configured or unconfigured message; any other key goes to the table |
| ConversionPage.ConversionWarning | src/app/features/media-converter/pages/conversion-page/conversion-page.ts:122-153 | null without a file, with an empty target or with an unclassified file; otherwise the pathway's warning |
| ConversionPage.ApiFlagMattersOnlyForPdfToDocx | src/app/features/media-converter/pages/conversion-page/conversion-page.ts:132-138 | the API flag changes the warning exactly for pdf to docx: the high-fidelity message when configured, the format-loss message when not |
| ConversionPage.WarningKeys | src/app/features/media-converter/pages/conversion-page/conversion-page.ts:140-150 | the table holds exactly the nine listed keys |
| ConversionPage.WarningPathway | src/app/features/media-converter/pages/conversion-page/conversion-page.ts:140-150 | each table key names a pair of the conversion matrix |
| ConversionPage.WarningPathwayKey | src/app/features/media-converter/pages/conversion-page/conversion-page.ts:130-150 | each table key is the registry key of its pair |
| ConversionPage.PathwayWarningIsServed | src/app/features/media-converter/pages/conversion-page/conversion-page.ts:130-152 | a warning appears only for a target in the category's matrix row |
| ConversionPage.WarningOnlyForServedPathways | src/app/features/media-converter/pages/conversion-page/conversion-page.ts:122-153 | a warning appears only for a classified file and a target it can be converted to |
| ConversionPage.OnFileSelected | src/app/features/media-converter/pages/conversion-page/conversion-page.ts:155-173 | null only clears the selection; a file is selected and the old result cleared; the target becomes the default or stays; the media engine loads exactly for video and audio types |
| ConversionPage.SelectedTargetIsOffered | src/app/features/media-converter/pages/conversion-page/conversion-page.ts:155-167 | after selecting a classifiable file the target is one of the formats offered for it |
| ConversionPage.GetDownloadName | src/app/features/media-converter/pages/conversion-page/conversion-page.ts:209-214 | 'converted-file' without a file; otherwise the name up to its last '.', then '.', then the target |
| ConversionPage.DownloadNameOfDotlessName | src/app/features/media-converter/pages/conversion-page/conversion-page.ts:212-213 | a name without '.' gives just '.' + target |
| ConversionPage.DownloadNameWithFallback | src/app/features/media-converter/pages/conversion-page/conversion-page.ts:209-214 | as intended: a name without '.' keeps the whole name, and a dotted name with a non-empty stem keeps its stem |
| ConversionPage.DownloadNameAgreesWithArchive | src/app/features/media-converter/pages/conversion-page/conversion-page.ts:209-214 | with the fallback, the page proposes the same name as the batch archive entry |
| Dropzone.HandleFile | src/app/features/media-converter/components/file-input-dropzone/file-input-dropzone.ts:216-226 | an invalid file sets the message, clears the selection and emits null; a valid file is selected and emitted |
| Dropzone.OnDrop | src/app/features/media-converter/components/file-input-dropzone/file-input-dropzone.ts:197-207 | dragging stops and the error clears; only the first dropped file is handled; an empty drop emits nothing |
| Dropzone.OnInputSelected | src/app/features/media-converter/components/file-input-dropzone/file-input-dropzone.ts:209-214 | the first chosen file is handled; no file changes nothing |
| Dropzone.ClearFile | src/app/features/media-converter/components/file-input-dropzone/file-input-dropzone.ts:239-244 | selection and error become null and null is emitted |
| Dropzone.OnDragOver | src/app/features/media-converter/components/file-input-dropzone/file-input-dropzone.ts:185-189 | only the dragging flag changes, to true |
| Dropzone.OnDragLeave | src/app/features/media-converter/components/file-input-dropzone/file-input-dropzone.ts:191-195 | only the dragging flag changes, to false |
| Dropzone.DropErrorIffRejected | src/app/features/media-converter/components/file-input-dropzone/file-input-dropzone.ts:197-226 | after a drop an error shows exactly when the first file was invalid, and the file is selected exactly when it was valid |
| Dropzone.DropIgnoresLaterFiles | src/app/features/media-converter/components/file-input-dropzone/file-input-dropzone.ts:204-206 | files after the first play no part |
| Dropzone.InputSelectionKeepsStaleError | src/app/features/media-converter/components/file-input-dropzone/file-input-dropzone.ts:209-226 | choosing a valid file through the input keeps the message an earlier rejection left |
| Dropzone.AllowedTypeSuffices | src/app/features/media-converter/components/file-input-dropzone/file-input-dropzone.ts:228-232 | a listed media type is accepted whatever the name |
| Dropzone.ExtensionDecides | src/app/features/media-converter/components/file-input-dropzone/file-input-dropzone.ts:233-236 | without a listed media type, acceptance is exactly a listed lower-cased last segment; the whole name counts when it has no '.' |
| Dropzone.MarkdownAndHtmlRejected | src/app/features/media-converter/components/file-input-dropzone/file-input-dropzone.ts:177-183 | 'x.md' typed 'text/markdown' and 'x.html' typed 'text/html' are refused |
| Dropzone.RejectedByNameAndType | src/app/features/media-converter/components/file-input-dropzone/file-input-dropzone.ts:228-237 | an unlisted media type with an unlisted lower-case extension is refused |
| Dropzone.AllowedTypeIsClassified | src/app/features/media-converter/components/file-input-dropzone/file-input-dropzone.ts:177-183 | each accepted media type is listed by some classification rule |
| Dropzone.AllowedExtensionIsClassified | src/app/features/media-converter/components/file-input-dropzone/file-input-dropzone.ts:235 | each accepted extension is listed by some classification rule |
| Dropzone.AcceptedFilesAreClassified | src/app/features/media-converter/components/file-input-dropzone/file-input-dropzone.ts:228-237 | every file the drop zone accepts is one the converter can classify |
| Dropzone.IsValidFileType | src/app/features/media-converter/components/file-input-dropzone/file-input-dropzone.ts:228-237 | accepts exactly a listed media type or a listed extension, and every accepted file is one the converter classifies |
| FilePreview.PreviewTypeOf | src/app/features/media-converter/components/file-preview/file-preview.ts:48-56 | the media prefixes are tried first, in image, video, audio order; then exactly 'application/pdf'; then 'text/plain' or a .md/.txt/.html name; otherwise unknown |
| FilePreview.TextName | src/app/features/media-converter/components/file-preview/file-preview.ts:54 | true exactly when the name is some stem followed by '.md', '.txt' or '.html' |
| FilePreview.MediaPrefixOverridesName | src/app/features/media-converter/components/file-preview/file-preview.ts:50-52 | with a media prefix the name plays no part |
| FilePreview.UnknownIffNothingMatches | src/app/features/media-converter/components/file-preview/file-preview.ts:48-56 | unknown exactly when none of the tests accepts the file |
| FilePreview.PreviewText | src/app/features/media-converter/components/file-preview/file-preview.ts:69 | text of at most 1000 characters is shown whole; longer text shows its first 1000 characters then '...' |
| FilePreview.PreviewTextIsPrefix | src/app/features/media-converter/components/file-preview/file-preview.ts:69 | the preview begins with the text's own beginning and has at most 1003 characters |
| FilePreview.PreviewOfShortText | src/app/features/media-converter/components/file-preview/file-preview.ts:69 | previewing a short text twice gives back the text |
| ImageProcessor.Clamp | src/app/core/services/processors/image-processor-service.ts:108-131 | a store into clamped canvas data lands in 0..255 and keeps any byte value |
| ImageProcessor.Channel | src/app/core/services/processors/image-processor-service.ts:113-129 | the value written to any colour channel by any filter is a byte |
| ImageProcessor.Filtered | src/app/core/services/processors/image-processor-service.ts:108-131 | every colour byte is rewritten from its own pixel's original colour and every alpha byte is kept |
| ImageProcessor.PixelFiltered | src/app/core/services/processors/image-processor-service.ts:108-131 | the four bytes of a pixel after the pass: three channels and the untouched alpha |
| ImageProcessor.ApplyFilter | src/app/core/services/processors/image-processor-service.ts:108-131 | the loop, four bytes at a time, produces the filtered data and never writes an alpha byte |
| ImageProcessor.FilterKeepsAlpha | src/app/core/services/processors/image-processor-service.ts:108-131 | no filter changes the byte at i + 3 |
| ImageProcessor.FilteredIsBytes | src/app/core/services/processors/image-processor-service.ts:108-131 | byte data stays byte data |
| ImageProcessor.InvertComplements | src/app/core/services/processors/image-processor-service.ts:125-129 | invert maps every colour byte b to 255 - b |
| ImageProcessor.InvertTwice | src/app/core/services/processors/image-processor-service.ts:125-129 | inverting twice restores the original data |
| ImageProcessor.GrayscaleIsUniform | src/app/core/services/processors/image-processor-service.ts:114-117 | grayscale writes one common value to a pixel's three colour bytes |
| ImageProcessor.CanvasSize | src/app/core/services/processors/image-processor-service.ts:52-58 | 90 and 270 degrees swap width and height; 180 keeps them |
| ImageProcessor.CanvasSizeTurns | src/app/core/services/processors/image-processor-service.ts:52-58 | the rotated canvas has as many pixels as the image, and two quarter turns restore the shape |
| PasswordGenerator.Alphabet | src/app/features/password-generator/services/passwordGenerator-service.ts:24-26 | consecutive code points from the first, holding exactly that range |
| PasswordGenerator.AlphabetsAsWritten | src/app/features/password-generator/services/passwordGenerator-service.ts:24-26 | the three pools equal the source's literal alphabets |
| PasswordGenerator.AddAll | src/app/features/password-generator/services/passwordGenerator-service.ts:38-44 | insertion into a JavaScript Set: no duplicates, members are old plus new, and earlier members keep their place |
| PasswordGenerator.Without | src/app/features/password-generator/services/passwordGenerator-service.ts:46-48 | deleting the omitted characters keeps every other member, without duplicates |
| PasswordGenerator.Charset | src/app/features/password-generator/services/passwordGenerator-service.ts:23-50 | without duplicates, a character is in the charset exactly when it belongs to an enabled set and is not omitted |
| PasswordGenerator.IsGenerationPossible | src/app/features/password-generator/services/passwordGenerator-service.ts:52-61 | false exactly when length <= 0, unique mode with length above the charset size, or an empty charset |
| PasswordGenerator.UppercaseMakesGenerationPossible | src/app/features/password-generator/services/passwordGenerator-service.ts:52-61 | with upper case enabled and none of it omitted, any length from 1 to 26 is possible |
| PasswordGenerator.DefaultsArePossible | src/app/features/password-generator/services/passwordGenerator-service.ts:8-16 | the default settings can generate, in either mode |
| PasswordGenerator.DistinctMembersBoundLength | src/app/features/password-generator/services/passwordGenerator-service.ts:57 | a duplicate-free string whose characters are all in a duplicate-free pool is no longer than the pool |
| PasswordGenerator.IncrementLength | src/app/features/password-generator/services/passwordGenerator-service.ts:64 | length goes up by exactly 1 and nothing else changes |
| PasswordGenerator.DecrementLength | src/app/features/password-generator/services/passwordGenerator-service.ts:65 | length goes down by 1 but never below 1, and nothing else changes |
| PasswordGenerator.IncrementCount | src/app/features/password-generator/services/passwordGenerator-service.ts:66 | count goes up by exactly 1 and nothing else changes |
| PasswordGenerator.DecrementCount | src/app/features/password-generator/services/passwordGenerator-service.ts:67 | count goes down by 1 but never below 1, and nothing else changes |
| PasswordGenerator.LengthStepsUndo | src/app/features/password-generator/services/passwordGenerator-service.ts:64-65 | up then down is the identity; down then up too from length 2; from length 1 the down step is absorbed |
| PasswordGenerator.CharBits | src/app/features/password-generator/services/passwordGenerator-service.ts:80-88 | each character is worth between 1 and 4 bits |
| PasswordGenerator.Bits | src/app/features/password-generator/services/passwordGenerator-service.ts:80-88 | a password's bits lie between its length and four times its length |
| PasswordGenerator.BitsAppend | src/app/features/password-generator/services/passwordGenerator-service.ts:80-88 | bits add up over concatenation |
| PasswordGenerator.Label | src/app/features/password-generator/services/passwordGenerator-service.ts:90-99 | the label's rank follows the thresholds 40, 60, 80 and 100 |
| PasswordGenerator.LabelMonotone | src/app/features/password-generator/services/passwordGenerator-service.ts:90-99 | more bits never give a weaker label |
| PasswordGenerator.LabelThresholds | src/app/features/password-generator/services/passwordGenerator-service.ts:90-99 | Ultra Strong exactly from 100, Weak exactly below 40, Medium exactly from 40 to 59 |
| PasswordGenerator.CalculateStrength | src/app/features/password-generator/services/passwordGenerator-service.ts:74-102 | the scan returns the summed credits (4 per ASCII letter, 3 per digit, 1 otherwise) and the label for them |
| PasswordGenerator.Swap | src/app/features/password-generator/services/passwordGenerator-service.ts:128 | exchanges two positions, keeping the multiset of characters |
| PasswordGenerator.SwapKeepsNoDup | src/app/features/password-generator/services/passwordGenerator-service.ts:128 | swapping keeps a duplicate-free pool duplicate-free |
| PasswordGenerator.Shuffle | src/app/features/password-generator/services/passwordGenerator-service.ts:123-129 | Fisher-Yates yields a permutation of the pool, duplicate-free when the pool is |
| PasswordGenerator.PermutationKeepsMembers | src/app/features/password-generator/services/passwordGenerator-service.ts:123-130 | a permutation has the same members |
| PasswordGenerator.DrawnPassword | src/app/features/password-generator/services/passwordGenerator-service.ts:131-137 | the requested number of picks, each from the charset |
| PasswordGenerator.MakePassword | src/app/features/password-generator/services/passwordGenerator-service.ts:119-139 | a password of exactly the requested length, drawn from the charset, with no repeat in unique mode, carrying its own bits and label; in non-unique mode a length above 16384 rejects with the `getRandomValues` quota error, and nothing else rejects |
| PasswordGenerator.GeneratePasswords | src/app/features/password-generator/services/passwordGenerator-service.ts:108-142 | nothing when generation is impossible; otherwise a rejection with the quota error exactly when at least one password is asked for over the quota, and else `count` passwords (none for a count below 1), each well-formed |
| PasswordGenerator.RestoreDefaultSymbols | src/app/features/password-generator/services/passwordGenerator-service.ts:144-146 | only the symbols change, back to the default set |
| PasswordGenerator.ResetSettings | src/app/features/password-generator/services/passwordGenerator-service.ts:151-162 | every setting is back at its default (16, 1, all sets on, default symbols, no omissions, unique) and there are no passwords |
| PasswordGenerator.ResetForgetsState | src/app/features/password-generator/services/passwordGenerator-service.ts:151-162 | any two generators reset to the same one, and resetting twice equals resetting once |
| SearchHistory.Insert | src/app/core/services/search-history-service.ts:83-85 | inserting adds one entry and keeps the others |
| SearchHistory.InsertSorted | src/app/core/services/search-history-service.ts:83-85 | inserting into a newest-first list keeps it newest first |
| SearchHistory.InsertPermutes | src/app/core/services/search-history-service.ts:83-85 | inserting permutes the entry and the list |
| SearchHistory.InsertKeepsPathsUnique | src/app/core/services/search-history-service.ts:83-85 | inserting an entry with a new path keeps paths unique |
| SearchHistory.SortByTimestamp | src/app/core/services/search-history-service.ts:83-85 | a newest-first permutation of the list |
| SearchHistory.SortKeepsPathsUnique | src/app/core/services/search-history-service.ts:83-85 | sorting keeps one entry per path |
| SearchHistory.SortKeepsSortedInput | src/app/core/services/search-history-service.ts:83-85 | a list already newest first comes back unchanged |
| SearchHistory.Retime | src/app/core/services/search-history-service.ts:27-30 | only the entries for the path get the new timestamp |
| SearchHistory.AddSearch | src/app/core/services/search-history-service.ts:25-46 | a known path is re-stamped and the list re-sorted; a new path's item goes first, followed by at most nine earlier entries |
| SearchHistory.AddKnownPath | src/app/core/services/search-history-service.ts:26-32 | a known path adds nothing: same length, newest first, the same entries with that path re-stamped |
| SearchHistory.AddNewPathBounded | src/app/core/services/search-history-service.ts:16-42 | a new path gives min(n + 1, 10) entries |
| SearchHistory.AddSearchBounded | src/app/core/services/search-history-service.ts:16-42 | a list of at most ten entries stays within ten |
| SearchHistory.AddSearchKeepsPathsUnique | src/app/core/services/search-history-service.ts:25-46 | every search keeps one entry per path |
| SearchHistory.RemoveSearch | src/app/core/services/search-history-service.ts:48-51 | exactly the entries with other ids remain |
| SearchHistory.RemoveSearchAppend | src/app/core/services/search-history-service.ts:48-51 | removal distributes over concatenation, so kept entries keep their order |
| SearchHistory.RemoveAbsentId | src/app/core/services/search-history-service.ts:48-51 | removing an absent id changes nothing |
| SearchHistory.ToggleFavorite | src/app/core/services/search-history-service.ts:53-60 | matching entries get the negated truth value of their flag; all others are unchanged |
| SearchHistory.ToggleTwice | src/app/core/services/search-history-service.ts:53-60 | toggling twice restores every flag's truth value, and the list itself when the toggled flags were set |
| SearchHistory.ToggleTwiceFillsAbsentFlag | src/app/core/services/search-history-service.ts:53-60 | an absent flag comes back as false after two toggles |
| SearchHistory.ClearHistory | src/app/core/services/search-history-service.ts:62-65 | the list is empty |
| NavMenu.FilterMatching | src/app/shared/components/nav-menu.ts:97-105 | exactly the projects whose lower-cased title or description contains the query |
| NavMenu.FilterMatchingAppend | src/app/shared/components/nav-menu.ts:97-105 | filtering distributes over concatenation, so found projects keep their order |
| NavMenu.FilterProjects | src/app/shared/components/nav-menu.ts:93-110 | an empty query lists nothing; otherwise the matches of the lower-cased query |
| NavMenu.FilterIgnoresQueryCase | src/app/shared/components/nav-menu.ts:94-105 | the filter ignores the case of ASCII letters in the query |
| NavMenu.EmptyQueryListsNothing | src/app/shared/components/nav-menu.ts:107-109 | an empty query matches every project, but the menu lists none |
| NavMenu.OnSearchInput | src/app/shared/components/nav-menu.ts:139-142 | the query is stored and the list recomputed; visibility is unchanged |
| NavMenu.ToggleSearchDialog | src/app/shared/components/nav-menu.ts:127-132 | visibility flips, and closing clears the query and the list |
| NavMenu.OnSearchDialogClosed | src/app/shared/components/nav-menu.ts:134-137 | the dialog is hidden and the query and list cleared |
| NavMenu.ToggleTwice | src/app/shared/components/nav-menu.ts:127-137 | opening then closing equals closing |
| NavMenu.HandleKeyboardEvent | src/app/shared/components/nav-menu.ts:119-125 | Ctrl+K toggles the dialog; any other key changes nothing |
| NavMenu.OnlyCtrlKTogglesDialog | src/app/shared/components/nav-menu.ts:119-125 | visibility changes exactly on Ctrl+K |
| NavMenu.Matches | src/app/shared/components/nav-menu.ts:97-105 | a project is found exactly when its lower-cased title or description contains the query at some position |
| MarkdownCompletion.Candidates | src/app/features/editor/markdown-completion.service.ts:32-33 | exactly the emoji names that start with the query, in list order |
| MarkdownCompletion.CandidatesAppend | src/app/features/editor/markdown-completion.service.ts:32-33 | selecting candidates distributes over concatenation, so they keep the list's order |
| MarkdownCompletion.CandidatesOfEmptyQuery | src/app/features/editor/markdown-completion.service.ts:8 | an empty query keeps every name |
| MarkdownCompletion.Suggest | src/app/features/editor/markdown-completion.service.ts:34-44 | one suggestion per name, labelled ':' + name + ':', inserting name + ': ' over the cursor line's range |
| MarkdownCompletion.ProvideCompletionItems | src/app/features/editor/markdown-completion.service.ts:21-44 | nothing without ':' or with a space in the query; otherwise the candidates for the query, replaced from the ':' column to the cursor |
| MarkdownCompletion.BareColonOffersEverything | src/app/features/editor/markdown-completion.service.ts:8-44 | right after ':' all six names are offered |
| MarkdownCompletion.AcceptedSuggestionDropsColon | src/app/features/editor/markdown-completion.service.ts:38-43 | as written, accepting a suggestion replaces the ':' too |
| MarkdownCompletion.CandidatesNone | src/app/features/editor/markdown-completion.service.ts:32-33 | no candidates when no name starts with the query |
| MarkdownCompletion.CandidatesSingle | src/app/features/editor/markdown-completion.service.ts:32-33 | a single matching name is the only candidate |
| MarkdownCompletion.SmileIsTheOnlyCandidate | src/app/features/editor/markdown-completion.service.ts:8-33 | 'sm' selects only 'smile' |
| MarkdownCompletion.SmileSuggestion | src/app/features/editor/markdown-completion.service.ts:21-44 | ':sm' after any text offers 'smile' alone, replacing from the ':' |
| MarkdownCompletion.SmileExample | src/app/features/editor/markdown-completion.service.ts:21-44 | completing ':sm' leaves 'smile: ' after the earlier text, without the opening ':' |
| MarkdownCompletion.ProvideCompletionItemsAfterColon | src/app/features/editor/markdown-completion.service.ts:38-43 | the intended range starts just after the ':' |
| MarkdownCompletion.AfterColonShiftsRange | src/app/features/editor/markdown-completion.service.ts:38-43 | the intended suggestions are the written ones with the range moved one column to the right |
| MarkdownCompletion.AcceptedSuggestionKeepsColon | src/app/features/editor/markdown-completion.service.ts:35-43 | with the intended range, accepting leaves ':name: ', which is the label followed by a space |
| ScrollHide.OnWindowScroll | src/app/shared/directives/scroll-hide.ts:17-28 | shown at the top; hidden when scrolling down past 50; shown when scrolling up; otherwise unchanged; the last position is always the current one |
| ScrollHide.VisibilityChanges | src/app/shared/directives/scroll-hide.ts:20-26 | hidden only by scrolling down past 50; revealed only by scrolling up or reaching the top |
| ScrollHide.RepeatedEventIsIdle | src/app/shared/directives/scroll-hide.ts:17-28 | a second event at the same position changes nothing |
| ScrollHide.ShownNearTheTop | src/app/shared/directives/scroll-hide.ts:20-25 | within the first 50 pixels the host never hides, whatever the sequence of positions |
| ScrollHide.Replay | src/app/shared/directives/scroll-hide.ts:27 | after a sequence of events the last position is the last event's |
| Maintenance.MaintenanceGuard | src/app/core/guards/maintenance-guard.ts:5-21 | on: only '/maintenance' passes, everything else goes there; off: '/maintenance' goes to '/', everything else passes |
| Maintenance.RedirectSettles | src/app/core/guards/maintenance-guard.ts:9-20 | the guard never redirects to the requested URL, and the URL it redirects to is let through |
| Maintenance.IsMaintenanceMode | src/app/core/services/maintenance-service.ts:8-10 | always the internal flag |
| Maintenance.Enable | src/app/core/services/maintenance-service.ts:11-13 | the mode is on afterwards |
| Maintenance.Disable | src/app/core/services/maintenance-service.ts:14-16 | the mode is off afterwards |
| Maintenance.Toggle | src/app/core/services/maintenance-service.ts:18-20 | the mode is negated |
| Maintenance.ServiceLaws | src/app/core/services/maintenance-service.ts:11-20 | toggling twice restores the flag; enable and disable ignore the previous state; toggling after enable equals disable, and the reverse |
| Maintenance.EnabledGuardsEverything | src/app/core/guards/maintenance-guard.ts:5-21 | when enabled, only the maintenance page passes; when disabled, everything but it passes |
| Text.Lower | src/app/core/config/conversion-config.ts:119 | same length, every ASCII upper-case letter lowered, nothing upper case left |
| Text.LowerIdempotent | src/app/shared/components/nav-menu.ts:95-103 | lowering twice equals lowering once |
| Text.LastIndexOf | src/app/core/services/processors/batch-processor.service.ts:84 | -1 exactly when the character is absent; otherwise its last position |
| Text.LastSegment | src/app/core/config/conversion-config.ts:119 | the suffix after the last separator, or the whole string when there is none |
| Text.BeforeLast | src/app/core/services/processors/batch-processor.service.ts:84 | the prefix before the last separator, so prefix, separator and last segment make up the string; empty without a separator |
| Text.JoinSplit | src/app/core/services/conversion-strategy-service.ts:204 | joining the pieces of a split gives back the string |
| Text.SplitJoin | src/app/core/services/conversion-strategy-service.ts:204 | splitting a join of separator-free pieces gives back the pieces |
| Text.Includes | src/app/shared/components/nav-menu.ts:95-103 | true exactly when the substring occurs somewhere |
| Text.Split | src/app/core/services/conversion-strategy-service.ts:204 | at least one piece, and no piece contains the separator |
| Text.IndexOf | src/app/core/services/conversion-strategy-service.ts:147-150 | -1 exactly when the character is absent; otherwise its first position, with no earlier occurrence (used to read a registry key's category back) |
| Text.StartsWith | src/app/core/config/conversion-config.ts:133-135 | true exactly when the prefix is a prefix of the string |
| Text.EndsWith | src/app/features/media-converter/components/file-preview/file-preview.ts:54 | true exactly when the string is some text followed by the suffix |

## Left out

- Network, WASM and library work is not modelled. This covers the CloudConvert client (upload, polling, quota), ffmpeg, pdf.js, mammoth, marked, turndown and html2canvas. These are opaque `Env` functions, and only what the application does around them is modelled.
- jsPDF's `splitTextToSize` wrapping belongs to the library and is a parameter. Only the drawing loop after it is modelled.
- Canvas image encoding (`convertImage` in both services and in the strategy service) and the image processor's drawing and rotation transform are left out: they are browser canvas calls. `CanvasSize` covers only the dimensions chosen for rotation.
- ImageProcessor.Filtered: the grayscale and sepia weighted sums are floating-point arithmetic. They are abstract `Shading` functions, while the clamping store and the invert case are exact.
- ImageProcessor.ApplyFilter: requires the data length to be a multiple of 4. Canvas RGBA data always is, so the source never hits a partial pixel.
- `formatSize` on the page and in the drop zone is floating-point display formatting and is not modelled.
- Object URLs, the anchor-click download and ZIP byte generation in `downloadAsZip` are left out. Batch.DownloadAsZip stops at the archive's name-to-data map, built as JSZip's `file` builds it, where a later file under a name replaces the earlier one.
- BuildArchiveLastWrite: that `zip.file` replaces an entry of the same name is JSZip's behaviour, assumed here: JSZip is not part of this model.
- Reading an upload (`file.text()`, `file.arrayBuffer()`) is modelled as always succeeding: a file carries its content, so a rejected read is not modelled.
- Batch.ProcessBatchLoop: the run is atomic. The `await` between marking a job and settling it is not interleaved with other calls, so a job added or removed during a run is not modelled. `LateJobsUntouched` states the snapshot behaviour for jobs appended before the run's updates.
- Batch.ProcessBatchSettlesPending: requires distinct job ids. The source draws them from `crypto.randomUUID`, modelled as a parameter.
- `crypto.randomUUID`, `crypto.getRandomValues` and `Date.now` are parameters, so each result is stated for every value they might return.
- The `options` argument of `convert` and of the handlers is ignored by every handler, so it is not modelled.
- The conversion page's `convert` and `setTargetFormat` are left out. `convert` calls the facade, then creates an object URL or shows an alert; the facade is `FileConverter.Convert`. `setTargetFormat` only stores its argument.
- localStorage persistence in the search history is not modelled; the list is the in-memory state.
- The 300 ms debounce of the navigation filter is taken as immediate.
- Text.Lower: `toLowerCase` is modelled for ASCII letters only. No other character is lowered.
- Strings are sequences of characters, not UTF-16 code units. Lengths of text with astral characters (the 1000-character preview limit, the password length) may differ from JavaScript's.
- ScrollHide.OnWindowScroll: `scrollY` is taken as an integer. Fractional scroll positions are not modelled.
- SearchHistory.ToggleTwice: toggling twice is not the identity for an entry whose `isFavorite` was absent. The flag comes back as `false` (see `ToggleTwiceFillsAbsentFlag`), so only the truth value is restored.
- Dropzone.OnInputSelected: a rejected file's message stays after a later valid choice through the file input, because only `onDrop` clears the error (see `InputSelectionKeepsStaleError`).
- MarkdownCompletion.ApplyEdit: how the editor applies an accepted suggestion (replacing its range with its insert text) is assumed, not taken from the editor's source.
- ConversionStrategy.Run: docx to pdf, html and md are modelled as written, rejecting before any library work because `docxToHtml` is not a method of the document converter. The rejection's message is the one V8 gives for a call of an undefined property; the corrected behaviour is `RunIntended`. The facade and the conversion page keep the pathways as written, because that is what a user of the application meets.
- PasswordGenerator.GeneratePasswords: length and count are integers. JavaScript numbers are not: a fractional length appends 'undefined' in non-unique mode, and a fractional count produces one more password than its integer part. Neither is modelled. The quota error is `QuotaExceededError` by name only; its message text is the browser's.
- Templates, styles, routes and presentation-only components are outside the model. This includes the CSS class chosen for a strength label.

## Findings

| source | as written | input that shows it | evidently intended | confidence | as-written member | corrected member |
|---|---|---|---|---|---|---|
| src/app/features/media-converter/pages/conversion-page/conversion-page.ts:209-214 | the name is `name.substring(0, name.lastIndexOf('.'))`, and `lastIndexOf` is -1 for a name without '.' | a file named 'README' with target 'pdf' gives '.pdf' | the name before the extension, or the whole name when it has none ('README.pdf'), as the batch archive's entry naming does | not executed | ConversionPage.DownloadNameOfDotlessName | ConversionPage.DownloadNameWithFallback, ConversionPage.DownloadNameAgreesWithArchive |
| src/app/features/editor/markdown-completion.service.ts:38-43 | the range starts at column `triggerIndex + 1`, which is the ':' itself, so accepting replaces the ':' | typing 'hi :sm' and accepting 'smile' leaves 'hi smile: ' | keep the ':' and complete the label, 'hi :smile: ', with the range starting at `triggerIndex + 2` | not executed | MarkdownCompletion.SmileExample, MarkdownCompletion.AcceptedSuggestionDropsColon | MarkdownCompletion.AcceptedSuggestionKeepsColon, MarkdownCompletion.ProvideCompletionItemsAfterColon |
| src/app/core/services/conversion-strategy-service.ts:75-93 | docx to pdf, html and md call `this.documentConverter.docxToHtml`, which the imported DocumentConverterService (document-converter-service.ts:16-134) does not define; the call also fails to type-check | any .docx file with target 'html', 'pdf' or 'md' rejects with a TypeError, whatever the document holds | an HTML conversion of the document (mammoth's `convertToHtml`), then the styled render, the text/html label or the Markdown conversion | not executed | ConversionStrategy.DocxHtmlPathwaysReject | ConversionStrategy.IntendedDocxToHtml, ConversionStrategy.IntendedDocxToPdf, ConversionStrategy.IntendedDocxToMd |
