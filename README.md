# CV upload and analysis: a Dafny model

The application lets a job seeker drop a CV (PDF, DOC or DOCX) into a chat
window. The browser extracts the text, reports progress as chat messages,
asks a Flask back end for debug statistics and an ATS analysis, and classifies
any failure into one apology message. This project models the core of that
flow and proves what it does:

- **Document parsing** (`frontend/utils/documentParser.js`), in
  `document_parser.dfy`. It covers the format check, the dispatch by MIME type
  and file-name extension, the PDF page loop and its error ladder, the
  parenthesised-run fallback for PDFs, DOCX and DOC extraction, and the text
  statistics put in the metadata. The PDF engine (pdf.js) and the DOCX engine
  (mammoth) are abstract inputs. `PdfEngine` lists what pdf.js can do: fail to
  initialise, fail to load with an error, or load pages that each yield text
  items or throw. `DocxEngine` does the same for mammoth.
- **The upload handler** (`handleFileUpload` in
  `frontend/components/ChatInterface.js`), in `chat_upload.dfy`. The handler
  is an imperative method over the store object. `Transcript` is the function
  it is proved against: the notes it adds, in order, and what it leaves in
  `uploadedCV`. The error classifier of its `catch` block is in
  `guidance.dfy`.
- **The client store** (`frontend/store/useStore.js`), in `store.dfy`. It is a
  class whose fields are the store's state. Each action changes exactly the
  fields it names.
- **The back end's bookkeeping** (`backend/app.py`), in `backend.dfy`. The
  `sessions` and `analyses` dictionaries are fields of a class. The handlers
  take their request fields as parameters and return a `Reply`. The listing of
  a session's analyses is a loop proved against `SummariesOf`.
- Shared pieces:
  - `js_text.dfy`: the string functions of JavaScript and Python the code
    relies on (`trim`, `includes`, `split`, white-space classes).
  - `classify.dfy`: a first-match rule table. Both error ladders are proved
    equal to it.
  - `values.dfy`: `Option`, `Result` and a JSON value type.

Where the code and its design description disagree, the model follows the
code:

- `parseDocument` sends a file to the PDF parser only when its MIME type is
  `application/pdf` (documentParser.js:272). There is no extension fallback
  for PDFs. A file named `cv.pdf` with another MIME type passes
  `isSupportedDocument` but is then rejected as an unsupported format
  (`SupportedButUnrouted`).
- The store does not define two of the actions that `ChatInterface.js`
  takes from it: `analyzeUploadedCV` and `setShowAnalysisPanel`
  (ChatInterface.js:41, 45). Calling either throws a `TypeError`. With the
  store as shipped, every accepted upload therefore clears the uploaded file,
  and an upload whose text was parsed ends with the apology that carries the
  generic tip (`ShippedStoreClearsEveryUpload`). An upload whose parse fails
  ends with the apology for the parser's own error instead
  (`ParseFailureTranscript`). The model keeps both outcomes of each call as
  parameters, so a working action is covered as well.
- Two rungs of the apology ladder never fire for the messages the parser
  throws:
  - The corrupt-PDF rung waits for "Invalid PDF", but the parser says
    "Invalid or corrupted PDF file".
  - The password rung waits for lower-case "password", but the parser says
    "Password-protected".

  Both messages get the generic tip (`CorruptPdfGetsGenericTip`,
  `PasswordPdfGetsGenericTip`).
- The blank-text check of the handler (ChatInterface.js:116-118) cannot
  fire: every parser returns text that is non-blank once trimmed
  (`BlankTextCheckIsDead`).

## Model

| member | source | states |
|---|---|---|
| DocumentParser.IsSupportedDocument | frontend/utils/documentParser.js:312-324 | defines the format check: one of the three MIME types, or a lower-cased name ending in ".pdf", ".doc" or ".docx"; its relation to the dispatch is stated by RoutedFilesAreSupported and SupportedButUnrouted |
| DocumentParser.RouteOf | frontend/utils/documentParser.js:260-293 | defines the dispatch: the PDF parser by MIME type only, then DOCX and DOC by type or lower-cased name, else none; stated by RoutedFilesAreSupported and SupportedButUnrouted |
| DocumentParser.RoutedFilesAreSupported | frontend/utils/documentParser.js:271-293 | a file the dispatch routes to a parser passes the format check, and the PDF route is taken exactly for the PDF MIME type |
| DocumentParser.SupportedButUnrouted | frontend/utils/documentParser.js:312-324 | a supported file finds no parser exactly when its type is not an allowed one and its lower-cased name ends in ".pdf" |
| DocumentParser.PageText | frontend/utils/documentParser.js:104-113 | defines one page's text: its non-blank runs, trimmed, joined by single spaces; stated by KeptRuns and PageTextTrimmed |
| DocumentParser.KeptRuns | frontend/utils/documentParser.js:106-110 | the page's kept text runs are non-empty and trimmed |
| DocumentParser.PageTextTrimmed | frontend/utils/documentParser.js:104-113 | a page's text is trimmed and is empty exactly when the page has no non-blank run |
| DocumentParser.PageTextsAppend | frontend/utils/documentParser.js:99-123 | the contributions of the pages concatenate in page order |
| DocumentParser.FailingPageIsSkipped | frontend/utils/documentParser.js:119-122 | a page that throws contributes nothing and the loop goes on |
| DocumentParser.PageContributes | frontend/utils/documentParser.js:113-116 | a read page contributes its text exactly when it has a non-blank run |
| DocumentParser.PageTextsTrimmed | frontend/utils/documentParser.js:113-116 | every contributed page text is non-empty and trimmed |
| DocumentParser.TerminatedIsJoin | frontend/utils/documentParser.js:114 | appending each text followed by a blank line is the blank-line join plus one trailing blank line |
| DocumentParser.PdfText | frontend/utils/documentParser.js:95-125 | defines the trimmed text of the page loop; stated by PdfTextJoinsPages and computed by AssemblePages |
| DocumentParser.PdfTextJoinsPages | frontend/utils/documentParser.js:95-125 | the trimmed PDF text is the contributing page texts joined by blank lines |
| DocumentParser.AssemblePages | frontend/utils/documentParser.js:95-123 | the page loop builds exactly the terminated concatenation of the contributing page texts |
| DocumentParser.PdfPrimary | frontend/utils/documentParser.js:69-151 | defines the outcome of `parsePDF` for each behaviour of pdf.js; stated by PdfPrimaryOutcome and computed by ParsePdf |
| DocumentParser.PdfErrorLadder | frontend/utils/documentParser.js:133-150 | defines the catch block of `parsePDF`; stated by PdfErrorLadderIsFirstMatch, NoReadablePdfRethrown and InitErrorMapped |
| DocumentParser.ParsePdf | frontend/utils/documentParser.js:69-151 | the imperative parse returns the primary PDF outcome (text or mapped error) |
| DocumentParser.PdfErrorLadderIsFirstMatch | frontend/utils/documentParser.js:133-150 | the catch block equals the first-match rule over its five rungs with the generic wrap as default |
| DocumentParser.NoReadablePdfRethrown | frontend/utils/documentParser.js:128-142 | the too-little-text error passes the ladder unchanged |
| DocumentParser.InitErrorMapped | frontend/utils/documentParser.js:143-144 | the pdf.js initialisation failure becomes the "PDF parser initialization failed" message |
| DocumentParser.PdfPrimaryOutcome | frontend/utils/documentParser.js:125-150 | a loaded document succeeds exactly when its joined page text, trimmed, has at least 10 characters, and returns that text; shorter text gives the no-readable-text error; a load failure gives its error mapped by the catch ladder; an initialisation failure gives its mapped message |
| DocumentParser.CloseAt | frontend/utils/documentParser.js:166 | the index found is the first ')' or the end |
| DocumentParser.ParenRuns | frontend/utils/documentParser.js:166-168 | defines the inner texts of the global matches of `/\(([^)]+)\)/g`, left to right; stated by ParenRunsSound, ParenRunsFrame and ParenRunsWithoutOpen |
| DocumentParser.ParenRunsSound | frontend/utils/documentParser.js:166-168 | every match's inner text is non-empty, has no ')' and occurs parenthesised in the raw text |
| DocumentParser.ParenRunsFrame | frontend/utils/documentParser.js:166-168 | a parenthesised run at the front is the first match, then the scan continues after it |
| DocumentParser.ParenRunsWithoutOpen | frontend/utils/documentParser.js:166 | text without '(' has no match |
| DocumentParser.Candidates | frontend/utils/documentParser.js:169 | the kept runs come from the matches, are longer than two and hold an ASCII letter |
| DocumentParser.CandidatesFacts | frontend/utils/documentParser.js:166-170 | every kept run is longer than two, holds an ASCII letter and occurs parenthesised in the file text |
| DocumentParser.PdfFallback | frontend/utils/documentParser.js:158-181 | defines `fallbackPDFExtraction`; stated by PdfFallbackOutcome |
| DocumentParser.PdfFallbackOutcome | frontend/utils/documentParser.js:158-181 | an unreadable file fails; otherwise the fallback succeeds exactly when the kept runs joined by spaces exceed 20 characters, returning that non-blank join; every failure is the one "All PDF extraction methods failed" error |
| DocumentParser.DocxLadder | frontend/utils/documentParser.js:208-216 | defines the catch block of `parseDocx`: the no-readable-text error is rethrown, any other is wrapped; stated by ParseDocxOutcome |
| DocumentParser.ParseDocx | frontend/utils/documentParser.js:188-217 | defines `parseDocx` for each behaviour of mammoth; stated by ParseDocxOutcome |
| DocumentParser.ParseDocxOutcome | frontend/utils/documentParser.js:188-217 | DOCX parsing succeeds exactly for raw text that is not all white space, returning it trimmed; blank text gives the no-readable-text error; an engine error that holds "No readable text" is rethrown unchanged, and any other becomes "Failed to parse DOCX file: " followed by its own message, as does an initialisation failure |
| DocumentParser.MaskUnprintable | frontend/utils/documentParser.js:234 | each character outside printable ASCII, newline, carriage return and tab becomes a space, position by position |
| DocumentParser.CleanDocText | frontend/utils/documentParser.js:233-236 | defines the DOC cleaning: mask, collapse white space, trim; stated by CleanDocTextShape and CleanDocTextPrintable |
| DocumentParser.CleanDocTextShape | frontend/utils/documentParser.js:233-236 | the cleaned DOC text is trimmed, single-spaced and keeps every non-space character of the masked input in order |
| DocumentParser.CleanDocTextPrintable | frontend/utils/documentParser.js:233-236 | the cleaned DOC text holds only printable ASCII |
| DocumentParser.ParseDoc | frontend/utils/documentParser.js:225-248 | defines `parseDoc`; stated by ParseDocOutcome |
| DocumentParser.ParseDocOutcome | frontend/utils/documentParser.js:225-248 | DOC parsing succeeds exactly when the file reads and its cleaned text has at least 10 characters, returning that text; every failure is the single "Failed to parse DOC file" error |
| DocumentParser.ExtractText | frontend/utils/documentParser.js:260-293 | defines the text the dispatch yields, with the PDF fallback after a primary failure; computed by RunParser and stated by ExtractedTextIsNotBlank, PdfRouteKeepsPrimaryError and UnsupportedIgnoresEngines |
| DocumentParser.MetadataOf | frontend/utils/documentParser.js:264-298 | defines the metadata: the file's name, size, type and modification time, then the word, character and line counts; stated by TextStatistics and ParsedDocumentFacts |
| DocumentParser.ExtractDocument | frontend/utils/documentParser.js:255-305 | defines the result of `parseDocument`; computed by ParseDocument and stated by ParsedDocumentFacts |
| DocumentParser.RunParser | frontend/utils/documentParser.js:271-293 | the dispatch returns the routed parser's outcome, with the PDF fallback tried only after the primary parse fails |
| DocumentParser.ParseDocument | frontend/utils/documentParser.js:255-305 | `parseDocument` returns the extracted text with its metadata, or the parser's error |
| DocumentParser.UnsupportedIgnoresEngines | frontend/utils/documentParser.js:291-293 | an unsupported file is rejected with the unsupported-format error whatever the engines do |
| DocumentParser.ExtractedTextIsNotBlank | frontend/utils/documentParser.js:271-300 | on every route, extracted text is non-blank once trimmed |
| DocumentParser.PdfRouteKeepsPrimaryError | frontend/utils/documentParser.js:272-286 | on the PDF route a failure carries the primary parser's error and only after the fallback also failed; a fallback success is returned as is |
| DocumentParser.TextStatistics | frontend/utils/documentParser.js:295-298 | the line count is the newline count plus one and the lines join back into the text; the word count counts maximal non-space runs, which together hold all non-space characters |
| DocumentParser.ParsedDocumentFacts | frontend/utils/documentParser.js:263-300 | a parsed document carries the extracted text, and its metadata copies the file's name, size, type and modification time |
| UploadGuidance.Tip | frontend/components/ChatInterface.js:173-189 | defines the tip the catch block picks for a thrown message, rung by rung; stated by LadderRungs and GuidanceIsFirstMatch |
| UploadGuidance.Guidance | frontend/components/ChatInterface.js:171-194 | defines the system message of the catch block: the apology lead and the tip; stated by GuidanceIsFirstMatch, GuidanceStartsWithApology and the per-message lemmas below |
| UploadGuidance.LadderRungs | frontend/components/ChatInterface.js:173-189 | for each rung, the rung fires exactly when the message holds one of its needles |
| UploadGuidance.GuidanceIsFirstMatch | frontend/components/ChatInterface.js:171-189 | the apology is the fixed lead plus the tip of the first rung whose needle the message holds, or the generic tip |
| UploadGuidance.GuidanceStartsWithApology | frontend/components/ChatInterface.js:171 | every apology starts with "Sorry, I encountered an error processing your CV. " |
| UploadGuidance.NoReadablePdfGuidance | frontend/components/ChatInterface.js:173-174 | the image-based PDF error gets the empty-document tip |
| UploadGuidance.NoTextContentGuidance | frontend/components/ChatInterface.js:116-117 | the blank-text error gets the empty-document tip |
| UploadGuidance.NoReadableDocxGuidance | frontend/components/ChatInterface.js:173-174 | the empty DOCX error gets the empty-document tip |
| UploadGuidance.InvalidPdfGuidance | frontend/components/ChatInterface.js:175-188 | the corrupt-PDF error misses the "Invalid PDF" rung and gets the generic tip |
| UploadGuidance.PasswordPdfGuidance | frontend/components/ChatInterface.js:177-188 | the password-protected PDF error misses the lower-case "password" rung and gets the generic tip |
| UploadGuidance.PdfInitFailedGuidance | frontend/components/ChatInterface.js:179-180 | the PDF parser initialisation error gets the initialisation tip |
| UploadGuidance.PdfNetworkGuidance | frontend/components/ChatInterface.js:179-180 | the PDF network error also gets the initialisation tip, through "PDF parser" |
| UploadGuidance.DocFailedGuidance | frontend/components/ChatInterface.js:185-186 | the DOC error gets the DOC-format tip |
| UploadGuidance.UnsupportedGuidance | frontend/components/ChatInterface.js:187-188 | the unsupported-format error gets the generic tip |
| UploadGuidance.MissingAnalyzeActionGuidance | frontend/components/ChatInterface.js:150 | the TypeError of the missing analysis action gets the generic tip |
| UploadGuidance.MissingPanelActionGuidance | frontend/components/ChatInterface.js:166 | the TypeError of the missing panel action gets the generic tip |
| ChatUpload.AsMessage | frontend/components/ChatInterface.js:160-164 | each message object has exactly a type and a content, plus `hasActions` only on the analysis-complete message |
| ChatUpload.TryBlock | frontend/components/ChatInterface.js:99-166 | defines what the body of the `try` adds and which message escapes it; stated by AttemptHasNoApology, EscapingError, AnsweredAttempt and DebugBlockIsContained, and computed by Report |
| ChatUpload.Conclude | frontend/components/ChatInterface.js:168-198 | defines how an accepted upload ends after the `try` body: the file kept, or the apology added and the file cleared; stated by ConclusionShape, ClearedConclusion and AnsweredConclusion |
| ChatUpload.Transcript | frontend/components/ChatInterface.js:63-199 | defines the whole run of the handler: the notes it adds and what it leaves in `uploadedCV`; computed by HandleFileUpload and stated by RejectedUpload, AcceptedUploadOutcome and the lemmas below |
| ChatUpload.HandleFileUpload | frontend/components/ChatInterface.js:63-199 | the store's messages grow by exactly the transcript's notes, each stamped; `uploadedCV` ends as the transcript says; every other field is unchanged; an accepted file is in the store while it is parsed |
| ChatUpload.UploadAccepted | frontend/components/ChatInterface.js:82-198 | for a file past both checks, the messages grow by exactly the transcript's notes and `uploadedCV` ends as the transcript says, the file having been stored before parsing |
| ChatUpload.OpenUpload | frontend/components/ChatInterface.js:82-93 | the file is stored and the upload and processing messages are added, nothing else |
| ChatUpload.FinishUpload | frontend/components/ChatInterface.js:99-198 | after the opening, the `try` body and the `catch` block add exactly the concluded notes and keep or clear the file as the conclusion says |
| ChatUpload.Report | frontend/components/ChatInterface.js:99-166 | the body of the `try` adds exactly the attempt's notes and lets exactly the attempt's error escape |
| ChatUpload.DebugBlock | frontend/components/ChatInterface.js:125-148 | the debug block adds the backend warning when unhealthy, then the debug report, and lets nothing escape |
| ChatUpload.RequestAnalysis | frontend/components/ChatInterface.js:150-166 | the analysis call adds its debug message when present and the analysis-complete message, or lets its failure escape; a panel-action failure escapes after those |
| ChatUpload.Post | frontend/components/ChatInterface.js:83-86 | adding one message appends one stamped entry and changes nothing else |
| ChatUpload.LogGrows | frontend/components/ChatInterface.js:83-86 | adding one note to the record adds its stamped message at the end of the log |
| ChatUpload.RejectedUpload | frontend/components/ChatInterface.js:65-80 | a rejected file gets one system note (format checked before size), leaves `uploadedCV` alone and ignores every collaborator |
| ChatUpload.SizeLimitIsInclusive | frontend/components/ChatInterface.js:74 | a supported file is refused exactly when it is larger than 10485760 bytes |
| ChatUpload.AcceptedUploadOutcome | frontend/components/ChatInterface.js:82-199 | an accepted upload opens with the upload and processing notes, then either keeps the file with no apology or clears it with the apology as its one last note |
| ChatUpload.ConclusionShape | frontend/components/ChatInterface.js:168-198 | after a `try` body that adds no apology, the catch block adds the only apology, last, exactly when an error escaped, and then clears the file; otherwise the file is kept |
| ChatUpload.ClearedConclusion | frontend/components/ChatInterface.js:171-197 | an escaping error clears the file and puts the apology for its message last |
| ChatUpload.AttemptHasNoApology | frontend/components/ChatInterface.js:88-166 | the `try` body itself never adds an apology or a rejection note |
| ChatUpload.OnlyApologyReadsAsOne | frontend/components/ChatInterface.js:171-194 | the apology starts with its fixed lead, and no other message does |
| ChatUpload.ContentStart | frontend/components/ChatInterface.js:66-164 | every other message is non-empty and does not start with 'S' |
| ChatUpload.ParsedStart | frontend/components/ChatInterface.js:121-124 | the parsed message starts with its check-mark emoji |
| ChatUpload.FixedTextStarts | frontend/components/ChatInterface.js:66-131 | the format rejection starts with 'P', the size rejection with 'F' and the backend warning with the warning sign |
| ChatUpload.UploadedStart | frontend/components/ChatInterface.js:83-86 | the upload message starts with the paper-clip emoji |
| ChatUpload.ProcessingStart | frontend/components/ChatInterface.js:90-93 | the processing message starts with "Processing" |
| ChatUpload.DebugStart | frontend/components/ChatInterface.js:138-147 | the debug report starts with the tools emoji, and its failure with the warning sign |
| ChatUpload.AnalysisInfoStart | frontend/components/ChatInterface.js:153-157 | the analysis debug message starts with the magnifier emoji |
| ChatUpload.CompleteStart | frontend/components/ChatInterface.js:160-163 | the analysis-complete message starts with the party emoji |
| ChatUpload.BlankTextCheckIsDead | frontend/components/ChatInterface.js:116-118 | parsed text is never blank, so the parsed message with the metadata word count always comes first |
| ChatUpload.ParsedTextIsNotBlank | frontend/components/ChatInterface.js:99-118 | text that `parseDocument` returns never fails the blank-text check |
| ChatUpload.DebugBlockIsContained | frontend/components/ChatInterface.js:125-148 | the health check and the debug call never change the escaping error, and the backend warning is added exactly when the backend is unhealthy |
| ChatUpload.ParseFailureTranscript | frontend/components/ChatInterface.js:168-197 | a parse failure gives the two opening notes, then the apology for the parser's error, and clears the file |
| ChatUpload.ShippedStoreClearsEveryUpload | frontend/components/ChatInterface.js:150 | with the missing analysis action, every accepted upload clears the file, and a parsed one ends with the apology that carries the generic tip |
| ChatUpload.AnsweredAnalysisKeepsFile | frontend/components/ChatInterface.js:150-166 | an answered analysis with a working panel action keeps the file and ends with the one message that has actions |
| ChatUpload.AnsweredAttempt | frontend/components/ChatInterface.js:120-166 | for parsed text and an answered analysis with a working panel action, the `try` body throws nothing and only its last message offers actions |
| ChatUpload.AnsweredConclusion | frontend/components/ChatInterface.js:120-166 | for parsed text, an answered analysis and a working panel action, the upload keeps the file and only its last message, the analysis-complete one, offers actions |
| ChatUpload.MissingPanelActionClearsFile | frontend/components/ChatInterface.js:166 | even after a successful analysis, the missing panel action clears the file and its apology, with the generic tip, comes last |
| ChatUpload.EscapingError | frontend/components/ChatInterface.js:150-166 | once the text is parsed, the error that escapes the `try` body is the analysis call's failure, or, when it answers, the panel action's failure, if any |
| ChatUpload.CorruptPdfGetsGenericTip | frontend/components/ChatInterface.js:175-176 | a corrupt PDF whose fallback fails gives exactly the two opening notes and an apology with the generic tip, not the corrupt-file tip, and clears the file |
| ChatUpload.PasswordPdfGetsGenericTip | frontend/components/ChatInterface.js:177-178 | a password-protected PDF whose fallback fails gives exactly the two opening notes and an apology with the generic tip, and clears the file |
| Store.Stamped | frontend/store/useStore.js:38-44 | a stamped message has the message's keys plus id and timestamp, and the message's own keys win |
| Store.Merge | frontend/store/useStore.js:31-34 | the merged `cvData` has both key sets; result keys take the result's values and other keys keep theirs; null results change nothing |
| Store.MergeFacts | frontend/store/useStore.js:33 | merging the same results twice equals merging once, and no key is lost |
| Store.ResetFacts | frontend/store/useStore.js:50-66 | reset gives the initial state except `isTyping`, which it keeps, and is idempotent |
| Store.CvStore.constructor | frontend/store/useStore.js:5-24 | a fresh store holds the initial state |
| Store.CvStore.SetUploadedCV | frontend/store/useStore.js:27 | only `uploadedCV` changes |
| Store.CvStore.SetCurrentPhase | frontend/store/useStore.js:29 | only `currentPhase` changes |
| Store.CvStore.SetAnalysisResults | frontend/store/useStore.js:31-34 | only `analysisResults` and `cvData` change, the latter to the merge |
| Store.CvStore.SetIsAnalyzing | frontend/store/useStore.js:36 | only `isAnalyzing` changes |
| Store.CvStore.AddMessage | frontend/store/useStore.js:38-44 | exactly one message is appended, stamped with the given id and timestamp, and nothing else changes |
| Store.CvStore.SetIsTyping | frontend/store/useStore.js:46 | only `isTyping` changes |
| Store.CvStore.ClearMessages | frontend/store/useStore.js:48 | only `messages` changes, to empty |
| Store.CvStore.ResetAnalysis | frontend/store/useStore.js:50-66 | the state becomes its reset (see ResetFacts) |
| Backend.WindowFacts | backend/app.py:56-57 | the two debug windows are the text's prefix and suffix of up to 200 characters; short texts show whole, and long ones split into head, unseen middle and tail |
| Backend.PreviewFacts | backend/app.py:137-139 | the preview is the text up to 100 characters, else 103 characters keeping the first 100 and ending in "..." |
| Backend.DebugParse | backend/app.py:47-48 | the 400 "Missing cv_text" comes exactly when `cv_text` is missing or empty |
| Backend.DebugParseReport | backend/app.py:50-60 | the report holds the text, its length, newline count plus one lines, its Python word runs and the two windows, with "unknown.pdf" for an absent file name |
| Backend.NewAnalysis | backend/app.py:127-141 | defines the analysis record `analyze_cv` stores; stated by NewAnalysisFacts |
| Backend.NewAnalysisFacts | backend/app.py:127-141 | a new analysis carries its id, session, file name, the text's length and word count, and its preview |
| Backend.KnownIds | backend/app.py:218-219 | defines the listed ids that name a stored analysis, in order; stated by KnownIdsFacts |
| Backend.SummariesOf | backend/app.py:215-231 | defines the listing `get_session_analyses` returns; stated by SummariesFollowKnownIds and SummariesFrame, and computed by CvBackend.GetSessionAnalyses |
| Backend.KnownIdsFacts | backend/app.py:218-219 | an id is listed exactly when it is in the session's list and stored; nothing is dropped when every listed id is stored |
| Backend.SummariesFollowKnownIds | backend/app.py:215-231 | the listing has one summary per kept id, in list order, taken from that stored analysis |
| Backend.SummariesFrame | backend/app.py:218-229 | the listing depends only on the records of the listed ids |
| Backend.Opened | backend/app.py:25-29 | defines `sessions` after `create_session`; stated by OpenedFacts |
| Backend.Attached | backend/app.py:190-192 | defines `sessions` after `analyze_cv` attaches the new id; stated by AttachedFacts |
| Backend.OpenedFacts | backend/app.py:24-30 | creating a session adds exactly its key with an empty list, leaves other sessions unchanged and keeps the bookkeeping consistent |
| Backend.AttachedFacts | backend/app.py:190-192 | an unknown session is left as is; a known one gets the id appended, and no other session changes |
| Backend.AnalyzeKeepsConsistent | backend/app.py:187-192 | storing a fresh analysis and attaching it keeps every record under its own id and every listed id stored for its session |
| Backend.ConsistentListsEverything | backend/app.py:212-231 | in consistent bookkeeping a session's listing skips nothing: one summary per listed id, in order |
| Backend.NewAnalysisListedLast | backend/app.py:188-192 | after a new analysis for a known session, its listing is the old listing plus the new summary |
| Backend.ContextMessage | backend/app.py:267-274 | defines the contextual chat reply naming the stored file and its score; stated by ChatRepliesDiffer |
| Backend.ChatRepliesDiffer | backend/app.py:267-281 | the contextual reply names the file after its opening words and differs from the general reply |
| Backend.CvBackend.constructor | backend/app.py:11-12 | both dictionaries start empty, which is consistent |
| Backend.CvBackend.CreateSession | backend/app.py:22-30 | the id is "cv_session_" with the seconds and 8 hex digits, the session is stored with an empty list, and consistency is kept |
| Backend.CvBackend.AnalyzeCv | backend/app.py:84-194 | a missing or empty session id, text or file name gives a 400 and changes nothing; otherwise the analysis is stored under its id and attached only to an existing session, keeping consistency for a fresh id |
| Backend.CvBackend.GetAnalysis | backend/app.py:201-206 | the stored record for a known id (whose own id matches when consistent), else a 404 "Analysis not found" |
| Backend.CvBackend.GetSessionAnalyses | backend/app.py:210-231 | a 404 for an unknown session; otherwise the loop returns exactly the summaries of the stored analyses the session lists, in order |
| Backend.CvBackend.Chat | backend/app.py:245-284 | a 400 without session id or message; otherwise `has_actions` holds exactly when the analysis id is given and stored, with the contextual reply then and the general one otherwise |

## Left out

- The engines (pdf.js, mammoth) are not modelled. Only their possible outcomes
  are inputs, and their dynamic loading and worker set-up
  (documentParser.js:2-62) are not part of this model.
- Reading a file (`arrayBuffer`, `text()`) is an input: the text, or `None`
  when reading fails.
- The `typeof window` guards are left out, since the model is always on the
  client.
- `formatFileSize` and `debugFileInfo` are left out. The size label is a
  parameter. `debugFileInfo` logs the file's details, and it also converts
  `lastModified` to an ISO date (documentParser.js:351). That conversion
  throws a `RangeError` when `lastModified` is beyond 8.64e15 milliseconds
  from the epoch; the handler would then give the generic apology and clear
  the file without parsing. This `RangeError` is left out: the model's
  `lastModified` is unbounded and the handler always goes on to parse.
- Logging (`console.*`, `print`) is left out.
- The network calls `checkBackendHealth`, `debugParseText` and the analysis
  action are modelled by their outcomes only. The body of `frontend/utils/api.js`
  is not part of this model.
- Lengths count Unicode scalar values. JavaScript's `length` counts UTF-16
  code units, so the 10-character, 20-character and 2-character thresholds
  differ for text outside the Basic Multilingual Plane.
- `toLowerCase` is modelled on ASCII letters only. No other character
  lower-cases into one of the extension letters, so the extension tests are
  unaffected.
- The regular expression `/\s+/` is modelled with JavaScript's white-space
  class and Python's `split()` with `str.isspace`. Both are written out as
  character classes.
- Message templates are rendered with their interpolated values given as
  strings (word counts, scores). The number formatting of JavaScript is not
  modelled.
- Every message of one upload carries the same clock reading, used for both
  its id and its timestamp. In the source, the clock is read twice per
  message (`Date.now()` for the id, `new Date()` for the timestamp) and anew
  for each message. `Store.CvStore.AddMessage` itself takes the two readings
  as separate parameters.
- A thrown value that is not an `Error` (so has no `message`) is left out.
  Every failure carries a message.
- Object key order in message objects is left out; objects are maps.
- ChatUpload.HandleFileUpload: the handler runs to completion with no other
  store action between its `await`s (ChatInterface.js:96, 99, 127, 135, 150).
  In the source, `handleSubmit`, a second upload or the sidebar's
  `resetAnalysis` may run at those points and add messages or set
  `uploadedCV`; an earlier upload's catch block can then clear a later
  upload's file. The contract holds only when nothing interleaves.
- The chat's other handlers (sending messages, drag and drop) and the other
  components are not part of this model.
- The back end's JSON parsing, and the 500 responses for exceptions, are left
  out. The request fields are given as optional strings, and non-string JSON
  values for them are left out.
- The placeholder keyword, suggestion, question, strength and
  improvement lists of an analysis are left out. They are constants; only
  the placeholder score and role are kept.
- `/health` is left out: it only reports the clock.
- Ids and time stamps (uuid, `datetime.now()`) are parameters.
- Backend.CvBackend.AnalyzeCv: consistency is promised only for a fresh
  analysis id, since a reused uuid would overwrite a record of another
  session.
