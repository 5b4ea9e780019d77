/** The chat's upload handler (`handleFileUpload`): check the file's format,
    then its size, keep the file in the store, parse it, report progress and
    the backend's debug answers as chat messages, ask for an analysis, and on
    any thrown error add one classified apology and forget the file.

    The handler's collaborators are parameters (`UploadEnv`): the document
    engines, the answers of the health check, of the debug endpoint and of the
    analysis action, the failure of the panel action, the formatted file size
    and the one clock reading stamped on the messages. */
module ChatUpload {
  import opened JsText
  import opened Values
  import opened DocumentParser
  import opened Store
  import opened UploadGuidance

  /** The size limit: 10 * 1024 * 1024 bytes, itself accepted. */
  const MAX_UPLOAD_BYTES := 10 * 1024 * 1024

  function NotSupportedText(): string {
    "Please upload a PDF, DOC, or DOCX " + "document."
  }

  function TooLargeText(): string {
    "File size should be less than 10MB."
  }

  // ------------------------------------------------------------ the notes

  /** The debug endpoint's answer, its numbers as the template renders them. */
  datatype DebugCall =
    | DebugFailed(message: string)
    | DebugAnswered(textLength: string, wordCount: string, lineCount: string, success: bool)

  /** The `debug_info` of an analysis, as the template renders it. */
  datatype AnalysisDebug = AnalysisDebug(textLength: string, wordCount: string, preview: string, parsingSuccessful: bool)

  /** The analysis action's outcome: the message of what it threw, or its
      answer with the score and role as the template renders them. */
  datatype AnalysisCall =
    | AnalysisFailed(message: string)
    | AnalysisAnswered(debugInfo: Option<AnalysisDebug>, atsScore: string, identifiedRole: string)

  /** The chat messages the handler adds, by what they report. */
  datatype Note =
    | NotSupported
    | TooLarge
    | Uploaded(name: string, sizeLabel: string)
    | Processing(name: string)
    | Parsed(wordCount: nat)
    | BackendDown
    | DebugReport(call: DebugCall)
    | AnalysisInfo(info: AnalysisDebug)
    | Complete(name: string, atsScore: string, identifiedRole: string)
    | Apology(text: string)

  function Kind(note: Note): string {
    match note
    case Uploaded(_, _) => "user"
    case Processing(_) => "assistant"
    case Parsed(_) => "assistant"
    case Complete(_, _, _) => "assistant"
    case _ => "system"
  }

  /** Only the completion message offers the follow-up actions. */
  predicate HasActions(note: Note) {
    note.Complete?
  }

  /** The text of each message. */
  function Content(note: Note): string {
    match note
    case NotSupported => NotSupportedText()
    case TooLarge => TooLargeText()
    case Uploaded(name, sizeLabel) => "\U{1F4CE} Uploaded CV: " + name + " (" + sizeLabel + ")"
    case Processing(name) => "Processing \"" + name + "\"... Please wait while I extract " + "and analyze the content."
    case Parsed(wordCount) =>
      "\U{2705} Document parsed successfully (" + IntToString(wordCount) + " words). Now analyzing " + "content..."
    case BackendDown => BackendDownText()
    case DebugReport(call) => DebugText(call)
    case AnalysisInfo(info) => AnalysisInfoText(info)
    case Complete(name, atsScore, identifiedRole) => CompleteText(name, atsScore, identifiedRole)
    case Apology(text) => text
  }

  function BackendDownText(): string {
    "\U{26A0}\U{FE0F} Backend service is not " + "available. Please ensure the Flask " + "backend is running on port 5000."
  }

  function DebugText(call: DebugCall): string {
    match call
    case DebugFailed(message) =>
      "\U{26A0}\U{FE0F} Debug endpoint failed: " + message + ". Backend may not be running."
    case DebugAnswered(textLength, wordCount, lineCount, success) =>
      "\U{1F6E0}\U{FE0F} **Backend Debug Info:**\n\U{2022} Received " + textLength +
      " characters\n\U{2022} " + wordCount + " words, " + lineCount +
      " lines\n\U{2022} Backend processing: " + (if success then "\U{2705} Success" else "\U{274C} Failed")
  }

  function AnalysisInfoText(info: AnalysisDebug): string {
    "\U{1F50D} **Debug Info:**\n\U{2022} Text length: " + info.textLength +
    " characters\n\U{2022} Word count: " + info.wordCount +
    " words\n\U{2022} Preview: \"" + info.preview +
    "\"\n\U{2022} Parsing successful: " + (if info.parsingSuccessful then "\U{2705}" else "\U{274C}")
  }

  function CompleteText(name: string, atsScore: string, identifiedRole: string): string {
    "\U{1F389} Analysis complete! Your CV \"" + (name + "\" scored **" + atsScore +
    "%** on ATS compatibility.\n\n" + "**Identified Role:** " + identifiedRole +
    "\n\n\U{1F50D} I can help you with:\n" +
    "\U{2022} **ATS Optimization** - " + "Improve compatibility scores\n" +
    "\U{2022} **Keyword Analysis** - " + "Find missing industry keywords\n" +
    "\U{2022} **Content Suggestions** - " + "Get personalized recommendations\n" +
    "\U{2022} **Interview Preparation** - " + "Practice with role-specific questions\n\n" +
    "What would you like to explore first?")
  }

  /** The object passed to `addMessage`; `hasActions` is present only on the
      message that offers the follow-up actions. */
  function AsMessage(note: Note): (m: JsObject)
    ensures "type" in m && "content" in m
    ensures m["type"] == JStr(Kind(note)) && m["content"] == JStr(Content(note))
    ensures "hasActions" in m <==> HasActions(note)
    ensures m.Keys <= {"type", "content", "hasActions"}
  {
    map["type" := JStr(Kind(note)), "content" := JStr(Content(note))] +
      (if HasActions(note) then map["hasActions" := JBool(true)] else map[])
  }

  /** Everything the handler learns from outside. */
  datatype UploadEnv = UploadEnv(
    engines: Engines,
    backendHealthy: bool,
    debug: DebugCall,
    analysis: AnalysisCall,
    panelFailure: Option<string>,
    sizeLabel: string,
    now: int)

  // -------------------------------------------------- what the handler does

  /** Whether the file gets past both checks. */
  predicate Accepted(file: UploadedFile) {
    IsSupportedDocument(file) && file.size <= MAX_UPLOAD_BYTES
  }

  /** The notes the body of the `try` adds and the message of the error it
      throws, if any, given what `parseDocument` returned. */
  datatype Attempt = Attempt(notes: seq<Note>, thrown: Option<string>)

  /** The locally caught debug block: a warning when the backend is not
      healthy, then the debug endpoint's answer or its failure. */
  function DebugNotes(env: UploadEnv): seq<Note> {
    (if env.backendHealthy then [] else [BackendDown]) + [DebugReport(env.debug)]
  }

  function AnalysisNotes(file: UploadedFile, info: Option<AnalysisDebug>, atsScore: string, identifiedRole: string): seq<Note> {
    (if info.Some? then [AnalysisInfo(info.value)] else []) + [Complete(file.name, atsScore, identifiedRole)]
  }

  /** The analysis request and the panel action that follows it: the notes
      they add and the error that escapes, if any. */
  function AnalysisStep(file: UploadedFile, env: UploadEnv): Attempt {
    match env.analysis
    case AnalysisFailed(message) => Attempt([], Some(message))
    case AnalysisAnswered(info, atsScore, identifiedRole) =>
      Attempt(AnalysisNotes(file, info, atsScore, identifiedRole), env.panelFailure)
  }

  function TryBlock(parsed: Result<ParsedDocument, JsError>, file: UploadedFile, env: UploadEnv): Attempt {
    match parsed
    case Failure(e) => Attempt([], Some(e.message))
    case Success(doc) =>
      if IsBlank(doc.text) then Attempt([], Some(NO_TEXT_CONTENT))
      else
        var rest := AnalysisStep(file, env);
        Attempt([Parsed(doc.metadata.wordCount)] + DebugNotes(env) + rest.notes, rest.thrown)
  }

  /** What happens to the store's uploaded file. */
  datatype CvChange = Untouched | Holds(file: UploadedFile) | Cleared

  datatype Effect = Effect(notes: seq<Note>, cv: CvChange)

  /** The two notes every accepted upload starts with. */
  function Opening(file: UploadedFile, env: UploadEnv): seq<Note> {
    [Uploaded(file.name, env.sizeLabel), Processing(file.name)]
  }

  /** The whole run of the handler: the notes it adds, in order, and what it
      leaves in the store's `uploadedCV`. */
  function Transcript(file: UploadedFile, env: UploadEnv): Effect {
    if !IsSupportedDocument(file) then Effect([NotSupported], Untouched)
    else if file.size > MAX_UPLOAD_BYTES then Effect([TooLarge], Untouched)
    else
      Conclude(file, env, TryBlock(ExtractDocument(file, env.engines), file, env))
  }

  /** How an accepted upload ends once the body of the `try` has run: the
      file is kept, or the catch block adds the apology and clears it. */
  function Conclude(file: UploadedFile, env: UploadEnv, attempt: Attempt): Effect {
    match attempt.thrown
    case None => Effect(Opening(file, env) + attempt.notes, Holds(file))
    case Some(message) => Effect(Opening(file, env) + attempt.notes + [Apology(Guidance(message))], Cleared)
  }

  function CvAfter(before: Option<UploadedFile>, change: CvChange): Option<UploadedFile> {
    match change
    case Untouched => before
    case Holds(file) => Some(file)
    case Cleared => None
  }

  /** The message the store keeps for a note, stamped with the clock reading. */
  function Entry(note: Note, now: int): JsObject {
    Stamped(AsMessage(note), now, now)
  }

  /** The messages the notes become when added one by one, all stamped with
      the same clock reading. */
  function Log(notes: seq<Note>, now: int): seq<JsObject> {
    MapSeq(note => Entry(note, now), notes)
  }

  /** Adding one note adds its entry at the end of the log. */
  lemma LogGrows(notes: seq<Note>, note: Note, now: int)
    ensures Log(notes + [note], now) == Log(notes, now) + [Entry(note, now)]
  {
    MapSnoc(n => Entry(n, now), notes, note);
  }

  /** `f` applied to every element of `s`, in order. */
  function MapSeq<A, B>(f: A -> B, s: seq<A>): seq<B> {
    seq(|s|, i requires 0 <= i < |s| => f(s[i]))
  }

  lemma MapSnoc<A, B>(f: A -> B, s: seq<A>, x: A)
    ensures MapSeq(f, s + [x]) == MapSeq(f, s) + [f(x)]
  {
    var a, b := MapSeq(f, s + [x]), MapSeq(f, s) + [f(x)];
    assert |a| == |b|;
    forall i | 0 <= i < |a|
      ensures a[i] == b[i]
    {
      if i < |s| {
        assert (s + [x])[i] == s[i];
      }
    }
  }

  // ------------------------------------------------------------ the method

  /** Adds one note to the store and to the ghost record of what was said. */
  method Post(store: CvStore, note: Note, now: int, ghost base: seq<JsObject>, ghost said: seq<Note>)
    returns (ghost said': seq<Note>)
    modifies store`messages
    requires store.messages == base + Log(said, now)
    ensures said' == said + [note]
    ensures store.messages == base + Log(said', now)
    ensures store.State() == old(store.State()).(messages := store.messages)
  {
    store.AddMessage(AsMessage(note), now, now);
    said' := said + [note];
    LogGrows(said, note, now);
    AppendAssociates(base, Log(said, now), [Entry(note, now)]);
  }

  lemma AppendAssociates<T>(a: seq<T>, b: seq<T>, c: seq<T>)
    ensures a + b + c == a + (b + c)
  {
  }

  /** The body of the `try` after `parseDocument` returned `parsed`: check
      the text, report, ask for the analysis and open the panel; `thrown` is
      the message of the error that escapes. */
  method Report(store: CvStore, parsed: Result<ParsedDocument, JsError>, file: UploadedFile, env: UploadEnv,
                ghost base: seq<JsObject>, ghost said: seq<Note>)
    returns (thrown: Option<string>, ghost said': seq<Note>)
    modifies store`messages
    requires store.messages == base + Log(said, env.now)
    ensures said' == said + TryBlock(parsed, file, env).notes && thrown == TryBlock(parsed, file, env).thrown
    ensures store.messages == base + Log(said', env.now)
    ensures store.State() == old(store.State()).(messages := store.messages)
  {
    said' := said;
    if parsed.Failure? {
      return Some(parsed.error.message), said';
    }
    var text, metadata := parsed.value.text, parsed.value.metadata;
    if IsBlank(text) {
      return Some(NO_TEXT_CONTENT), said';
    }
    said' := Post(store, Parsed(metadata.wordCount), env.now, base, said');
    said' := DebugBlock(store, env, base, said');
    thrown, said' := RequestAnalysis(store, file, env, base, said');
  }

  /** The debug block, which catches its own failures. */
  method DebugBlock(store: CvStore, env: UploadEnv, ghost base: seq<JsObject>, ghost said: seq<Note>)
    returns (ghost said': seq<Note>)
    modifies store`messages
    requires store.messages == base + Log(said, env.now)
    ensures said' == said + DebugNotes(env)
    ensures store.messages == base + Log(said', env.now)
    ensures store.State() == old(store.State()).(messages := store.messages)
  {
    if env.backendHealthy {
      said' := Post(store, DebugReport(env.debug), env.now, base, said);
      assert DebugNotes(env) == [DebugReport(env.debug)];
    } else {
      said' := Post(store, BackendDown, env.now, base, said);
      said' := Post(store, DebugReport(env.debug), env.now, base, said');
      assert DebugNotes(env) == [BackendDown] + [DebugReport(env.debug)];
      AppendAssociates(said, [BackendDown], [DebugReport(env.debug)]);
    }
  }

  /** The call to `analyzeUploadedCV` and, when it answers, the notes about
      its result and the call to `setShowAnalysisPanel`. */
  method RequestAnalysis(store: CvStore, file: UploadedFile, env: UploadEnv, ghost base: seq<JsObject>, ghost said: seq<Note>)
    returns (thrown: Option<string>, ghost said': seq<Note>)
    modifies store`messages
    requires store.messages == base + Log(said, env.now)
    ensures said' == said + AnalysisStep(file, env).notes && thrown == AnalysisStep(file, env).thrown
    ensures store.messages == base + Log(said', env.now)
    ensures store.State() == old(store.State()).(messages := store.messages)
  {
    said' := said;
    match env.analysis {
      case AnalysisFailed(message) =>
        thrown := Some(message);
      case AnalysisAnswered(info, atsScore, identifiedRole) =>
        var complete := Complete(file.name, atsScore, identifiedRole);
        if info.Some? {
          said' := Post(store, AnalysisInfo(info.value), env.now, base, said');
          said' := Post(store, complete, env.now, base, said');
          assert AnalysisNotes(file, info, atsScore, identifiedRole) == [AnalysisInfo(info.value)] + [complete];
          AppendAssociates(said, [AnalysisInfo(info.value)], [complete]);
        } else {
          said' := Post(store, complete, env.now, base, said');
          assert AnalysisNotes(file, info, atsScore, identifiedRole) == [complete];
        }
        thrown := env.panelFailure;
    }
  }

  /** `handleFileUpload`. The store's messages grow by the transcript's notes
      and its uploaded file ends as the transcript says; `atParse` is the
      uploaded file the store holds while the document is parsed. */
  method HandleFileUpload(store: CvStore, file: UploadedFile, env: UploadEnv) returns (ghost atParse: Option<UploadedFile>)
    modifies store`messages, store`uploadedCV
    ensures store.State() == old(store.State()).(
      messages := old(store.messages) + Log(Transcript(file, env).notes, env.now),
      uploadedCV := CvAfter(old(store.uploadedCV), Transcript(file, env).cv))
    ensures Accepted(file) ==> atParse == Some(file)
  {
    ghost var base := store.messages;
    ghost var said: seq<Note> := [];
    atParse := None;
    if !IsSupportedDocument(file) {
      said := Post(store, NotSupported, env.now, base, said);
      return;
    }
    if file.size > MAX_UPLOAD_BYTES {
      said := Post(store, TooLarge, env.now, base, said);
      return;
    }
    atParse := UploadAccepted(store, file, env);
  }

  /** The steps of `handleFileUpload` after both checks passed. */
  method UploadAccepted(store: CvStore, file: UploadedFile, env: UploadEnv) returns (ghost atParse: Option<UploadedFile>)
    modifies store`messages, store`uploadedCV
    requires Accepted(file)
    ensures store.State() == old(store.State()).(
      messages := old(store.messages) + Log(Transcript(file, env).notes, env.now),
      uploadedCV := CvAfter(old(store.uploadedCV), Transcript(file, env).cv))
    ensures atParse == Some(file)
  {
    ghost var base := store.messages;
    ghost var said := OpenUpload(store, file, env, base);
    atParse := store.uploadedCV;
    var parsed := ParseDocument(file, env.engines);
    FinishUpload(store, parsed, file, env, base, said);
    ghost var effect := Conclude(file, env, TryBlock(parsed, file, env));
    assert Transcript(file, env) == effect;
    assert CvAfter(Some(file), effect.cv) == CvAfter(old(store.uploadedCV), effect.cv);
  }

  /** The `try` block after `parseDocument` returned `parsed`, and the catch
      block if an error escapes it. */
  method FinishUpload(store: CvStore, parsed: Result<ParsedDocument, JsError>, file: UploadedFile, env: UploadEnv,
                      ghost base: seq<JsObject>, ghost said: seq<Note>)
    modifies store`messages, store`uploadedCV
    requires said == Opening(file, env) && store.messages == base + Log(said, env.now)
    requires store.uploadedCV == Some(file)
    ensures var effect := Conclude(file, env, TryBlock(parsed, file, env));
      store.State() == old(store.State()).(
        messages := base + Log(effect.notes, env.now),
        uploadedCV := CvAfter(Some(file), effect.cv))
  {
    var thrown;
    ghost var said' := said;
    thrown, said' := Report(store, parsed, file, env, base, said');
    if thrown.Some? {
      said' := Post(store, Apology(Guidance(thrown.value)), env.now, base, said');
      store.SetUploadedCV(None);
    }
  }

  /** Keeps the file in the store and posts the two opening notes. */
  method OpenUpload(store: CvStore, file: UploadedFile, env: UploadEnv, ghost base: seq<JsObject>)
    returns (ghost said: seq<Note>)
    modifies store`messages, store`uploadedCV
    requires store.messages == base
    ensures said == Opening(file, env)
    ensures store.messages == base + Log(said, env.now)
    ensures store.State() == old(store.State()).(messages := store.messages, uploadedCV := Some(file))
  {
    store.SetUploadedCV(Some(file));
    assert store.messages == base + Log([], env.now);
    said := Post(store, Uploaded(file.name, env.sizeLabel), env.now, base, []);
    said := Post(store, Processing(file.name), env.now, base, said);
    assert said == [] + [Uploaded(file.name, env.sizeLabel)] + [Processing(file.name)];
  }

  // ------------------------------------------------------------ properties

  /** A file failing a check gets exactly one system note and leaves the
      stored file alone, whatever the collaborators would have done; the
      format is checked before the size. */
  lemma RejectedUpload(file: UploadedFile, env: UploadEnv, other: UploadEnv)
    requires !Accepted(file)
    ensures Transcript(file, env) == Transcript(file, other)
    ensures Transcript(file, env).cv == Untouched
    ensures Transcript(file, env).notes == if IsSupportedDocument(file) then [TooLarge] else [NotSupported]
    ensures Kind(Transcript(file, env).notes[0]) == "system"
  {
  }

  /** The size limit is inclusive: a supported file of exactly 10 MiB is
      taken, one byte more is refused. */
  lemma SizeLimitIsInclusive(file: UploadedFile, env: UploadEnv)
    requires IsSupportedDocument(file)
    ensures MAX_UPLOAD_BYTES == 10485760
    ensures Transcript(file, env).cv == Untouched <==> file.size > 10485760
  {
    if file.size <= MAX_UPLOAD_BYTES {
      assert Transcript(file, env).cv != Untouched;
    }
  }

  /** An accepted upload opens with the upload and processing notes and ends
      either holding the file with no apology anywhere, or cleared with the
      apology for the escaping error as its one last note. */
  lemma AcceptedUploadOutcome(file: UploadedFile, env: UploadEnv)
    requires Accepted(file)
    ensures var t := Transcript(file, env);
      var a := TryBlock(ExtractDocument(file, env.engines), file, env);
      |t.notes| >= 2 && t.notes[..2] == Opening(file, env) &&
      (a.thrown.None? <==> t.cv == Holds(file)) && (a.thrown.Some? <==> t.cv == Cleared) &&
      (t.cv == Cleared ==> t.notes[|t.notes| - 1] == Apology(Guidance(a.thrown.value))) &&
      forall i :: 0 <= i < |t.notes| && (t.cv == Holds(file) || i < |t.notes| - 1) ==> !t.notes[i].Apology?
  {
    var a := TryBlock(ExtractDocument(file, env.engines), file, env);
    AttemptHasNoApology(ExtractDocument(file, env.engines), file, env);
    ConclusionShape(file, env, a);
  }

  /** The catch block adds the only apology, and only when an error escaped. */
  lemma ConclusionShape(file: UploadedFile, env: UploadEnv, a: Attempt)
    requires forall n :: n in a.notes ==> !n.Apology?
    ensures var t := Conclude(file, env, a);
      |t.notes| >= 2 && t.notes[..2] == Opening(file, env) &&
      (a.thrown.None? <==> t.cv == Holds(file)) && (a.thrown.Some? <==> t.cv == Cleared) &&
      (t.cv == Cleared ==> t.notes[|t.notes| - 1] == Apology(Guidance(a.thrown.value))) &&
      forall i :: 0 <= i < |t.notes| && (t.cv == Holds(file) || i < |t.notes| - 1) ==> !t.notes[i].Apology?
  {
    var t := Conclude(file, env, a);
    var body := Opening(file, env) + a.notes;
    assert body[..2] == Opening(file, env);
    assert forall i :: 0 <= i < |body| ==> !body[i].Apology?;
    if a.thrown.Some? {
      assert t.notes == body + [Apology(Guidance(a.thrown.value))];
      assert forall i :: 0 <= i < |t.notes| - 1 ==> t.notes[i] == body[i];
    }
  }

  lemma AttemptHasNoApology(parsed: Result<ParsedDocument, JsError>, file: UploadedFile, env: UploadEnv)
    ensures forall n :: n in TryBlock(parsed, file, env).notes ==> !n.Apology? && !n.NotSupported? && !n.TooLarge?
  {
  }

  /** Only the apology's text starts with the apology: every other message
      starts with an emoji or another letter. */
  lemma OnlyApologyReadsAsOne(note: Note, message: string)
    ensures IsPrefix(ApologyLead(), Content(Apology(Guidance(message))))
    ensures !note.Apology? ==> !IsPrefix(ApologyLead(), Content(note))
  {
    GuidanceStartsWithApology(message);
    if !note.Apology? {
      var c := Content(note);
      ContentStart(note);
      assert ApologyLead()[0] == 'S';
      PrefixChar(ApologyLead(), c, 0);
    }
  }

  /** The first character of every message other than the apology. */
  lemma ContentStart(note: Note)
    requires !note.Apology?
    ensures Content(note) != [] && Content(note)[0] != 'S'
  {
    match note {
      case NotSupported => FixedTextStarts();
      case TooLarge => FixedTextStarts();
      case Uploaded(name, sizeLabel) => UploadedStart(name, sizeLabel);
      case Processing(name) => ProcessingStart(name);
      case Parsed(wordCount) => ParsedStart(wordCount);
      case BackendDown => FixedTextStarts();
      case DebugReport(call) => DebugStart(call);
      case AnalysisInfo(info) => AnalysisInfoStart(info);
      case Complete(name, atsScore, identifiedRole) => CompleteStart(name, atsScore, identifiedRole);
    }
  }

  lemma FixedTextStarts()
    ensures NotSupportedText() != [] && NotSupportedText()[0] == 'P'
    ensures TooLargeText() != [] && TooLargeText()[0] == 'F'
    ensures BackendDownText() != [] && BackendDownText()[0] == '\U{26A0}'
  {
  }

  lemma UploadedStart(name: string, sizeLabel: string)
    ensures Content(Uploaded(name, sizeLabel)) != [] && Content(Uploaded(name, sizeLabel))[0] == '\U{1F4CE}'
  {
  }

  lemma ProcessingStart(name: string)
    ensures Content(Processing(name)) != [] && Content(Processing(name))[0] == 'P'
  {
  }

  lemma ParsedStart(wordCount: nat)
    ensures Content(Parsed(wordCount)) != [] && Content(Parsed(wordCount))[0] == '\U{2705}'
  {
  }

  lemma DebugStart(call: DebugCall)
    ensures Content(DebugReport(call)) != [] &&
      Content(DebugReport(call))[0] == if call.DebugFailed? then '\U{26A0}' else '\U{1F6E0}'
  {
    match call {
      case DebugFailed(message) =>
        var lead := "\U{26A0}\U{FE0F} Debug endpoint failed: ";
        assert DebugText(call) == lead + (message + ". Backend may not be running.");
      case DebugAnswered(textLength, wordCount, lineCount, success) =>
        var lead := "\U{1F6E0}\U{FE0F} **Backend Debug Info:**\n\U{2022} Received ";
        var a := lead + textLength + " characters\n\U{2022} " + wordCount + " words, " + lineCount;
        assert a[0] == lead[0];
        assert DebugText(call) == a + " lines\n\U{2022} Backend processing: " + (if success then "\U{2705} Success" else "\U{274C} Failed");
    }
  }

  lemma AnalysisInfoStart(info: AnalysisDebug)
    ensures Content(AnalysisInfo(info)) != [] && Content(AnalysisInfo(info))[0] == '\U{1F50D}'
  {
    var t := AnalysisInfoText(info);
    assert t[0] == '\U{1F50D}';
    assert Content(AnalysisInfo(info)) == t;
  }

  lemma CompleteStart(name: string, atsScore: string, identifiedRole: string)
    ensures var c := Content(Complete(name, atsScore, identifiedRole)); c != [] && c[0] == '\U{1F389}'
  {
    var t := CompleteText(name, atsScore, identifiedRole);
    assert t[0] == '\U{1F389}';
    assert Content(Complete(name, atsScore, identifiedRole)) == t;
  }

  /** The blank-text check never fires: a document the parser accepts always
      has text left after trimming, so the parsed note is always reported. */
  lemma BlankTextCheckIsDead(file: UploadedFile, env: UploadEnv)
    requires ExtractDocument(file, env.engines).Success?
    ensures var doc := ExtractDocument(file, env.engines).value;
      !IsBlank(doc.text) &&
      TryBlock(ExtractDocument(file, env.engines), file, env).notes[0] == Parsed(doc.metadata.wordCount)
  {
    var doc := ExtractDocument(file, env.engines).value;
    ExtractedTextIsNotBlank(file, env.engines);
    BlankIffTrimEmpty(doc.text);
  }

  /** The debug block cannot make the upload fail: the health check and the
      debug endpoint change the notes but never the error that escapes. */
  lemma DebugBlockIsContained(parsed: Result<ParsedDocument, JsError>, file: UploadedFile, env: UploadEnv, healthy: bool, debug: DebugCall)
    ensures TryBlock(parsed, file, env.(backendHealthy := healthy, debug := debug)).thrown == TryBlock(parsed, file, env).thrown
    ensures parsed.Success? && !IsBlank(parsed.value.text) ==>
      (BackendDown in TryBlock(parsed, file, env).notes <==> !env.backendHealthy)
  {
    if parsed.Success? && !IsBlank(parsed.value.text) {
      var early := [Parsed(parsed.value.metadata.wordCount)] + DebugNotes(env);
      assert TryBlock(parsed, file, env).notes[..|early|] == early;
      if !env.backendHealthy {
        assert TryBlock(parsed, file, env).notes[1] == BackendDown;
      }
    }
  }

  /** A parse failure ends the upload right after the two opening notes with
      the apology for the parser's error. */
  lemma ParseFailureTranscript(file: UploadedFile, env: UploadEnv)
    requires Accepted(file) && ExtractDocument(file, env.engines).Failure?
    ensures Transcript(file, env) ==
      Effect(Opening(file, env) + [Apology(Guidance(ExtractDocument(file, env.engines).error.message))], Cleared)
  {
    assert Opening(file, env) + [] == Opening(file, env);
  }

  /** With the store as shipped, which defines no `analyzeUploadedCV`, every
      accepted upload ends with the file cleared: either the parse fails, or
      the call to the missing action throws and its apology, which carries
      the generic tip, comes last. */
  lemma ShippedStoreClearsEveryUpload(file: UploadedFile, env: UploadEnv)
    requires Accepted(file) && env.analysis == AnalysisFailed(MISSING_ANALYZE_ACTION)
    ensures Transcript(file, env).cv == Cleared
    ensures var n := Transcript(file, env).notes;
      ExtractDocument(file, env.engines).Success? ==> |n| > 0 && n[|n| - 1] == Apology(ApologyLead() + TipGeneric())
  {
    var parsed := ExtractDocument(file, env.engines);
    ParsedTextIsNotBlank(file, env.engines);
    var a := TryBlock(parsed, file, env);
    assert Transcript(file, env) == Conclude(file, env, a);
    if parsed.Success? {
      EscapingError(parsed, file, env);
      ClearedConclusion(file, env, a, MISSING_ANALYZE_ACTION);
      MissingAnalyzeActionGuidance();
      var n := Transcript(file, env).notes;
      assert n[|n| - 1] == Apology(Guidance(MISSING_ANALYZE_ACTION));
    } else {
      ClearedConclusion(file, env, a, parsed.error.message);
    }
  }

  /** An escaping error clears the file and puts its apology last. */
  lemma ClearedConclusion(file: UploadedFile, env: UploadEnv, a: Attempt, message: string)
    requires a.thrown == Some(message)
    ensures var t := Conclude(file, env, a);
      t.cv == Cleared && |t.notes| > 0 && t.notes[|t.notes| - 1] == Apology(Guidance(message))
  {
  }

  /** An analysis that answers, followed by a panel action that works, keeps
      the file and ends with the one message offering the follow-up actions. */
  lemma AnsweredAnalysisKeepsFile(file: UploadedFile, env: UploadEnv)
    requires Accepted(file) && ExtractDocument(file, env.engines).Success?
    requires env.analysis.AnalysisAnswered? && env.panelFailure.None?
    ensures Transcript(file, env).cv == Holds(file)
    ensures var n := Transcript(file, env).notes;
      |n| > 0 && n[|n| - 1] == Complete(file.name, env.analysis.atsScore, env.analysis.identifiedRole) &&
      forall i :: 0 <= i < |n| - 1 ==> !HasActions(n[i])
  {
    var parsed := ExtractDocument(file, env.engines);
    ParsedTextIsNotBlank(file, env.engines);
    AnsweredConclusion(parsed, file, env);
    assert Transcript(file, env) == Conclude(file, env, TryBlock(parsed, file, env));
  }

  /** Text that `parseDocument` returns never fails the blank-text check. */
  lemma ParsedTextIsNotBlank(file: UploadedFile, engines: Engines)
    ensures ExtractDocument(file, engines).Success? ==> !IsBlank(ExtractDocument(file, engines).value.text)
  {
    ExtractedTextIsNotBlank(file, engines);
    if ExtractDocument(file, engines).Success? {
      BlankIffTrimEmpty(ExtractDocument(file, engines).value.text);
    }
  }

  lemma AnsweredConclusion(parsed: Result<ParsedDocument, JsError>, file: UploadedFile, env: UploadEnv)
    requires parsed.Success? && !IsBlank(parsed.value.text)
    requires env.analysis.AnalysisAnswered? && env.panelFailure.None?
    ensures var t := Conclude(file, env, TryBlock(parsed, file, env));
      t.cv == Holds(file) && |t.notes| > 0 &&
      t.notes[|t.notes| - 1] == Complete(file.name, env.analysis.atsScore, env.analysis.identifiedRole) &&
      forall i :: 0 <= i < |t.notes| - 1 ==> !HasActions(t.notes[i])
  {
    AnsweredAttempt(parsed, file, env);
    var a := TryBlock(parsed, file, env);
    ActionsOnlyLast(Opening(file, env), a.notes);
  }

  /** Notes without actions followed by notes that offer them only last
      offer them only last. */
  lemma ActionsOnlyLast(first: seq<Note>, rest: seq<Note>)
    requires forall i :: 0 <= i < |first| ==> !HasActions(first[i])
    requires |rest| > 0 && forall i :: 0 <= i < |rest| - 1 ==> !HasActions(rest[i])
    ensures var n := first + rest; forall i :: 0 <= i < |n| - 1 ==> !HasActions(n[i])
  {
    var n := first + rest;
    forall i | 0 <= i < |n| - 1
      ensures !HasActions(n[i])
    {
      if i >= |first| {
        assert n[i] == rest[i - |first|];
      }
    }
  }

  /** The body of the `try` for an answered analysis and a working panel
      action throws nothing and offers the actions only in its last note. */
  lemma AnsweredAttempt(parsed: Result<ParsedDocument, JsError>, file: UploadedFile, env: UploadEnv)
    requires parsed.Success? && !IsBlank(parsed.value.text)
    requires env.analysis.AnalysisAnswered? && env.panelFailure.None?
    ensures var a := TryBlock(parsed, file, env);
      a.thrown.None? && |a.notes| > 0 &&
      a.notes[|a.notes| - 1] == Complete(file.name, env.analysis.atsScore, env.analysis.identifiedRole) &&
      forall i :: 0 <= i < |a.notes| - 1 ==> !HasActions(a.notes[i])
  {
  }

  /** The shipped store defines no `setShowAnalysisPanel` either, so even an
      answered analysis ends with the file cleared and that failure's apology,
      with the generic tip, last. */
  lemma MissingPanelActionClearsFile(file: UploadedFile, env: UploadEnv)
    requires Accepted(file) && ExtractDocument(file, env.engines).Success?
    requires env.analysis.AnalysisAnswered? && env.panelFailure == Some(MISSING_PANEL_ACTION)
    ensures Transcript(file, env).cv == Cleared
    ensures var n := Transcript(file, env).notes; |n| > 0 && n[|n| - 1] == Apology(ApologyLead() + TipGeneric())
  {
    var parsed := ExtractDocument(file, env.engines);
    ParsedTextIsNotBlank(file, env.engines);
    EscapingError(parsed, file, env);
    var a := TryBlock(parsed, file, env);
    ClearedConclusion(file, env, a, MISSING_PANEL_ACTION);
    MissingPanelActionGuidance();
    assert Transcript(file, env) == Conclude(file, env, a);
  }

  /** Once the text is parsed, the error that escapes the body of the `try`
      is the analysis call's failure, or, when it answers, the panel action's
      failure, if any. */
  lemma EscapingError(parsed: Result<ParsedDocument, JsError>, file: UploadedFile, env: UploadEnv)
    requires parsed.Success? && !IsBlank(parsed.value.text)
    ensures env.analysis.AnalysisFailed? ==> TryBlock(parsed, file, env).thrown == Some(env.analysis.message)
    ensures env.analysis.AnalysisAnswered? ==> TryBlock(parsed, file, env).thrown == env.panelFailure
  {
  }

  /** A PDF that pdf.js rejects as corrupt, and in which the fallback finds
      no text, ends with the generic tip: the message the parser throws
      never contains the needle "Invalid PDF" that the corrupt-file tip
      waits for. */
  lemma CorruptPdfGetsGenericTip(file: UploadedFile, env: UploadEnv, detail: string)
    requires Accepted(file) && RouteOf(file) == PdfRoute
    requires env.engines.pdf == PdfLoadFailed(JsError("InvalidPDFException", detail))
    requires PdfFallback(file.content).Failure?
    ensures Transcript(file, env) == Effect(Opening(file, env) + [Apology(ApologyLead() + TipGeneric())], Cleared)
  {
    PdfRouteKeepsPrimaryError(file, env.engines);
    ParseFailureTranscript(file, env);
    InvalidPdfGuidance();
  }

  /** Likewise a password-protected PDF (whose own message does not trip the
      corrupt-file rung first) ends with the generic tip, not the password
      tip: the thrown message says "Password" with a capital P. */
  lemma PasswordPdfGetsGenericTip(file: UploadedFile, env: UploadEnv, detail: string)
    requires Accepted(file) && RouteOf(file) == PdfRoute
    requires env.engines.pdf == PdfLoadFailed(JsError("PasswordException", detail))
    requires !Contains(detail, "Invalid PDF") && PdfFallback(file.content).Failure?
    ensures Transcript(file, env) == Effect(Opening(file, env) + [Apology(ApologyLead() + TipGeneric())], Cleared)
  {
    assert PdfPrimary(env.engines.pdf) == Failure(Error(PASSWORD_PDF));
    PdfRouteKeepsPrimaryError(file, env.engines);
    ParseFailureTranscript(file, env);
    PasswordPdfGuidance();
  }
}
