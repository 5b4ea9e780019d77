/** The browser-side text extraction of an uploaded CV: which files are
    accepted, how each format is routed, how PDF pages are assembled into
    text, the fallback scan over raw PDF data, the DOCX and DOC paths, the
    error ladders and the metadata that accompanies the text.

    The PDF and DOCX engines are inputs: a PDF engine either fails before the
    page loop or hands over one outcome per page, and a DOCX engine either
    fails or yields its raw text. */
module DocumentParser {
  import opened JsText
  import opened Values
  import opened Classify

  /** A thrown JavaScript error: its `name` and its `message`. */
  datatype JsError = JsError(name: string, message: string)

  /** `new Error(message)`. */
  function Error(message: string): JsError {
    JsError("Error", message)
  }

  /** An uploaded `File`. `content` is what `file.text()` resolves to, or
      `None` when reading the file fails. */
  datatype UploadedFile = UploadedFile(
    name: string,
    mimeType: string,
    size: nat,
    lastModified: int,
    content: Option<string>)

  const PDF_MIME := "application/pdf"
  const DOC_MIME := "application/msword"
  const DOCX_MIME := "application/vnd.openxmlformats-officedocument.wordprocessingml.document"
  const ALLOWED_TYPES := [PDF_MIME, DOC_MIME, DOCX_MIME]
  const ALLOWED_EXTENSIONS := [".pdf", ".doc", ".docx"]

  // Messages thrown along the way. Long ones are written in short pieces.
  const PDF_INIT_ERROR := "Failed to initialize PDF parser"
  const DOCX_INIT_ERROR := "Failed to initialize DOCX parser"
  const NO_READABLE_PDF := "No readable text found in PDF. " + "The document may be image-based, " + "scanned, or contain only graphics."
  const INVALID_PDF := "Invalid or corrupted PDF file. " + "Please check the file and try again."
  const PASSWORD_PDF := "Password-protected PDFs are not " + "supported. Please upload an " + "unprotected version."
  const PDF_INIT_FAILED := "PDF parser initialization failed. " + "Please refresh the page and try again."
  const PDF_NETWORK := "Network error loading " + "PDF parser. Please check your internet " + "connection and try again."
  const PDF_GENERIC_LEAD := "Failed to parse PDF: "
  const PDF_GENERIC_TAIL := ". This might be due to an unsupported " + "PDF format or browser limitation."
  const FALLBACK_FAILED := "All PDF extraction methods failed. " + "This may be an image-based PDF or use " + "unsupported encoding."
  const NO_READABLE_DOCX := "No readable text found in DOCX file."
  const DOCX_FAILED_LEAD := "Failed to parse DOCX file: "
  const DOC_FAILED := "Failed to parse DOC file. " + "Please convert to DOCX or " + "PDF format for better compatibility."
  const UNSUPPORTED := "Unsupported file format. " + "Please upload PDF, DOC, or DOCX files."

  // ---------------------------------------------------------------- formats

  /** `isSupportedDocument`: one of the three MIME types, or a lower-cased
      name ending in one of the three extensions. */
  predicate IsSupportedDocument(file: UploadedFile) {
    file.mimeType in ALLOWED_TYPES ||
    exists i :: 0 <= i < |ALLOWED_EXTENSIONS| && EndsWith(ToLowerAscii(file.name), ALLOWED_EXTENSIONS[i])
  }

  datatype Route = PdfRoute | DocxRoute | DocRoute | NoRoute

  /** The dispatch of `parseDocument`: PDF by MIME type only, then DOCX by
      type or name, then DOC by type or name. */
  function RouteOf(file: UploadedFile): Route {
    var lower := ToLowerAscii(file.name);
    if file.mimeType == PDF_MIME then PdfRoute
    else if file.mimeType == DOCX_MIME || EndsWith(lower, ".docx") then DocxRoute
    else if file.mimeType == DOC_MIME || EndsWith(lower, ".doc") then DocRoute
    else NoRoute
  }

  lemma EndsWithLast(s: string, suffix: string)
    requires EndsWith(s, suffix) && suffix != []
    ensures s[|s| - 1] == suffix[|suffix| - 1]
  {
    assert s[|s| - |suffix|..][|suffix| - 1] == s[|s| - 1];
  }

  /** Every file that is routed to a parser passes the format check, and the
      PDF parser is reached only through the MIME type. */
  lemma RoutedFilesAreSupported(file: UploadedFile)
    ensures RouteOf(file) != NoRoute ==> IsSupportedDocument(file)
    ensures RouteOf(file) == PdfRoute <==> file.mimeType == PDF_MIME
  {
    var lower := ToLowerAscii(file.name);
    assert ALLOWED_TYPES[0] == PDF_MIME && ALLOWED_TYPES[1] == DOC_MIME && ALLOWED_TYPES[2] == DOCX_MIME;
    if RouteOf(file) != NoRoute && file.mimeType !in ALLOWED_TYPES {
      if EndsWith(lower, ".docx") {
        assert ALLOWED_EXTENSIONS[2] == ".docx";
      } else {
        assert ALLOWED_EXTENSIONS[1] == ".doc";
      }
    }
  }

  /** The one gap between the format check and the dispatch: a file of some
      other type whose name ends in ".pdf" is accepted but routed nowhere. */
  lemma SupportedButUnrouted(file: UploadedFile)
    ensures IsSupportedDocument(file) && RouteOf(file) == NoRoute <==>
      file.mimeType !in ALLOWED_TYPES && EndsWith(ToLowerAscii(file.name), ".pdf")
  {
    var lower := ToLowerAscii(file.name);
    if EndsWith(lower, ".pdf") {
      EndsWithLast(lower, ".pdf");
      if EndsWith(lower, ".doc") { EndsWithLast(lower, ".doc"); }
      if EndsWith(lower, ".docx") { EndsWithLast(lower, ".docx"); }
      assert ALLOWED_EXTENSIONS[0] == ".pdf";
    }
    if IsSupportedDocument(file) && RouteOf(file) == NoRoute {
      var i :| 0 <= i < |ALLOWED_EXTENSIONS| && EndsWith(lower, ALLOWED_EXTENSIONS[i]);
      assert i == 0;
    }
  }

  // ------------------------------------------------------------- PDF pages

  /** An entry of a page's text content: a run with a string, or an entry
      without one (marked content). */
  datatype TextItem = TextRun(str: string) | NonText

  /** A page either yields its text items or throws while being read. */
  datatype PageOutcome = PageRead(items: seq<TextItem>) | PageFailed(error: JsError)

  /** The PDF engine fails to initialise, fails to open the document, or
      opens it and hands over one outcome per page. */
  datatype PdfEngine =
    | PdfInitFailed
    | PdfLoadFailed(error: JsError)
    | PdfLoaded(pages: seq<PageOutcome>)

  /** The non-blank runs of a page, trimmed, in order. */
  function KeptRuns(items: seq<TextItem>): (runs: seq<string>)
    ensures forall t :: t in runs ==> t != [] && IsTrimmed(t)
    decreases |items|
  {
    if items == [] then []
    else
      var head := if items[0].TextRun? && Trim(items[0].str) != "" then [Trim(items[0].str)] else [];
      head + KeptRuns(items[1..])
  }

  /** A page's text: its kept runs joined by single spaces. */
  function PageText(items: seq<TextItem>): string {
    JoinWith(" ", KeptRuns(items))
  }

  /** A page's text is already trimmed, and it is empty exactly when the page
      has no non-blank run. */
  lemma PageTextTrimmed(items: seq<TextItem>)
    ensures IsTrimmed(PageText(items))
    ensures PageText(items) == "" <==> KeptRuns(items) == []
    ensures Trim(PageText(items)) == PageText(items)
  {
    JoinTrimmed(" ", KeptRuns(items));
    TrimOfTrimmed(PageText(items));
  }

  /** What one page adds to the document: its text when that is not blank. */
  function Contribution(page: PageOutcome): seq<string> {
    match page
    case PageFailed(_) => []
    case PageRead(items) => if Trim(PageText(items)) != "" then [PageText(items)] else []
  }

  /** The texts of the contributing pages, in page order. */
  function PageTexts(pages: seq<PageOutcome>): seq<string>
    decreases |pages|
  {
    if pages == [] then []
    else PageTexts(pages[..|pages| - 1]) + Contribution(pages[|pages| - 1])
  }

  /** The page texts, each followed by a blank line, as the loop builds them. */
  function Terminated(texts: seq<string>): string
    decreases |texts|
  {
    if texts == [] then ""
    else Terminated(texts[..|texts| - 1]) + texts[|texts| - 1] + "\n\n"
  }

  /** The assembled text of a document that opened. */
  function PdfText(pages: seq<PageOutcome>): string {
    Trim(Terminated(PageTexts(pages)))
  }

  lemma {:induction false} PageTextsAppend(a: seq<PageOutcome>, b: seq<PageOutcome>)
    ensures PageTexts(a + b) == PageTexts(a) + PageTexts(b)
    decreases |b|
  {
    if b == [] {
      assert a + b == a;
    } else {
      var b' := b[..|b| - 1];
      assert (a + b)[..|a + b| - 1] == a + b';
      PageTextsAppend(a, b');
    }
  }

  /** A page that throws contributes nothing and does not stop the pages
      after it from being read. */
  lemma FailingPageIsSkipped(before: seq<PageOutcome>, e: JsError, after: seq<PageOutcome>)
    ensures PageTexts(before + [PageFailed(e)] + after) == PageTexts(before + after)
  {
    PageTextsAppend(before + [PageFailed(e)], after);
    PageTextsAppend(before, [PageFailed(e)]);
    PageTextsAppend(before, after);
    assert [PageFailed(e)][..0] == [];
  }

  /** A page read without error contributes its text exactly when one of its
      runs is not blank. */
  lemma PageContributes(before: seq<PageOutcome>, items: seq<TextItem>)
    ensures PageTexts(before + [PageRead(items)]) ==
      PageTexts(before) + (if KeptRuns(items) != [] then [PageText(items)] else [])
  {
    PageTextTrimmed(items);
    assert (before + [PageRead(items)])[..|before|] == before;
  }

  lemma {:induction false} PageTextsTrimmed(pages: seq<PageOutcome>)
    ensures forall t :: t in PageTexts(pages) ==> t != [] && IsTrimmed(t)
    decreases |pages|
  {
    if pages != [] {
      PageTextsTrimmed(pages[..|pages| - 1]);
      var last := pages[|pages| - 1];
      if last.PageRead? {
        PageTextTrimmed(last.items);
      }
    }
  }

  lemma {:induction false} TerminatedIsJoin(sep: string, texts: seq<string>)
    requires sep == "\n\n"
    ensures texts != [] ==> Terminated(texts) == JoinWith(sep, texts) + sep
    decreases |texts|
  {
    if |texts| > 1 {
      var front := texts[..|texts| - 1];
      TerminatedIsJoin(sep, front);
      JoinWithSnoc(sep, front, texts[|texts| - 1]);
      assert front + [texts[|texts| - 1]] == texts;
    } else if |texts| == 1 {
      assert texts[..0] == [];
    }
  }

  /** The assembled text is the contributing page texts, in page order,
      separated by one blank line; it is trimmed. */
  lemma PdfTextJoinsPages(pages: seq<PageOutcome>)
    ensures PdfText(pages) == JoinWith("\n\n", PageTexts(pages))
    ensures IsTrimmed(PdfText(pages))
  {
    var texts := PageTexts(pages);
    PageTextsTrimmed(pages);
    JoinTrimmed("\n\n", texts);
    if texts != [] {
      TerminatedIsJoin("\n\n", texts);
      TrimPadded("", JoinWith("\n\n", texts), "\n\n");
      assert "" + JoinWith("\n\n", texts) + "\n\n" == Terminated(texts);
    }
  }

  // ------------------------------------------------------------ PDF errors

  /** What a rung of the PDF error ladder does with the caught error. */
  datatype PdfStep = Replace(message: string) | Rethrow | WrapGeneric

  const PDF_LADDER: seq<Rule<PdfStep>> := [
    Rule(["InvalidPDFException"], ["Invalid PDF"], Replace(INVALID_PDF)),
    Rule(["PasswordException"], ["password"], Replace(PASSWORD_PDF)),
    Rule([], ["No readable text", "image-based"], Rethrow),
    Rule([], ["Failed to initialize"], Replace(PDF_INIT_FAILED)),
    Rule([], ["Network", "fetch"], Replace(PDF_NETWORK))
  ]

  function ApplyPdfStep(step: PdfStep, e: JsError): JsError {
    match step
    case Replace(message) => Error(message)
    case Rethrow => e
    case WrapGeneric => Error(PDF_GENERIC_LEAD + e.message + PDF_GENERIC_TAIL)
  }

  /** The catch block of `parsePDF`. */
  function PdfErrorLadder(e: JsError): JsError {
    if e.name == "InvalidPDFException" || Contains(e.message, "Invalid PDF") then Error(INVALID_PDF)
    else if e.name == "PasswordException" || Contains(e.message, "password") then Error(PASSWORD_PDF)
    else if Contains(e.message, "No readable text") || Contains(e.message, "image-based") then e
    else if Contains(e.message, "Failed to initialize") then Error(PDF_INIT_FAILED)
    else if Contains(e.message, "Network") || Contains(e.message, "fetch") then Error(PDF_NETWORK)
    else Error(PDF_GENERIC_LEAD + e.message + PDF_GENERIC_TAIL)
  }

  /** The catch block is the first-match ladder over the fixed rule table. */
  lemma PdfErrorLadderIsFirstMatch(e: JsError)
    ensures PdfErrorLadder(e) == ApplyPdfStep(FirstMatch(PDF_LADDER, e.name, e.message, WrapGeneric), e)
  {
    var n, m := e.name, e.message;
    var R := PDF_LADDER;
    assert Fires(R[0], n, m) <==> n == "InvalidPDFException" || Contains(m, "Invalid PDF") by {
      assert R[0].needles[0] == "Invalid PDF";
    }
    assert Fires(R[1], n, m) <==> n == "PasswordException" || Contains(m, "password") by {
      assert R[1].needles[0] == "password";
    }
    assert Fires(R[2], n, m) <==> Contains(m, "No readable text") || Contains(m, "image-based") by {
      assert R[2].needles[0] == "No readable text" && R[2].needles[1] == "image-based";
    }
    assert Fires(R[3], n, m) <==> Contains(m, "Failed to initialize") by {
      assert R[3].needles[0] == "Failed to initialize";
    }
    assert Fires(R[4], n, m) <==> Contains(m, "Network") || Contains(m, "fetch") by {
      assert R[4].needles[0] == "Network" && R[4].needles[1] == "fetch";
    }
    if Fires(R[0], n, m) {
      FirstMatchPicks(R, n, m, WrapGeneric, 0);
    } else if Fires(R[1], n, m) {
      FirstMatchPicks(R, n, m, WrapGeneric, 1);
    } else if Fires(R[2], n, m) {
      FirstMatchPicks(R, n, m, WrapGeneric, 2);
    } else if Fires(R[3], n, m) {
      FirstMatchPicks(R, n, m, WrapGeneric, 3);
    } else if Fires(R[4], n, m) {
      FirstMatchPicks(R, n, m, WrapGeneric, 4);
    } else {
      FirstMatchFallsThrough(R, n, m, WrapGeneric);
    }
  }

  /** The primary PDF parse (`parsePDF`) as a function of the engine. */
  function PdfPrimary(engine: PdfEngine): Result<string, JsError> {
    match engine
    case PdfInitFailed => Failure(PdfErrorLadder(Error(PDF_INIT_ERROR)))
    case PdfLoadFailed(e) => Failure(PdfErrorLadder(e))
    case PdfLoaded(pages) =>
      var text := PdfText(pages);
      if |text| < 10 then Failure(PdfErrorLadder(Error(NO_READABLE_PDF))) else Success(text)
  }

  /** The page loop of `parsePDF`: each non-blank page text is appended,
      followed by a blank line; pages that throw are skipped. */
  method AssemblePages(pages: seq<PageOutcome>) returns (fullText: string)
    ensures fullText == Terminated(PageTexts(pages))
  {
    fullText := "";
    for i := 0 to |pages|
      invariant fullText == Terminated(PageTexts(pages[..i]))
    {
      ghost var before := PageTexts(pages[..i]);
      assert pages[..i + 1][..i] == pages[..i];
      assert PageTexts(pages[..i + 1]) == before + Contribution(pages[i]);
      match pages[i] {
        case PageFailed(_) =>
          assert before + [] == before;
        case PageRead(items) =>
          var pageText := "";
          if |items| > 0 {
            pageText := PageText(items);
          }
          assert pageText == PageText(items);
          if Trim(pageText) != "" {
            fullText := fullText + pageText + "\n\n";
            assert (before + [pageText])[..|before|] == before;
          } else {
            assert before + [] == before;
          }
      }
    }
    assert pages[..|pages|] == pages;
  }

  /** `parsePDF`: assemble the pages, demand at least ten characters, and
      pass every error through the ladder. */
  method ParsePdf(engine: PdfEngine) returns (r: Result<string, JsError>)
    ensures r == PdfPrimary(engine)
  {
    match engine {
      case PdfInitFailed =>
        r := Failure(PdfErrorLadder(Error(PDF_INIT_ERROR)));
      case PdfLoadFailed(e) =>
        r := Failure(PdfErrorLadder(e));
      case PdfLoaded(pages) =>
        var fullText := AssemblePages(pages);
        var result := Trim(fullText);
        if |result| < 10 {
          r := Failure(PdfErrorLadder(Error(NO_READABLE_PDF)));
        } else {
          r := Success(result);
        }
    }
  }

  // The error messages above, checked against the substrings the ladder
  // looks for.

  lemma NoReadablePdfHasNoInvalid()
    ensures !Contains(NO_READABLE_PDF, "Invalid PDF")
  {
    AbsentCharRulesOut(NO_READABLE_PDF, "Invalid PDF", 0);
  }

  lemma NoReadablePdfHasNoPassword()
    ensures !Contains(NO_READABLE_PDF, "password")
  {
    AbsentCharRulesOut(NO_READABLE_PDF, "password", 4);
  }

  lemma NoReadablePdfSaysSo()
    ensures Contains(NO_READABLE_PDF, "No readable text")
  {
    ContainsPrefix(NO_READABLE_PDF, "No readable text");
  }

  /** The "no readable text" error of the length check leaves the ladder
      unchanged. */
  lemma NoReadablePdfRethrown()
    ensures PdfErrorLadder(Error(NO_READABLE_PDF)) == Error(NO_READABLE_PDF)
  {
    NoReadablePdfHasNoInvalid();
    NoReadablePdfHasNoPassword();
    NoReadablePdfSaysSo();
  }

  /** A failure to initialise the engine comes out as the "initialization
      failed" message. */
  lemma InitErrorMapped()
    ensures PdfErrorLadder(Error(PDF_INIT_ERROR)) == Error(PDF_INIT_FAILED)
  {
    InitErrorHasNoInvalid();
    InitErrorHasNoPassword();
    InitErrorIsNotEmptyText();
    InitErrorIsNotImageBased();
    InitErrorSaysSo();
  }

  lemma InitErrorHasNoInvalid()
    ensures !Contains(PDF_INIT_ERROR, "Invalid PDF")
  {
    AbsentCharRulesOut(PDF_INIT_ERROR, "Invalid PDF", 0);
  }

  lemma InitErrorHasNoPassword()
    ensures !Contains(PDF_INIT_ERROR, "password")
  {
    AbsentCharRulesOut(PDF_INIT_ERROR, "password", 4);
  }

  lemma InitErrorIsNotEmptyText()
    ensures !Contains(PDF_INIT_ERROR, "No readable text")
  {
    AbsentCharRulesOut(PDF_INIT_ERROR, "No readable text", 0);
  }

  lemma InitErrorIsNotImageBased()
    ensures !Contains(PDF_INIT_ERROR, "image-based")
  {
    AbsentCharRulesOut(PDF_INIT_ERROR, "image-based", 3);
  }

  lemma InitErrorSaysSo()
    ensures Contains(PDF_INIT_ERROR, "Failed to initialize")
  {
    ContainsPrefix(PDF_INIT_ERROR, "Failed to initialize");
  }

  /** The primary parse succeeds exactly on a document that opened and whose
      joined page texts, trimmed, are at least ten characters long, and then
      returns that text; shorter text fails with the "no readable text"
      error, a document that does not open fails with its error mapped by
      the catch ladder, and an engine that cannot start fails with the
      initialisation message. */
  lemma PdfPrimaryOutcome(engine: PdfEngine)
    ensures PdfPrimary(engine).Success? ==>
      engine.PdfLoaded? &&
      PdfPrimary(engine).value == JoinWith("\n\n", PageTexts(engine.pages)) &&
      IsTrimmed(PdfPrimary(engine).value) && |PdfPrimary(engine).value| >= 10
    ensures engine.PdfLoaded? && |JoinWith("\n\n", PageTexts(engine.pages))| < 10 ==>
      PdfPrimary(engine) == Failure(Error(NO_READABLE_PDF))
    ensures engine.PdfLoaded? && |JoinWith("\n\n", PageTexts(engine.pages))| >= 10 ==>
      PdfPrimary(engine) == Success(JoinWith("\n\n", PageTexts(engine.pages)))
    ensures engine.PdfLoadFailed? ==> PdfPrimary(engine) == Failure(PdfErrorLadder(engine.error))
    ensures engine.PdfInitFailed? ==> PdfPrimary(engine) == Failure(Error(PDF_INIT_FAILED))
  {
    match engine {
      case PdfInitFailed => InitErrorMapped();
      case PdfLoadFailed(_) =>
      case PdfLoaded(pages) =>
        PdfTextJoinsPages(pages);
        NoReadablePdfRethrown();
    }
  }

  // ------------------------------------------------------------ PDF fallback

  /** Index of the first ')' in `s`, or `|s|` when there is none. */
  function CloseAt(s: string): (j: nat)
    ensures j <= |s| && (j < |s| ==> s[j] == ')')
    ensures forall i :: 0 <= i < j ==> s[i] != ')'
    decreases |s|
  {
    if s == [] || s[0] == ')' then 0 else 1 + CloseAt(s[1..])
  }

  /** The inner texts of the matches of the regular expression
      `/\(([^)]+)\)/g`, left to right: at an opening parenthesis the match
      runs to the first closing one and needs at least one character in
      between; otherwise the scan moves on by one character. */
  function ParenRuns(s: string): seq<string>
    decreases |s|
  {
    if s == [] then []
    else if s[0] != '(' then ParenRuns(s[1..])
    else
      var rest := s[1..];
      var j := CloseAt(rest);
      if j == 0 || j == |rest| then ParenRuns(rest)
      else [rest[..j]] + ParenRuns(rest[j + 1..])
  }

  /** Every run is non-empty, holds no ')', and occurs in the scanned text
      wrapped in parentheses. */
  lemma {:induction false} ParenRunsSound(s: string)
    ensures forall r :: r in ParenRuns(s) ==> r != [] && ')' !in r && Contains(s, "(" + r + ")")
    decreases |s|
  {
    if s != [] {
      if s[0] != '(' {
        ParenRunsSound(s[1..]);
        forall r | r in ParenRuns(s) ensures Contains(s, "(" + r + ")") {
          assert s == [s[0]] + s[1..];
          ContainsInSuffix([s[0]], s[1..], "(" + r + ")");
        }
      } else {
        var rest := s[1..];
        var j := CloseAt(rest);
        if j == 0 || j == |rest| {
          ParenRunsSound(rest);
          forall r | r in ParenRuns(s) ensures Contains(s, "(" + r + ")") {
            assert s == [s[0]] + rest;
            ContainsInSuffix([s[0]], rest, "(" + r + ")");
          }
        } else {
          var tail := rest[j + 1..];
          ParenRunsSound(tail);
          var w := rest[..j];
          assert s == "(" + w + ")" + tail;
          ContainsPrefix(s, "(" + w + ")");
          forall r | r in ParenRuns(tail) ensures Contains(s, "(" + r + ")") {
            ContainsInSuffix("(" + w + ")", tail, "(" + r + ")");
          }
        }
      }
    }
  }

  /** A parenthesised run without ')' is found, and the scan resumes right
      after it. */
  lemma ParenRunsFrame(r: string, rest: string)
    requires r != [] && ')' !in r
    ensures ParenRuns("(" + r + ")" + rest) == [r] + ParenRuns(rest)
  {
    var s := "(" + r + ")" + rest;
    var after := s[1..];
    assert after == r + ")" + rest;
    assert forall i :: 0 <= i < |r| ==> after[i] == r[i];
    assert CloseAt(after) == |r| by {
      CloseAtIs(after, |r|);
    }
    assert after[..|r|] == r;
    assert after[|r| + 1..] == rest;
  }

  lemma CloseAtIs(s: string, j: nat)
    requires j < |s| && s[j] == ')' && forall i :: 0 <= i < j ==> s[i] != ')'
    ensures CloseAt(s) == j
  {
    var c := CloseAt(s);
    assert !(c < j);
    assert !(j < c);
  }

  /** Text without '(' has no runs. */
  lemma {:induction false} ParenRunsWithoutOpen(s: string)
    requires '(' !in s
    ensures ParenRuns(s) == []
    decreases |s|
  {
    if s != [] {
      assert forall c :: c in s[1..] ==> c in s;
      ParenRunsWithoutOpen(s[1..]);
    }
  }

  predicate IsAsciiLetter(c: char) {
    'a' <= c <= 'z' || 'A' <= c <= 'Z'
  }

  /** `/[a-zA-Z]/.test(t)`. */
  predicate HasAsciiLetter(t: string) {
    exists i :: 0 <= i < |t| && IsAsciiLetter(t[i])
  }

  /** The runs kept by the fallback: longer than two characters and holding
      an ASCII letter, in order. */
  function Candidates(runs: seq<string>): (kept: seq<string>)
    ensures forall t :: t in kept ==> t in runs && |t| > 2 && HasAsciiLetter(t)
    ensures |kept| <= |runs|
    decreases |runs|
  {
    if runs == [] then []
    else
      var head := if |runs[0]| > 2 && HasAsciiLetter(runs[0]) then [runs[0]] else [];
      head + Candidates(runs[1..])
  }

  /** `fallbackPDFExtraction` over the raw text of the file. */
  function PdfFallback(content: Option<string>): Result<string, JsError> {
    match content
    case None => Failure(Error(FALLBACK_FAILED))
    case Some(text) =>
      var joined := JoinWith(" ", Candidates(ParenRuns(text)));
      if |joined| > 20 then Success(joined) else Failure(Error(FALLBACK_FAILED))
  }

  /** Every run the fallback keeps is longer than two characters, holds an
      ASCII letter and no ')', and occurs parenthesised in the raw data. */
  lemma CandidatesFacts(text: string)
    ensures forall r :: r in Candidates(ParenRuns(text)) ==>
      |r| > 2 && HasAsciiLetter(r) && ')' !in r && Contains(text, "(" + r + ")")
  {
    ParenRunsSound(text);
  }

  /** Joined kept runs are never blank: the first one holds a letter. */
  lemma JoinedCandidatesNotBlank(runs: seq<string>)
    requires Candidates(runs) != []
    ensures Trim(JoinWith(" ", Candidates(runs))) != ""
  {
    var kept := Candidates(runs);
    var joined := JoinWith(" ", kept);
    assert kept[0] in kept;
    JoinWithFirst(" ", kept);
    var i :| 0 <= i < |kept[0]| && IsAsciiLetter(kept[0][i]);
    assert joined[..|kept[0]|][i] == joined[i];
    assert !IsJsSpace(joined[i]);
    TrimEmptyIffBlank(joined);
  }

  /** The fallback succeeds exactly when the kept runs, joined by spaces,
      are longer than twenty characters, and then returns that join, which
      is not blank; every failure carries the single fallback message. */
  lemma PdfFallbackOutcome(content: Option<string>)
    ensures PdfFallback(content).Success? ==>
      content.Some? && |PdfFallback(content).value| > 20 && Trim(PdfFallback(content).value) != ""
    ensures PdfFallback(content).Failure? ==> PdfFallback(content).error == Error(FALLBACK_FAILED)
    ensures content.None? ==> PdfFallback(content).Failure?
    ensures content.Some? ==>
      (PdfFallback(content).Success? <==> |JoinWith(" ", Candidates(ParenRuns(content.value)))| > 20)
    ensures PdfFallback(content).Success? ==>
      PdfFallback(content).value == JoinWith(" ", Candidates(ParenRuns(content.value)))
  {
    if content.Some? {
      var runs := ParenRuns(content.value);
      var joined := JoinWith(" ", Candidates(runs));
      assert PdfFallback(content) == if |joined| > 20 then Success(joined) else Failure(Error(FALLBACK_FAILED));
      if |joined| > 20 {
        assert Candidates(runs) != [];
        JoinedCandidatesNotBlank(runs);
      }
    }
  }

  // -------------------------------------------------------------------- DOCX

  /** The DOCX engine fails to initialise, fails on the document, or yields
      the raw text. */
  datatype DocxEngine = DocxInitFailed | DocxFailed(error: JsError) | DocxRawText(value: string)

  /** The catch block of `parseDocx`. */
  function DocxLadder(e: JsError): JsError {
    if Contains(e.message, "No readable text") then e else Error(DOCX_FAILED_LEAD + e.message)
  }

  /** `parseDocx`. */
  function ParseDocx(engine: DocxEngine): Result<string, JsError> {
    match engine
    case DocxInitFailed => Failure(DocxLadder(Error(DOCX_INIT_ERROR)))
    case DocxFailed(e) => Failure(DocxLadder(e))
    case DocxRawText(value) =>
      var text := Trim(value);
      if text == "" then Failure(DocxLadder(Error(NO_READABLE_DOCX))) else Success(text)
  }

  lemma NoReadableDocxSaysSo()
    ensures Contains(NO_READABLE_DOCX, "No readable text")
  {
    ContainsPrefix(NO_READABLE_DOCX, "No readable text");
  }

  lemma DocxInitErrorIsNotEmptyText()
    ensures !Contains(DOCX_INIT_ERROR, "No readable text")
  {
    AbsentCharRulesOut(DOCX_INIT_ERROR, "No readable text", 0);
  }

  /** DOCX parsing succeeds exactly on raw text that is not blank, and yields
      it trimmed; blank text fails with the "no readable text" message, kept
      as it is; an engine error that reports unreadable text is rethrown
      unchanged, and every other failure becomes "Failed to parse DOCX
      file: " followed by its own message. */
  lemma ParseDocxOutcome(engine: DocxEngine)
    ensures ParseDocx(engine).Success? <==> engine.DocxRawText? && !AllSpace(engine.value)
    ensures ParseDocx(engine).Success? ==>
      ParseDocx(engine).value == Trim(engine.value) && ParseDocx(engine).value != "" &&
      IsTrimmed(ParseDocx(engine).value)
    ensures engine.DocxRawText? && AllSpace(engine.value) ==>
      ParseDocx(engine) == Failure(Error(NO_READABLE_DOCX))
    ensures engine.DocxInitFailed? ==>
      ParseDocx(engine) == Failure(Error(DOCX_FAILED_LEAD + DOCX_INIT_ERROR))
    ensures engine.DocxFailed? ==>
      ParseDocx(engine) == Failure(
        if Contains(engine.error.message, "No readable text") then engine.error
        else Error(DOCX_FAILED_LEAD + engine.error.message))
    ensures ParseDocx(engine).Failure? ==>
      Contains(ParseDocx(engine).error.message, "No readable text") ||
      IsPrefix(DOCX_FAILED_LEAD, ParseDocx(engine).error.message)
  {
    match engine {
      case DocxInitFailed =>
        DocxInitErrorIsNotEmptyText();
        assert (DOCX_FAILED_LEAD + DOCX_INIT_ERROR)[..|DOCX_FAILED_LEAD|] == DOCX_FAILED_LEAD;
      case DocxFailed(e) =>
        assert (DOCX_FAILED_LEAD + e.message)[..|DOCX_FAILED_LEAD|] == DOCX_FAILED_LEAD;
      case DocxRawText(value) =>
        TrimEmptyIffBlank(value);
        NoReadableDocxSaysSo();
    }
  }

  // --------------------------------------------------------------------- DOC

  /** Printable ASCII, 0x20 to 0x7E. */
  predicate IsPrintable(c: char) {
    ' ' <= c <= '~'
  }

  /** `/[^\x20-\x7E\n\r\t]/g` replaced by a space. */
  function MaskChar(c: char): char {
    if IsPrintable(c) || c == '\n' || c == '\r' || c == '\t' then c else ' '
  }

  function MaskUnprintable(s: string): (r: string)
    ensures |r| == |s| && forall i :: 0 <= i < |s| ==> r[i] == MaskChar(s[i])
  {
    seq(|s|, i requires 0 <= i < |s| => MaskChar(s[i]))
  }

  /** The cleanup chain of `parseDoc`: mask, collapse white space, trim. */
  function CleanDocText(s: string): string {
    Trim(CollapseSpaces(MaskUnprintable(s)))
  }

  /** `parseDoc`: every failure, the too-short result included, surfaces as
      one message (the inner "Failed to extract readable text" error is
      replaced by the catch block). */
  function ParseDoc(content: Option<string>): Result<string, JsError> {
    match content
    case None => Failure(Error(DOC_FAILED))
    case Some(text) =>
      var cleaned := CleanDocText(text);
      if cleaned == "" || |cleaned| < 10 then Failure(Error(DOC_FAILED)) else Success(cleaned)
  }

  /** The cleaned text has no white space at either end, no two spaces in a
      row and no white space other than the plain space, and keeps every
      non-space character of the masked input, in order. */
  lemma CleanDocTextShape(s: string)
    ensures IsTrimmed(CleanDocText(s)) && SingleSpaced(CleanDocText(s))
    ensures NonSpace(Js, CleanDocText(s)) == NonSpace(Js, MaskUnprintable(s))
  {
    var collapsed := CollapseSpaces(MaskUnprintable(s));
    CollapseFacts(MaskUnprintable(s));
    TrimKeeps(collapsed);
    TrimSingleSpaced(collapsed);
  }

  lemma MaskedChars(s: string)
    ensures forall c :: c in MaskUnprintable(s) ==> IsPrintable(c) || c == '\n' || c == '\r' || c == '\t'
  {
  }

  /** The cleaned text holds only printable ASCII. */
  lemma CleanDocTextPrintable(s: string)
    ensures forall i :: 0 <= i < |CleanDocText(s)| ==> IsPrintable(CleanDocText(s)[i])
  {
    var m := MaskUnprintable(s);
    var collapsed := CollapseSpaces(m);
    var t := CleanDocText(s);
    CleanDocTextShape(s);
    CollapseChars(m);
    TrimKeeps(collapsed);
    MaskedChars(s);
    forall i | 0 <= i < |t| ensures IsPrintable(t[i]) {
      assert t[i] in t;
    }
  }

  /** DOC parsing succeeds exactly when the file reads and its cleaned text
      has at least ten characters, and then returns that text; every failure
      carries the one DOC failure message. */
  lemma ParseDocOutcome(content: Option<string>)
    ensures ParseDoc(content).Success? ==>
      content.Some? && ParseDoc(content).value == CleanDocText(content.value) &&
      |ParseDoc(content).value| >= 10
    ensures ParseDoc(content).Failure? ==> ParseDoc(content).error == Error(DOC_FAILED)
    ensures content.None? ==> ParseDoc(content).Failure?
    ensures content.Some? ==> (ParseDoc(content).Success? <==> |CleanDocText(content.value)| >= 10)
    ensures content.Some? && |CleanDocText(content.value)| >= 10 ==>
      ParseDoc(content) == Success(CleanDocText(content.value))
  {
  }

  // ---------------------------------------------------------------- dispatch

  datatype Engines = Engines(pdf: PdfEngine, docx: DocxEngine)

  /** The metadata object: copied file facts plus the text statistics. */
  datatype Metadata = Metadata(
    filename: string,
    size: nat,
    mimeType: string,
    lastModified: int,
    wordCount: nat,
    characterCount: nat,
    lineCount: nat)

  datatype ParsedDocument = ParsedDocument(text: string, metadata: Metadata)

  /** The text `parseDocument` extracts, or the error it throws. On the PDF
      route the fallback runs only when the primary parse fails, and when both
      fail the primary error is the one thrown. */
  function ExtractText(file: UploadedFile, engines: Engines): Result<string, JsError> {
    match RouteOf(file)
    case PdfRoute =>
      (match PdfPrimary(engines.pdf)
       case Success(text) => Success(text)
       case Failure(pdfError) =>
         (match PdfFallback(file.content)
          case Success(text) => Success(text)
          case Failure(_) => Failure(pdfError)))
    case DocxRoute => ParseDocx(engines.docx)
    case DocRoute => ParseDoc(file.content)
    case NoRoute => Failure(Error(UNSUPPORTED))
  }

  function MetadataOf(file: UploadedFile, text: string): Metadata {
    Metadata(file.name, file.size, file.mimeType, file.lastModified,
      |Words(Js, text)|, |text|, |SplitOn(text, '\n')|)
  }

  function ExtractDocument(file: UploadedFile, engines: Engines): Result<ParsedDocument, JsError> {
    match ExtractText(file, engines)
    case Success(text) => Success(ParsedDocument(text, MetadataOf(file, text)))
    case Failure(e) => Failure(e)
  }

  /** The dispatch block of `parseDocument`: route the file (see RouteOf)
      and run the parser for its format. */
  method RunParser(file: UploadedFile, engines: Engines) returns (extracted: Result<string, JsError>)
    ensures extracted == ExtractText(file, engines)
  {
    match RouteOf(file) {
      case PdfRoute =>
        var primary := ParsePdf(engines.pdf);
        match primary {
          case Success(t) =>
            extracted := Success(t);
          case Failure(pdfError) =>
            match PdfFallback(file.content) {
              case Success(t) => extracted := Success(t);
              case Failure(_) => extracted := Failure(pdfError);
            }
        }
      case DocxRoute =>
        extracted := ParseDocx(engines.docx);
      case DocRoute =>
        extracted := ParseDoc(file.content);
      case NoRoute =>
        extracted := Failure(Error(UNSUPPORTED));
    }
  }

  /** `parseDocument`: start the metadata from the file, run the parser, then
      add the text statistics. */
  method ParseDocument(file: UploadedFile, engines: Engines) returns (r: Result<ParsedDocument, JsError>)
    ensures r == ExtractDocument(file, engines)
  {
    var metadata := Metadata(file.name, file.size, file.mimeType, file.lastModified, 0, 0, 0);
    var extracted := RunParser(file, engines);
    if extracted.Failure? {
      return Failure(extracted.error);
    }
    var text := extracted.value;
    metadata := metadata.(wordCount := |Words(Js, text)|);
    metadata := metadata.(characterCount := |text|);
    metadata := metadata.(lineCount := |SplitOn(text, '\n')|);
    r := Success(ParsedDocument(text, metadata));
  }

  /** A file that fails the format check is rejected with the same error
      whatever the engines would have done. */
  lemma UnsupportedIgnoresEngines(file: UploadedFile, engines: Engines)
    requires !IsSupportedDocument(file)
    ensures ExtractDocument(file, engines) == Failure(Error(UNSUPPORTED))
  {
    RoutedFilesAreSupported(file);
  }

  /** Whatever the route, extracted text is never blank. */
  lemma ExtractedTextIsNotBlank(file: UploadedFile, engines: Engines)
    ensures ExtractText(file, engines).Success? ==> Trim(ExtractText(file, engines).value) != ""
  {
    match RouteOf(file) {
      case PdfRoute =>
        PdfPrimaryOutcome(engines.pdf);
        PdfFallbackOutcome(file.content);
        if PdfPrimary(engines.pdf).Success? {
          TrimOfTrimmed(PdfPrimary(engines.pdf).value);
        }
      case DocxRoute =>
        ParseDocxOutcome(engines.docx);
        if ParseDocx(engines.docx).Success? {
          TrimOfTrimmed(ParseDocx(engines.docx).value);
        }
      case DocRoute =>
        if ParseDoc(file.content).Success? {
          CleanDocTextShape(file.content.value);
          TrimOfTrimmed(ParseDoc(file.content).value);
        }
      case NoRoute =>
    }
  }

  /** On the PDF route the fallback's own error never escapes: a failure
      carries the primary parser's error, and only after the fallback has
      failed too. */
  lemma PdfRouteKeepsPrimaryError(file: UploadedFile, engines: Engines)
    requires RouteOf(file) == PdfRoute
    ensures PdfPrimary(engines.pdf).Success? ==> ExtractText(file, engines) == PdfPrimary(engines.pdf)
    ensures ExtractText(file, engines).Failure? ==>
      PdfPrimary(engines.pdf).Failure? && PdfFallback(file.content).Failure? &&
      ExtractText(file, engines).error == PdfPrimary(engines.pdf).error
    ensures PdfPrimary(engines.pdf).Failure? && PdfFallback(file.content).Success? ==>
      ExtractText(file, engines) == PdfFallback(file.content)
  {
  }

  /** The text statistics: `lineCount` is the number of newline-separated
      segments, one more than the newlines and so at least one, and the
      segments join back into the text; `wordCount` counts the maximal runs
      of non-space characters, which together hold exactly the text's
      non-space characters. */
  lemma TextStatistics(file: UploadedFile, text: string)
    ensures MetadataOf(file, text).characterCount == |text|
    ensures MetadataOf(file, text).lineCount == Count(text, '\n') + 1 >= 1
    ensures JoinWith("\n", SplitOn(text, '\n')) == text
    ensures MetadataOf(file, text).wordCount == |Words(Js, text)|
    ensures Concat(Words(Js, text)) == NonSpace(Js, text)
    ensures forall w :: w in Words(Js, text) ==> w != [] && forall i :: 0 <= i < |w| ==> !IsJsSpace(w[i])
  {
    SplitOnFacts(text, '\n');
    WordsFacts(Js, text);
  }

  /** A parsed document carries the extracted text, and its metadata copies
      the file's name, size, type and modification time. */
  lemma ParsedDocumentFacts(file: UploadedFile, engines: Engines)
    ensures ExtractDocument(file, engines).Success? <==> ExtractText(file, engines).Success?
    ensures ExtractDocument(file, engines).Success? ==>
      var d := ExtractDocument(file, engines).value;
      d.text == ExtractText(file, engines).value &&
      d.metadata == MetadataOf(file, d.text) &&
      d.metadata.filename == file.name && d.metadata.size == file.size &&
      d.metadata.mimeType == file.mimeType && d.metadata.lastModified == file.lastModified
    ensures ExtractDocument(file, engines).Failure? ==>
      ExtractDocument(file, engines).error == ExtractText(file, engines).error
  {
  }
}
