/** The catch block of the chat upload (`handleFileUpload`): a thrown error's
    message is classified by case-sensitive substrings into one apology
    followed by one of eight tips, the first matching rung winning. The lemmas
    at the end work out which tip each message of the document parser, and
    each failure of the upload itself, actually receives. */
module UploadGuidance {
  import opened JsText
  import opened Classify
  import opened DocumentParser

  function ApologyLead(): string {
    "Sorry, I encountered an error " + "processing your CV. "
  }

  function TipEmpty(): string {
    "The document appears to be empty or the " +
    "text could not be extracted. This might " + "be an image-based PDF or corrupted " +
    "file. Please ensure your CV contains " + "readable text."
  }

  function TipCorrupt(): string {
    "The PDF file appears to be corrupted or " + "invalid. Please try re-saving or " +
    "re-creating the PDF."
  }

  function TipPassword(): string {
    "Password-protected documents are not " +
    "supported. Please upload an unprotected " + "version."
  }

  function TipInit(): string {
    "Failed to initialize the PDF parser. " + "Please refresh the page and try again."
  }

  function TipBackend(): string {
    "The analysis service is currently " + "unavailable. Please try again later."
  }

  function TipSession(): string {
    "Your session has expired. Please " + "refresh the page and try again."
  }

  function TipDoc(): string {
    "Old DOC format has limited support. " + "Please convert to DOCX or PDF for " +
    "better results."
  }

  function TipGeneric(): string {
    "Please try uploading a different format " + "(PDF, DOCX) or check if the file is " +
    "corrupted."
  }

  /** The error the upload throws itself when the parsed text is blank. */
  const NO_TEXT_CONTENT := "No text content could be extracted " + "from the document."

  /** The messages of the TypeError a JavaScript engine throws when the
      upload calls a store action that the store does not define. */
  const MISSING_ANALYZE_ACTION := "analyzeUploadedCV is not a function"
  const MISSING_PANEL_ACTION := "setShowAnalysisPanel is not a function"

  /** The tip chosen for a thrown message, rung by rung. */
  function Tip(message: string): string {
    if Contains(message, "No readable text") || Contains(message, "No text content") then TipEmpty()
    else if Contains(message, "Invalid PDF") then TipCorrupt()
    else if Contains(message, "password") then TipPassword()
    else if Contains(message, "initialize") || Contains(message, "PDF parser") then TipInit()
    else if Contains(message, "Backend") || Contains(message, "Failed to analyze") then TipBackend()
    else if Contains(message, "session") then TipSession()
    else if Contains(message, "DOC file") then TipDoc()
    else TipGeneric()
  }

  /** The system message the catch block adds for a thrown message. */
  function Guidance(message: string): string {
    ApologyLead() + Tip(message)
  }

  /** The same classification as an ordered table of rules. */
  const GUIDANCE_LADDER: seq<Rule<string>> := [
    Rule([], ["No readable text", "No text content"], TipEmpty()),
    Rule([], ["Invalid PDF"], TipCorrupt()),
    Rule([], ["password"], TipPassword()),
    Rule([], ["initialize", "PDF parser"], TipInit()),
    Rule([], ["Backend", "Failed to analyze"], TipBackend()),
    Rule([], ["session"], TipSession()),
    Rule([], ["DOC file"], TipDoc())
  ]

  /** A rule without names fires exactly when one of its needles occurs. */
  lemma FiresOnNeedles(rule: Rule<string>, name: string, message: string)
    requires rule.names == [] && 1 <= |rule.needles| <= 2
    ensures Fires(rule, name, message) <==>
      Contains(message, rule.needles[0]) || Contains(message, rule.needles[|rule.needles| - 1])
  {
    if Fires(rule, name, message) {
      var i :| 0 <= i < |rule.needles| && Contains(message, rule.needles[i]);
      assert i == 0 || i == |rule.needles| - 1;
    }
  }

  /** What makes each rule of the table fire. */
  lemma LadderRungs(name: string, message: string)
    ensures Fires(GUIDANCE_LADDER[0], name, message) <==> Contains(message, "No readable text") || Contains(message, "No text content")
    ensures Fires(GUIDANCE_LADDER[1], name, message) <==> Contains(message, "Invalid PDF")
    ensures Fires(GUIDANCE_LADDER[2], name, message) <==> Contains(message, "password")
    ensures Fires(GUIDANCE_LADDER[3], name, message) <==> Contains(message, "initialize") || Contains(message, "PDF parser")
    ensures Fires(GUIDANCE_LADDER[4], name, message) <==> Contains(message, "Backend") || Contains(message, "Failed to analyze")
    ensures Fires(GUIDANCE_LADDER[5], name, message) <==> Contains(message, "session")
    ensures Fires(GUIDANCE_LADDER[6], name, message) <==> Contains(message, "DOC file")
  {
    var L := GUIDANCE_LADDER;
    forall j | 0 <= j < |L| ensures L[j].names == [] && 1 <= |L[j].needles| <= 2 {}
    FiresOnNeedles(L[0], name, message);
    FiresOnNeedles(L[1], name, message);
    FiresOnNeedles(L[2], name, message);
    FiresOnNeedles(L[3], name, message);
    FiresOnNeedles(L[4], name, message);
    FiresOnNeedles(L[5], name, message);
    FiresOnNeedles(L[6], name, message);
  }

  /** The rung-by-rung definition is the first match of the table, the
      generic tip when no rule fires; the rules look at the message only. */
  lemma GuidanceIsFirstMatch(name: string, message: string)
    ensures Guidance(message) == ApologyLead() + FirstMatch(GUIDANCE_LADDER, name, message, TipGeneric())
  {
    var L := GUIDANCE_LADDER;
    var m := message;
    LadderRungs(name, m);
    if Contains(m, "No readable text") || Contains(m, "No text content") {
      FirstMatchPicks(L, name, m, TipGeneric(), 0);
    } else if Contains(m, "Invalid PDF") {
      FirstMatchPicks(L, name, m, TipGeneric(), 1);
    } else if Contains(m, "password") {
      FirstMatchPicks(L, name, m, TipGeneric(), 2);
    } else if Contains(m, "initialize") || Contains(m, "PDF parser") {
      FirstMatchPicks(L, name, m, TipGeneric(), 3);
    } else if Contains(m, "Backend") || Contains(m, "Failed to analyze") {
      FirstMatchPicks(L, name, m, TipGeneric(), 4);
    } else if Contains(m, "session") {
      FirstMatchPicks(L, name, m, TipGeneric(), 5);
    } else if Contains(m, "DOC file") {
      FirstMatchPicks(L, name, m, TipGeneric(), 6);
    } else {
      FirstMatchFallsThrough(L, name, m, TipGeneric());
    }
  }

  /** Every guidance starts with the apology, whose first letter no progress
      note of the upload starts with. */
  lemma GuidanceStartsWithApology(message: string)
    ensures IsPrefix(ApologyLead(), Guidance(message)) && Guidance(message)[0] == 'S'
  {
    assert Guidance(message)[..|ApologyLead()|] == ApologyLead();
  }

  // Which tip each message receives. A substring is ruled out by a character
  // of it the message lacks, or by walking the occurrences of one of its
  // characters and finding a mismatch at each (`SkipTo`).

  /** The length check's error of the PDF parser asks for a readable document. */
  lemma NoReadablePdfGuidance()
    ensures Guidance(NO_READABLE_PDF) == ApologyLead() + TipEmpty()
  {
    NoReadablePdfHasNoReadableText();
  }

  lemma NoReadablePdfHasNoReadableText()
    ensures Contains(NO_READABLE_PDF, "No readable text")
  {
    ContainsPrefix(NO_READABLE_PDF, "No readable text");
  }

  /** The upload's own blank-text error asks for a readable document. */
  lemma NoTextContentGuidance()
    ensures Guidance(NO_TEXT_CONTENT) == ApologyLead() + TipEmpty()
  {
    NoTextContentHasNoTextContent();
  }

  lemma NoTextContentHasNoTextContent()
    ensures Contains(NO_TEXT_CONTENT, "No text content")
  {
    ContainsPrefix(NO_TEXT_CONTENT, "No text content");
  }

  /** An empty DOCX asks for a readable document. */
  lemma NoReadableDocxGuidance()
    ensures Guidance(NO_READABLE_DOCX) == ApologyLead() + TipEmpty()
  {
    NoReadableDocxHasNoReadableText();
  }

  lemma NoReadableDocxHasNoReadableText()
    ensures Contains(NO_READABLE_DOCX, "No readable text")
  {
    ContainsPrefix(NO_READABLE_DOCX, "No readable text");
  }

  /** The parser's corrupted-PDF message does not contain "Invalid PDF": it gets the generic tip, not the corrupted-file one. */
  lemma InvalidPdfGuidance()
    ensures Guidance(INVALID_PDF) == ApologyLead() + TipGeneric()
  {
    InvalidPdfLacksNoReadableText();
    InvalidPdfLacksNoTextContent();
    InvalidPdfLacksInvalidPdf("Invalid PDF");
    InvalidPdfLacksPassword();
    InvalidPdfLacksInitialize();
    InvalidPdfLacksPdfParser("PDF parser");
    InvalidPdfLacksBackend();
    InvalidPdfLacksFailedToAnalyze();
    InvalidPdfLacksSession("session");
    InvalidPdfLacksDocFile();
  }

  lemma InvalidPdfLacksNoReadableText()
    ensures !Contains(INVALID_PDF, "No readable text")
  {
    AbsentCharRulesOut(INVALID_PDF, "No readable text", 0);
  }

  lemma InvalidPdfLacksNoTextContent()
    ensures !Contains(INVALID_PDF, "No text content")
  {
    AbsentCharRulesOut(INVALID_PDF, "No text content", 0);
  }

  lemma InvalidPdfLacksInvalidPdf0(p: string)
    requires p == "Invalid PDF"
    ensures Contains("" + ("I" + (("nvalid or corrupted PDF file. " + "Please check the file and try again."))), p) ==> Contains(("nvalid or corrupted PDF file. " + "Please check the file and try again."), p)
  {
    SkipTo("", "I" + (("nvalid or corrupted PDF file. " + "Please check the file and try again.")), p, 0, 8);
    assert ("I" + (("nvalid or corrupted PDF file. " + "Please check the file and try again.")))[1..] == ("nvalid or corrupted PDF file. " + "Please check the file and try again.");
  }
  lemma InvalidPdfLacksInvalidPdfSplit()
    ensures INVALID_PDF == "" + ("I" + (("nvalid or corrupted PDF file. " + "Please check the file and try again.")))
  {
    assert "Invalid or corrupted PDF file. " == "I" + "nvalid or corrupted PDF file. ";
  }
  lemma InvalidPdfLacksInvalidPdfLast(p: string)
    requires p == "Invalid PDF"
    ensures !Contains(("nvalid or corrupted PDF file. " + "Please check the file and try again."), p)
  {
    AbsentCharRulesOut(("nvalid or corrupted PDF file. " + "Please check the file and try again."), p, 0);
  }
  lemma InvalidPdfLacksInvalidPdf(p: string)
    requires p == "Invalid PDF"
    ensures !Contains(INVALID_PDF, p)
  {
    InvalidPdfLacksInvalidPdfSplit();
    InvalidPdfLacksInvalidPdf0(p);
    InvalidPdfLacksInvalidPdfLast(p);
  }

  lemma InvalidPdfLacksPassword()
    ensures !Contains(INVALID_PDF, "password")
  {
    AbsentCharRulesOut(INVALID_PDF, "password", 4);
  }

  lemma InvalidPdfLacksInitialize()
    ensures !Contains(INVALID_PDF, "initialize")
  {
    AbsentCharRulesOut(INVALID_PDF, "initialize", 8);
  }

  lemma InvalidPdfLacksPdfParser0(p: string)
    requires p == "PDF parser"
    ensures Contains("Invalid or corrupted P" + ("D" + (("F file. " + "Please check the file and try again."))), p) ==> Contains(("F file. " + "Please check the file and try again."), p)
  {
    SkipTo("Invalid or corrupted P", "D" + (("F file. " + "Please check the file and try again.")), p, 1, 4);
    assert ("D" + (("F file. " + "Please check the file and try again.")))[1..] == ("F file. " + "Please check the file and try again.");
  }
  lemma InvalidPdfLacksPdfParserSplit()
    ensures INVALID_PDF == "Invalid or corrupted P" + ("D" + (("F file. " + "Please check the file and try again.")))
  {
    assert "Invalid or corrupted PDF file. " == "Invalid or corrupted P" + "D" + "F file. ";
  }
  lemma InvalidPdfLacksPdfParserLast(p: string)
    requires p == "PDF parser"
    ensures !Contains(("F file. " + "Please check the file and try again."), p)
  {
    AbsentCharRulesOut(("F file. " + "Please check the file and try again."), p, 1);
  }
  lemma InvalidPdfLacksPdfParser(p: string)
    requires p == "PDF parser"
    ensures !Contains(INVALID_PDF, p)
  {
    InvalidPdfLacksPdfParserSplit();
    InvalidPdfLacksPdfParser0(p);
    InvalidPdfLacksPdfParserLast(p);
  }

  lemma InvalidPdfLacksBackend()
    ensures !Contains(INVALID_PDF, "Backend")
  {
    AbsentCharRulesOut(INVALID_PDF, "Backend", 0);
  }

  lemma InvalidPdfLacksFailedToAnalyze()
    ensures !Contains(INVALID_PDF, "Failed to analyze")
  {
    AbsentCharRulesOut(INVALID_PDF, "Failed to analyze", 15);
  }

  lemma InvalidPdfLacksSession0(p: string)
    requires p == "session"
    ensures Contains(("Invalid or corrupted PDF file. " + "Plea") + ("s" + ("e check the file and try again.")), p) ==> Contains("e check the file and try again.", p)
  {
    SkipTo(("Invalid or corrupted PDF file. " + "Plea"), "s" + ("e check the file and try again."), p, 0, 2);
    assert ("s" + ("e check the file and try again."))[1..] == "e check the file and try again.";
  }
  lemma InvalidPdfLacksSessionSplit()
    ensures INVALID_PDF == ("Invalid or corrupted PDF file. " + "Plea") + ("s" + ("e check the file and try again."))
  {
    assert "Please check the file and try again." == "Plea" + "s" + "e check the file and try again.";
  }
  lemma InvalidPdfLacksSessionLast(p: string)
    requires p == "session"
    ensures !Contains("e check the file and try again.", p)
  {
    AbsentCharRulesOut("e check the file and try again.", p, 0);
  }
  lemma InvalidPdfLacksSession(p: string)
    requires p == "session"
    ensures !Contains(INVALID_PDF, p)
  {
    InvalidPdfLacksSessionSplit();
    InvalidPdfLacksSession0(p);
    InvalidPdfLacksSessionLast(p);
  }

  lemma InvalidPdfLacksDocFile()
    ensures !Contains(INVALID_PDF, "DOC file")
  {
    AbsentCharRulesOut(INVALID_PDF, "DOC file", 1);
  }

  /** The parser's password message says "Password" with a capital P: it gets the generic tip, not the password one. */
  lemma PasswordPdfGuidance()
    ensures Guidance(PASSWORD_PDF) == ApologyLead() + TipGeneric()
  {
    PasswordPdfLacksNoReadableText();
    PasswordPdfLacksNoTextContent();
    PasswordPdfLacksInvalidPdf();
    PasswordPdfLacksPassword("password");
    PasswordPdfLacksInitialize();
    PasswordPdfLacksPdfParser("PDF parser");
    PasswordPdfLacksBackend();
    PasswordPdfLacksFailedToAnalyze();
    PasswordPdfLacksSession("session");
    PasswordPdfLacksDocFile();
  }

  lemma PasswordPdfLacksNoReadableText()
    ensures !Contains(PASSWORD_PDF, "No readable text")
  {
    AbsentCharRulesOut(PASSWORD_PDF, "No readable text", 0);
  }

  lemma PasswordPdfLacksNoTextContent()
    ensures !Contains(PASSWORD_PDF, "No text content")
  {
    AbsentCharRulesOut(PASSWORD_PDF, "No text content", 0);
  }

  lemma PasswordPdfLacksInvalidPdf()
    ensures !Contains(PASSWORD_PDF, "Invalid PDF")
  {
    AbsentCharRulesOut(PASSWORD_PDF, "Invalid PDF", 0);
  }

  lemma PasswordPdfLacksPassword0(p: string)
    requires p == "password"
    ensures Contains("Pass" + ("w" + (("ord-protected PDFs are not " + "supported. Please upload an " + "unprotected version."))), p) ==> Contains(("ord-protected PDFs are not " + "supported. Please upload an " + "unprotected version."), p)
  {
    SkipTo("Pass", "w" + (("ord-protected PDFs are not " + "supported. Please upload an " + "unprotected version.")), p, 4, 0);
    assert ("w" + (("ord-protected PDFs are not " + "supported. Please upload an " + "unprotected version.")))[1..] == ("ord-protected PDFs are not " + "supported. Please upload an " + "unprotected version.");
  }
  lemma PasswordPdfLacksPasswordSplit()
    ensures PASSWORD_PDF == "Pass" + ("w" + (("ord-protected PDFs are not " + "supported. Please upload an " + "unprotected version.")))
  {
    assert "Password-protected PDFs are not " == "Pass" + "w" + "ord-protected PDFs are not ";
  }
  lemma PasswordPdfLacksPasswordLast(p: string)
    requires p == "password"
    ensures !Contains(("ord-protected PDFs are not " + "supported. Please upload an " + "unprotected version."), p)
  {
    AbsentCharRulesOut(("ord-protected PDFs are not " + "supported. Please upload an " + "unprotected version."), p, 4);
  }
  lemma PasswordPdfLacksPassword(p: string)
    requires p == "password"
    ensures !Contains(PASSWORD_PDF, p)
  {
    PasswordPdfLacksPasswordSplit();
    PasswordPdfLacksPassword0(p);
    PasswordPdfLacksPasswordLast(p);
  }

  lemma PasswordPdfLacksInitialize()
    ensures !Contains(PASSWORD_PDF, "initialize")
  {
    AbsentCharRulesOut(PASSWORD_PDF, "initialize", 8);
  }

  lemma PasswordPdfLacksPdfParser0(p: string)
    requires p == "PDF parser"
    ensures Contains("Password-protected P" + ("D" + (("Fs are not " + "supported. Please upload an " + "unprotected version."))), p) ==> Contains(("Fs are not " + "supported. Please upload an " + "unprotected version."), p)
  {
    SkipTo("Password-protected P", "D" + (("Fs are not " + "supported. Please upload an " + "unprotected version.")), p, 1, 3);
    assert ("D" + (("Fs are not " + "supported. Please upload an " + "unprotected version.")))[1..] == ("Fs are not " + "supported. Please upload an " + "unprotected version.");
  }
  lemma PasswordPdfLacksPdfParserSplit()
    ensures PASSWORD_PDF == "Password-protected P" + ("D" + (("Fs are not " + "supported. Please upload an " + "unprotected version.")))
  {
    assert "Password-protected PDFs are not " == "Password-protected P" + "D" + "Fs are not ";
  }
  lemma PasswordPdfLacksPdfParserLast(p: string)
    requires p == "PDF parser"
    ensures !Contains(("Fs are not " + "supported. Please upload an " + "unprotected version."), p)
  {
    AbsentCharRulesOut(("Fs are not " + "supported. Please upload an " + "unprotected version."), p, 1);
  }
  lemma PasswordPdfLacksPdfParser(p: string)
    requires p == "PDF parser"
    ensures !Contains(PASSWORD_PDF, p)
  {
    PasswordPdfLacksPdfParserSplit();
    PasswordPdfLacksPdfParser0(p);
    PasswordPdfLacksPdfParserLast(p);
  }

  lemma PasswordPdfLacksBackend()
    ensures !Contains(PASSWORD_PDF, "Backend")
  {
    AbsentCharRulesOut(PASSWORD_PDF, "Backend", 0);
  }

  lemma PasswordPdfLacksFailedToAnalyze()
    ensures !Contains(PASSWORD_PDF, "Failed to analyze")
  {
    AbsentCharRulesOut(PASSWORD_PDF, "Failed to analyze", 14);
  }

  lemma PasswordPdfLacksSession0(p: string)
    requires p == "session"
    ensures Contains(("Password-protected PDFs are not " + "supported. Please upload an " + "unprotected vers") + ("i" + ("on.")), p) ==> Contains("on.", p)
  {
    SkipTo(("Password-protected PDFs are not " + "supported. Please upload an " + "unprotected vers"), "i" + ("on."), p, 4, 0);
    assert ("i" + ("on."))[1..] == "on.";
  }
  lemma PasswordPdfLacksSessionSplit()
    ensures PASSWORD_PDF == ("Password-protected PDFs are not " + "supported. Please upload an " + "unprotected vers") + ("i" + ("on."))
  {
    assert "unprotected version." == "unprotected vers" + "i" + "on.";
  }
  lemma PasswordPdfLacksSessionLast(p: string)
    requires p == "session"
    ensures !Contains("on.", p)
  {
    AbsentCharRulesOut("on.", p, 4);
  }
  lemma PasswordPdfLacksSession(p: string)
    requires p == "session"
    ensures !Contains(PASSWORD_PDF, p)
  {
    PasswordPdfLacksSessionSplit();
    PasswordPdfLacksSession0(p);
    PasswordPdfLacksSessionLast(p);
  }

  lemma PasswordPdfLacksDocFile()
    ensures !Contains(PASSWORD_PDF, "DOC file")
  {
    AbsentCharRulesOut(PASSWORD_PDF, "DOC file", 1);
  }

  /** A PDF engine that cannot start gets the parser-initialisation tip. */
  lemma PdfInitFailedGuidance()
    ensures Guidance(PDF_INIT_FAILED) == ApologyLead() + TipInit()
  {
    PdfInitFailedLacksNoReadableText();
    PdfInitFailedLacksNoTextContent();
    PdfInitFailedLacksInvalidPdf();
    PdfInitFailedLacksPassword();
    PdfInitFailedHasPdfParser();
  }

  lemma PdfInitFailedLacksNoReadableText()
    ensures !Contains(PDF_INIT_FAILED, "No readable text")
  {
    AbsentCharRulesOut(PDF_INIT_FAILED, "No readable text", 0);
  }

  lemma PdfInitFailedLacksNoTextContent()
    ensures !Contains(PDF_INIT_FAILED, "No text content")
  {
    AbsentCharRulesOut(PDF_INIT_FAILED, "No text content", 0);
  }

  lemma PdfInitFailedLacksInvalidPdf()
    ensures !Contains(PDF_INIT_FAILED, "Invalid PDF")
  {
    AbsentCharRulesOut(PDF_INIT_FAILED, "Invalid PDF", 0);
  }

  lemma PdfInitFailedLacksPassword()
    ensures !Contains(PDF_INIT_FAILED, "password")
  {
    AbsentCharRulesOut(PDF_INIT_FAILED, "password", 4);
  }

  lemma PdfInitFailedHasPdfParser()
    ensures Contains(PDF_INIT_FAILED, "PDF parser")
  {
    ContainsPrefix(PDF_INIT_FAILED, "PDF parser");
  }

  /** A network failure loading the PDF engine gets the parser-initialisation tip. */
  lemma PdfNetworkGuidance()
    ensures Guidance(PDF_NETWORK) == ApologyLead() + TipInit()
  {
    PdfNetworkLacksNoReadableText();
    PdfNetworkLacksNoTextContent();
    PdfNetworkLacksInvalidPdf();
    PdfNetworkLacksPassword("password");
    PdfNetworkHasPdfParser();
  }

  lemma PdfNetworkLacksNoReadableText()
    ensures !Contains(PDF_NETWORK, "No readable text")
  {
    AbsentCharRulesOut(PDF_NETWORK, "No readable text", 8);
  }

  lemma PdfNetworkLacksNoTextContent()
    ensures !Contains(PDF_NETWORK, "No text content")
  {
    AbsentCharRulesOut(PDF_NETWORK, "No text content", 5);
  }

  lemma PdfNetworkLacksInvalidPdf()
    ensures !Contains(PDF_NETWORK, "Invalid PDF")
  {
    AbsentCharRulesOut(PDF_NETWORK, "Invalid PDF", 0);
  }

  lemma PdfNetworkLacksPassword0(p: string)
    requires p == "password"
    ensures Contains(("Network error loading " + "PDF ") + ("p" + (("arser. Please check your internet " + "connection and try again."))), p) ==> Contains(("arser. Please check your internet " + "connection and try again."), p)
  {
    SkipTo(("Network error loading " + "PDF "), "p" + (("arser. Please check your internet " + "connection and try again.")), p, 0, 2);
    assert ("p" + (("arser. Please check your internet " + "connection and try again.")))[1..] == ("arser. Please check your internet " + "connection and try again.");
  }
  lemma PdfNetworkLacksPasswordSplit()
    ensures PDF_NETWORK == ("Network error loading " + "PDF ") + ("p" + (("arser. Please check your internet " + "connection and try again.")))
  {
    assert "PDF parser. Please check your internet " == "PDF " + "p" + "arser. Please check your internet ";
  }
  lemma PdfNetworkLacksPasswordLast(p: string)
    requires p == "password"
    ensures !Contains(("arser. Please check your internet " + "connection and try again."), p)
  {
    AbsentCharRulesOut(("arser. Please check your internet " + "connection and try again."), p, 0);
  }
  lemma PdfNetworkLacksPassword(p: string)
    requires p == "password"
    ensures !Contains(PDF_NETWORK, p)
  {
    PdfNetworkLacksPasswordSplit();
    PdfNetworkLacksPassword0(p);
    PdfNetworkLacksPasswordLast(p);
  }

  lemma PdfNetworkHasPdfParserSplit()
    ensures PDF_NETWORK == "Network error loading " + ("PDF parser. Please check your internet " + "connection and try again.")
  {
  }
  lemma PdfNetworkHasPdfParserTail()
    ensures Contains(("PDF parser. Please check your internet " + "connection and try again."), "PDF parser")
  {
    ContainsPrefix(("PDF parser. Please check your internet " + "connection and try again."), "PDF parser");
  }
  lemma PdfNetworkHasPdfParser()
    ensures Contains(PDF_NETWORK, "PDF parser")
  {
    PdfNetworkHasPdfParserSplit();
    PdfNetworkHasPdfParserTail();
    ContainsInSuffix("Network error loading ", ("PDF parser. Please check your internet " + "connection and try again."), "PDF parser");
  }

  /** A DOC file that cannot be read gets the old-format tip. */
  lemma DocFailedGuidance()
    ensures Guidance(DOC_FAILED) == ApologyLead() + TipDoc()
  {
    DocFailedLacksNoReadableText();
    DocFailedLacksNoTextContent();
    DocFailedLacksInvalidPdf();
    DocFailedLacksPassword();
    DocFailedLacksInitialize();
    DocFailedLacksPdfParser("PDF parser");
    DocFailedLacksBackend();
    DocFailedLacksFailedToAnalyze();
    DocFailedLacksSession("session");
    DocFailedHasDocFile();
  }

  lemma DocFailedLacksNoReadableText()
    ensures !Contains(DOC_FAILED, "No readable text")
  {
    AbsentCharRulesOut(DOC_FAILED, "No readable text", 0);
  }

  lemma DocFailedLacksNoTextContent()
    ensures !Contains(DOC_FAILED, "No text content")
  {
    AbsentCharRulesOut(DOC_FAILED, "No text content", 0);
  }

  lemma DocFailedLacksInvalidPdf()
    ensures !Contains(DOC_FAILED, "Invalid PDF")
  {
    AbsentCharRulesOut(DOC_FAILED, "Invalid PDF", 0);
  }

  lemma DocFailedLacksPassword()
    ensures !Contains(DOC_FAILED, "password")
  {
    AbsentCharRulesOut(DOC_FAILED, "password", 4);
  }

  lemma DocFailedLacksInitialize()
    ensures !Contains(DOC_FAILED, "initialize")
  {
    AbsentCharRulesOut(DOC_FAILED, "initialize", 8);
  }

  lemma DocFailedLacksPdfParser0(p: string)
    requires p == "PDF parser"
    ensures Contains("Failed to parse DOC file. " + ("P" + ("lease convert to DOCX or " + ("P" + ("DF format for better compatibility.")))), p) ==> Contains("lease convert to DOCX or " + ("P" + ("DF format for better compatibility.")), p)
  {
    SkipTo("Failed to parse DOC file. ", "P" + ("lease convert to DOCX or " + ("P" + ("DF format for better compatibility."))), p, 0, 1);
    assert ("P" + ("lease convert to DOCX or " + ("P" + ("DF format for better compatibility."))))[1..] == "lease convert to DOCX or " + ("P" + ("DF format for better compatibility."));
  }
  lemma DocFailedLacksPdfParser1(p: string)
    requires p == "PDF parser"
    ensures Contains("lease convert to DOCX or " + ("P" + ("DF format for better compatibility.")), p) ==> Contains("DF format for better compatibility.", p)
  {
    SkipTo("lease convert to DOCX or ", "P" + ("DF format for better compatibility."), p, 0, 4);
    assert ("P" + ("DF format for better compatibility."))[1..] == "DF format for better compatibility.";
  }
  lemma DocFailedLacksPdfParserSplit()
    ensures DOC_FAILED == "Failed to parse DOC file. " + ("P" + ("lease convert to DOCX or " + ("P" + ("DF format for better compatibility."))))
  {
    assert "Please convert to DOCX or " == "P" + "lease convert to DOCX or ";
    assert "PDF format for better compatibility." == "P" + "DF format for better compatibility.";
  }
  lemma DocFailedLacksPdfParserLast(p: string)
    requires p == "PDF parser"
    ensures !Contains("DF format for better compatibility.", p)
  {
    AbsentCharRulesOut("DF format for better compatibility.", p, 0);
  }
  lemma DocFailedLacksPdfParser(p: string)
    requires p == "PDF parser"
    ensures !Contains(DOC_FAILED, p)
  {
    DocFailedLacksPdfParserSplit();
    DocFailedLacksPdfParser0(p);
    DocFailedLacksPdfParser1(p);
    DocFailedLacksPdfParserLast(p);
  }

  lemma DocFailedLacksBackend()
    ensures !Contains(DOC_FAILED, "Backend")
  {
    AbsentCharRulesOut(DOC_FAILED, "Backend", 0);
  }

  lemma DocFailedLacksFailedToAnalyze()
    ensures !Contains(DOC_FAILED, "Failed to analyze")
  {
    AbsentCharRulesOut(DOC_FAILED, "Failed to analyze", 15);
  }

  lemma DocFailedLacksSession0(p: string)
    requires p == "session"
    ensures Contains(("Failed to parse DOC file. " + "Please co") + ("n" + (("vert to DOCX or " + "PDF format for better compatibility."))), p) ==> Contains(("vert to DOCX or " + "PDF format for better compatibility."), p)
  {
    SkipTo(("Failed to parse DOC file. " + "Please co"), "n" + (("vert to DOCX or " + "PDF format for better compatibility.")), p, 6, 0);
    assert ("n" + (("vert to DOCX or " + "PDF format for better compatibility.")))[1..] == ("vert to DOCX or " + "PDF format for better compatibility.");
  }
  lemma DocFailedLacksSessionSplit()
    ensures DOC_FAILED == ("Failed to parse DOC file. " + "Please co") + ("n" + (("vert to DOCX or " + "PDF format for better compatibility.")))
  {
    assert "Please convert to DOCX or " == "Please co" + "n" + "vert to DOCX or ";
  }
  lemma DocFailedLacksSessionLast(p: string)
    requires p == "session"
    ensures !Contains(("vert to DOCX or " + "PDF format for better compatibility."), p)
  {
    AbsentCharRulesOut(("vert to DOCX or " + "PDF format for better compatibility."), p, 6);
  }
  lemma DocFailedLacksSession(p: string)
    requires p == "session"
    ensures !Contains(DOC_FAILED, p)
  {
    DocFailedLacksSessionSplit();
    DocFailedLacksSession0(p);
    DocFailedLacksSessionLast(p);
  }

  lemma DocFailedHasDocFileSplit()
    ensures DOC_FAILED == "Failed to parse " + ("DOC file. " + "Please convert to DOCX or " + "PDF format for better compatibility.")
  {
  }
  lemma DocFailedHasDocFileTail()
    ensures Contains(("DOC file. " + "Please convert to DOCX or " + "PDF format for better compatibility."), "DOC file")
  {
    ContainsPrefix(("DOC file. " + "Please convert to DOCX or " + "PDF format for better compatibility."), "DOC file");
  }
  lemma DocFailedHasDocFile()
    ensures Contains(DOC_FAILED, "DOC file")
  {
    DocFailedHasDocFileSplit();
    DocFailedHasDocFileTail();
    ContainsInSuffix("Failed to parse ", ("DOC file. " + "Please convert to DOCX or " + "PDF format for better compatibility."), "DOC file");
  }

  /** A file that passed the format check but has no parser gets the generic tip. */
  lemma UnsupportedGuidance()
    ensures Guidance(UNSUPPORTED) == ApologyLead() + TipGeneric()
  {
    UnsupportedLacksNoReadableText();
    UnsupportedLacksNoTextContent();
    UnsupportedLacksInvalidPdf();
    UnsupportedLacksPassword();
    UnsupportedLacksInitialize();
    UnsupportedLacksPdfParser("PDF parser");
    UnsupportedLacksBackend();
    UnsupportedLacksFailedToAnalyze();
    UnsupportedLacksSession("session");
    UnsupportedLacksDocFile("DOC file");
  }

  lemma UnsupportedLacksNoReadableText()
    ensures !Contains(UNSUPPORTED, "No readable text")
  {
    AbsentCharRulesOut(UNSUPPORTED, "No readable text", 0);
  }

  lemma UnsupportedLacksNoTextContent()
    ensures !Contains(UNSUPPORTED, "No text content")
  {
    AbsentCharRulesOut(UNSUPPORTED, "No text content", 0);
  }

  lemma UnsupportedLacksInvalidPdf()
    ensures !Contains(UNSUPPORTED, "Invalid PDF")
  {
    AbsentCharRulesOut(UNSUPPORTED, "Invalid PDF", 0);
  }

  lemma UnsupportedLacksPassword()
    ensures !Contains(UNSUPPORTED, "password")
  {
    AbsentCharRulesOut(UNSUPPORTED, "password", 4);
  }

  lemma UnsupportedLacksInitialize()
    ensures !Contains(UNSUPPORTED, "initialize")
  {
    AbsentCharRulesOut(UNSUPPORTED, "initialize", 8);
  }

  lemma UnsupportedLacksPdfParser0(p: string)
    requires p == "PDF parser"
    ensures Contains(("Unsupported file format. " + "Please upload PD") + ("F" + (", DOC, or DOCX files.")), p) ==> Contains(", DOC, or DOCX files.", p)
  {
    SkipTo(("Unsupported file format. " + "Please upload PD"), "F" + (", DOC, or DOCX files."), p, 2, 3);
    assert ("F" + (", DOC, or DOCX files."))[1..] == ", DOC, or DOCX files.";
  }
  lemma UnsupportedLacksPdfParserSplit()
    ensures UNSUPPORTED == ("Unsupported file format. " + "Please upload PD") + ("F" + (", DOC, or DOCX files."))
  {
    assert "Please upload PDF, DOC, or DOCX files." == "Please upload PD" + "F" + ", DOC, or DOCX files.";
  }
  lemma UnsupportedLacksPdfParserLast(p: string)
    requires p == "PDF parser"
    ensures !Contains(", DOC, or DOCX files.", p)
  {
    AbsentCharRulesOut(", DOC, or DOCX files.", p, 2);
  }
  lemma UnsupportedLacksPdfParser(p: string)
    requires p == "PDF parser"
    ensures !Contains(UNSUPPORTED, p)
  {
    UnsupportedLacksPdfParserSplit();
    UnsupportedLacksPdfParser0(p);
    UnsupportedLacksPdfParserLast(p);
  }

  lemma UnsupportedLacksBackend()
    ensures !Contains(UNSUPPORTED, "Backend")
  {
    AbsentCharRulesOut(UNSUPPORTED, "Backend", 0);
  }

  lemma UnsupportedLacksFailedToAnalyze()
    ensures !Contains(UNSUPPORTED, "Failed to analyze")
  {
    AbsentCharRulesOut(UNSUPPORTED, "Failed to analyze", 14);
  }

  lemma UnsupportedLacksSession0(p: string)
    requires p == "session"
    ensures Contains("U" + ("n" + (("supported file format. " + "Please upload PDF, DOC, or DOCX files."))), p) ==> Contains(("supported file format. " + "Please upload PDF, DOC, or DOCX files."), p)
  {
    SkipTo("U", "n" + (("supported file format. " + "Please upload PDF, DOC, or DOCX files.")), p, 6, 0);
    assert ("n" + (("supported file format. " + "Please upload PDF, DOC, or DOCX files.")))[1..] == ("supported file format. " + "Please upload PDF, DOC, or DOCX files.");
  }
  lemma UnsupportedLacksSessionSplit()
    ensures UNSUPPORTED == "U" + ("n" + (("supported file format. " + "Please upload PDF, DOC, or DOCX files.")))
  {
    assert "Unsupported file format. " == "U" + "n" + "supported file format. ";
  }
  lemma UnsupportedLacksSessionLast(p: string)
    requires p == "session"
    ensures !Contains(("supported file format. " + "Please upload PDF, DOC, or DOCX files."), p)
  {
    AbsentCharRulesOut(("supported file format. " + "Please upload PDF, DOC, or DOCX files."), p, 6);
  }
  lemma UnsupportedLacksSession(p: string)
    requires p == "session"
    ensures !Contains(UNSUPPORTED, p)
  {
    UnsupportedLacksSessionSplit();
    UnsupportedLacksSession0(p);
    UnsupportedLacksSessionLast(p);
  }

  lemma UnsupportedLacksDocFile0(p: string)
    requires p == "DOC file"
    ensures Contains(("Unsupported file format. " + "Please upload PDF, D") + ("O" + ("C, or D" + ("O" + ("CX files.")))), p) ==> Contains("C, or D" + ("O" + ("CX files.")), p)
  {
    SkipTo(("Unsupported file format. " + "Please upload PDF, D"), "O" + ("C, or D" + ("O" + ("CX files."))), p, 1, 3);
    assert ("O" + ("C, or D" + ("O" + ("CX files."))))[1..] == "C, or D" + ("O" + ("CX files."));
  }
  lemma UnsupportedLacksDocFile1(p: string)
    requires p == "DOC file"
    ensures Contains("C, or D" + ("O" + ("CX files.")), p) ==> Contains("CX files.", p)
  {
    SkipTo("C, or D", "O" + ("CX files."), p, 1, 3);
    assert ("O" + ("CX files."))[1..] == "CX files.";
  }
  lemma UnsupportedLacksDocFileSplit()
    ensures UNSUPPORTED == ("Unsupported file format. " + "Please upload PDF, D") + ("O" + ("C, or D" + ("O" + ("CX files."))))
  {
    assert "Please upload PDF, DOC, or DOCX files." == "Please upload PDF, D" + "O" + "C, or D" + "O" + "CX files.";
  }
  lemma UnsupportedLacksDocFileLast(p: string)
    requires p == "DOC file"
    ensures !Contains("CX files.", p)
  {
    AbsentCharRulesOut("CX files.", p, 1);
  }
  lemma UnsupportedLacksDocFile(p: string)
    requires p == "DOC file"
    ensures !Contains(UNSUPPORTED, p)
  {
    UnsupportedLacksDocFileSplit();
    UnsupportedLacksDocFile0(p);
    UnsupportedLacksDocFile1(p);
    UnsupportedLacksDocFileLast(p);
  }

  /** Calling the analysis action the store does not define gets the generic tip. */
  lemma MissingAnalyzeActionGuidance()
    ensures Guidance(MISSING_ANALYZE_ACTION) == ApologyLead() + TipGeneric()
  {
    MissingAnalyzeActionLacksNoReadableText();
    MissingAnalyzeActionLacksNoTextContent();
    MissingAnalyzeActionLacksInvalidPdf();
    MissingAnalyzeActionLacksPassword();
    MissingAnalyzeActionLacksInitialize("initialize");
    MissingAnalyzeActionLacksPdfParser();
    MissingAnalyzeActionLacksBackend();
    MissingAnalyzeActionLacksFailedToAnalyze();
    MissingAnalyzeActionLacksSession("session");
    MissingAnalyzeActionLacksDocFile();
  }

  lemma MissingAnalyzeActionLacksNoReadableText()
    ensures !Contains(MISSING_ANALYZE_ACTION, "No readable text")
  {
    AbsentCharRulesOut(MISSING_ANALYZE_ACTION, "No readable text", 0);
  }

  lemma MissingAnalyzeActionLacksNoTextContent()
    ensures !Contains(MISSING_ANALYZE_ACTION, "No text content")
  {
    AbsentCharRulesOut(MISSING_ANALYZE_ACTION, "No text content", 0);
  }

  lemma MissingAnalyzeActionLacksInvalidPdf()
    ensures !Contains(MISSING_ANALYZE_ACTION, "Invalid PDF")
  {
    AbsentCharRulesOut(MISSING_ANALYZE_ACTION, "Invalid PDF", 0);
  }

  lemma MissingAnalyzeActionLacksPassword()
    ensures !Contains(MISSING_ANALYZE_ACTION, "password")
  {
    AbsentCharRulesOut(MISSING_ANALYZE_ACTION, "password", 4);
  }

  lemma MissingAnalyzeActionLacksInitialize0(p: string)
    requires p == "initialize"
    ensures Contains("analy" + ("z" + ("eUploadedCV is not a function")), p) ==> Contains("eUploadedCV is not a function", p)
  {
    SkipTo("analy", "z" + ("eUploadedCV is not a function"), p, 8, 0);
    assert ("z" + ("eUploadedCV is not a function"))[1..] == "eUploadedCV is not a function";
  }
  lemma MissingAnalyzeActionLacksInitializeSplit()
    ensures MISSING_ANALYZE_ACTION == "analy" + ("z" + ("eUploadedCV is not a function"))
  {
    assert "analyzeUploadedCV is not a function" == "analy" + "z" + "eUploadedCV is not a function";
  }
  lemma MissingAnalyzeActionLacksInitializeLast(p: string)
    requires p == "initialize"
    ensures !Contains("eUploadedCV is not a function", p)
  {
    AbsentCharRulesOut("eUploadedCV is not a function", p, 8);
  }
  lemma MissingAnalyzeActionLacksInitialize(p: string)
    requires p == "initialize"
    ensures !Contains(MISSING_ANALYZE_ACTION, p)
  {
    MissingAnalyzeActionLacksInitializeSplit();
    MissingAnalyzeActionLacksInitialize0(p);
    MissingAnalyzeActionLacksInitializeLast(p);
  }

  lemma MissingAnalyzeActionLacksPdfParser()
    ensures !Contains(MISSING_ANALYZE_ACTION, "PDF parser")
  {
    AbsentCharRulesOut(MISSING_ANALYZE_ACTION, "PDF parser", 0);
  }

  lemma MissingAnalyzeActionLacksBackend()
    ensures !Contains(MISSING_ANALYZE_ACTION, "Backend")
  {
    AbsentCharRulesOut(MISSING_ANALYZE_ACTION, "Backend", 0);
  }

  lemma MissingAnalyzeActionLacksFailedToAnalyze()
    ensures !Contains(MISSING_ANALYZE_ACTION, "Failed to analyze")
  {
    AbsentCharRulesOut(MISSING_ANALYZE_ACTION, "Failed to analyze", 0);
  }

  lemma MissingAnalyzeActionLacksSession0(p: string)
    requires p == "session"
    ensures Contains("analyzeUploadedCV i" + ("s" + (" not a function")), p) ==> Contains(" not a function", p)
  {
    SkipTo("analyzeUploadedCV i", "s" + (" not a function"), p, 0, 1);
    assert ("s" + (" not a function"))[1..] == " not a function";
  }
  lemma MissingAnalyzeActionLacksSessionSplit()
    ensures MISSING_ANALYZE_ACTION == "analyzeUploadedCV i" + ("s" + (" not a function"))
  {
    assert "analyzeUploadedCV is not a function" == "analyzeUploadedCV i" + "s" + " not a function";
  }
  lemma MissingAnalyzeActionLacksSessionLast(p: string)
    requires p == "session"
    ensures !Contains(" not a function", p)
  {
    AbsentCharRulesOut(" not a function", p, 0);
  }
  lemma MissingAnalyzeActionLacksSession(p: string)
    requires p == "session"
    ensures !Contains(MISSING_ANALYZE_ACTION, p)
  {
    MissingAnalyzeActionLacksSessionSplit();
    MissingAnalyzeActionLacksSession0(p);
    MissingAnalyzeActionLacksSessionLast(p);
  }

  lemma MissingAnalyzeActionLacksDocFile()
    ensures !Contains(MISSING_ANALYZE_ACTION, "DOC file")
  {
    AbsentCharRulesOut(MISSING_ANALYZE_ACTION, "DOC file", 0);
  }

  /** Calling the panel action the store does not define gets the generic tip. */
  lemma MissingPanelActionGuidance()
    ensures Guidance(MISSING_PANEL_ACTION) == ApologyLead() + TipGeneric()
  {
    MissingPanelActionLacksNoReadableText();
    MissingPanelActionLacksNoTextContent();
    MissingPanelActionLacksInvalidPdf();
    MissingPanelActionLacksPassword();
    MissingPanelActionLacksInitialize();
    MissingPanelActionLacksPdfParser();
    MissingPanelActionLacksBackend();
    MissingPanelActionLacksFailedToAnalyze();
    MissingPanelActionLacksSession("session");
    MissingPanelActionLacksDocFile();
  }

  lemma MissingPanelActionLacksNoReadableText()
    ensures !Contains(MISSING_PANEL_ACTION, "No readable text")
  {
    AbsentCharRulesOut(MISSING_PANEL_ACTION, "No readable text", 0);
  }

  lemma MissingPanelActionLacksNoTextContent()
    ensures !Contains(MISSING_PANEL_ACTION, "No text content")
  {
    AbsentCharRulesOut(MISSING_PANEL_ACTION, "No text content", 0);
  }

  lemma MissingPanelActionLacksInvalidPdf()
    ensures !Contains(MISSING_PANEL_ACTION, "Invalid PDF")
  {
    AbsentCharRulesOut(MISSING_PANEL_ACTION, "Invalid PDF", 0);
  }

  lemma MissingPanelActionLacksPassword()
    ensures !Contains(MISSING_PANEL_ACTION, "password")
  {
    AbsentCharRulesOut(MISSING_PANEL_ACTION, "password", 0);
  }

  lemma MissingPanelActionLacksInitialize()
    ensures !Contains(MISSING_PANEL_ACTION, "initialize")
  {
    AbsentCharRulesOut(MISSING_PANEL_ACTION, "initialize", 8);
  }

  lemma MissingPanelActionLacksPdfParser()
    ensures !Contains(MISSING_PANEL_ACTION, "PDF parser")
  {
    AbsentCharRulesOut(MISSING_PANEL_ACTION, "PDF parser", 1);
  }

  lemma MissingPanelActionLacksBackend()
    ensures !Contains(MISSING_PANEL_ACTION, "Backend")
  {
    AbsentCharRulesOut(MISSING_PANEL_ACTION, "Backend", 0);
  }

  lemma MissingPanelActionLacksFailedToAnalyze()
    ensures !Contains(MISSING_PANEL_ACTION, "Failed to analyze")
  {
    AbsentCharRulesOut(MISSING_PANEL_ACTION, "Failed to analyze", 0);
  }

  lemma MissingPanelActionLacksSession0(p: string)
    requires p == "session"
    ensures Contains("s" + ("e" + ("tShowAnalysisPan" + ("e" + ("l is not a function")))), p) ==> Contains("tShowAnalysisPan" + ("e" + ("l is not a function")), p)
  {
    SkipTo("s", "e" + ("tShowAnalysisPan" + ("e" + ("l is not a function"))), p, 1, 2);
    assert ("e" + ("tShowAnalysisPan" + ("e" + ("l is not a function"))))[1..] == "tShowAnalysisPan" + ("e" + ("l is not a function"));
  }
  lemma MissingPanelActionLacksSession1(p: string)
    requires p == "session"
    ensures Contains("tShowAnalysisPan" + ("e" + ("l is not a function")), p) ==> Contains("l is not a function", p)
  {
    SkipTo("tShowAnalysisPan", "e" + ("l is not a function"), p, 1, 0);
    assert ("e" + ("l is not a function"))[1..] == "l is not a function";
  }
  lemma MissingPanelActionLacksSessionSplit()
    ensures MISSING_PANEL_ACTION == "s" + ("e" + ("tShowAnalysisPan" + ("e" + ("l is not a function"))))
  {
    assert "setShowAnalysisPanel is not a function" == "s" + "e" + "tShowAnalysisPan" + "e" + "l is not a function";
  }
  lemma MissingPanelActionLacksSessionLast(p: string)
    requires p == "session"
    ensures !Contains("l is not a function", p)
  {
    AbsentCharRulesOut("l is not a function", p, 1);
  }
  lemma MissingPanelActionLacksSession(p: string)
    requires p == "session"
    ensures !Contains(MISSING_PANEL_ACTION, p)
  {
    MissingPanelActionLacksSessionSplit();
    MissingPanelActionLacksSession0(p);
    MissingPanelActionLacksSession1(p);
    MissingPanelActionLacksSessionLast(p);
  }

  lemma MissingPanelActionLacksDocFile()
    ensures !Contains(MISSING_PANEL_ACTION, "DOC file")
  {
    AbsentCharRulesOut(MISSING_PANEL_ACTION, "DOC file", 0);
  }
}
