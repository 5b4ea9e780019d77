/** The Flask back end's in-memory bookkeeping: the `sessions` and `analyses`
    dictionaries, the debug text statistics, the analysis summaries of a
    session and the chat handler. Each request's JSON fields are parameters,
    each response a `Reply`; generated ids and timestamps are parameters too. */
module Backend {
  import opened Values
  import opened JsText

  /** A handler's answer: the JSON body, or an error status with the
      `error` message of the body sent with it. */
  datatype Reply<T> = Ok(body: T) | HttpError(status: int, error: string)

  const MISSING_CV_TEXT := "Missing cv_text"
  const MISSING_FIELDS := "Missing required fields"
  const ANALYSIS_NOT_FOUND := "Analysis not found"
  const SESSION_NOT_FOUND := "Session not found"
  const DEFAULT_FILENAME := "unknown.pdf"
  const SESSION_ID_LEAD := "cv_session_"

  /** The fixed score and role every analysis carries until a model produces them. */
  const PLACEHOLDER_ATS_SCORE := 85
  const PLACEHOLDER_ROLE := "Software Developer"

  /** Python truthiness of an optional string field: present and non-empty. */
  predicate Given(field: Option<string>) {
    field.Some? && field.value != ""
  }

  function Min(a: nat, b: nat): nat {
    if a <= b then a else b
  }

  // ------------------------------------------------------------ text windows

  /** `t[:n]`: the first `n` characters, or all of `t` when it is shorter. */
  function Head(t: string, n: nat): string {
    if |t| <= n then t else t[..n]
  }

  /** `t[-n:] if len(t) > n else t`. */
  function Last(t: string, n: nat): string {
    if |t| > n then t[|t| - n..] else t
  }

  /** `first_100_chars` of an analysis: the text itself up to 100 characters,
      otherwise its first 100 characters followed by an ellipsis. */
  function Preview(t: string): string {
    if |t| > 100 then t[..100] + "..." else t
  }

  /** The two debug windows are the prefix and the suffix of the text of
      length min(n, |t|); a text of at most `n` characters is shown whole in
      both, and a text of at least `2n` characters is the head, the part
      neither window shows, and the tail, in that order. */
  lemma WindowFacts(t: string, n: nat)
    ensures IsPrefix(Head(t, n), t) && |Head(t, n)| == Min(n, |t|)
    ensures EndsWith(t, Last(t, n)) && |Last(t, n)| == Min(n, |t|)
    ensures |t| <= n ==> Head(t, n) == t && Last(t, n) == t
    ensures |t| >= 2 * n ==> Head(t, n) + t[n..|t| - n] + Last(t, n) == t
  {
    if |t| >= 2 * n {
      assert t == t[..n] + t[n..|t| - n] + t[|t| - n..];
    }
  }

  /** The preview is exact up to 100 characters; beyond that it is 103
      characters long, keeps the first 100 and ends in "...". */
  lemma PreviewFacts(t: string)
    ensures |t| <= 100 ==> Preview(t) == t
    ensures |t| > 100 ==> |Preview(t)| == 103 && Preview(t)[..100] == t[..100] && EndsWith(Preview(t), "...")
    ensures IsPrefix(Head(t, 100), Preview(t)) && |Preview(t)| <= 103
  {
  }

  // ------------------------------------------------------------ debug_parse

  /** The body `debug_parse` answers with. */
  datatype DebugReport = DebugReport(
    filename: string,
    textLength: nat,
    wordCount: nat,
    lineCount: nat,
    first200: string,
    last200: string,
    fullText: string,
    success: bool)

  /** `debug_parse`: a missing or empty `cv_text` is a 400; otherwise the text
      statistics. `filename` is `None` when the key is absent. */
  function DebugParse(cvText: Option<string>, filename: Option<string>): (r: Reply<DebugReport>)
    ensures r.HttpError? <==> !Given(cvText)
    ensures r.HttpError? ==> r.status == 400 && r.error == MISSING_CV_TEXT
  {
    if !Given(cvText) then HttpError(400, MISSING_CV_TEXT)
    else
      var t := cvText.value;
      Ok(DebugReport(
        if filename.Some? then filename.value else DEFAULT_FILENAME,
        |t|, |Words(Py, t)|, |SplitOn(t, '\n')|,
        Head(t, 200), Last(t, 200), t, true))
  }

  /** What the statistics mean: the full text and its length; the line count
      is one more than the number of newlines; the words are the maximal
      runs of Python white-space-free characters, which together hold
      exactly the text's non-space characters; the two windows are the
      text's prefix and suffix of up to 200 characters; an absent file name
      reads as "unknown.pdf". */
  lemma DebugParseReport(cvText: Option<string>, filename: Option<string>)
    requires Given(cvText)
    ensures var d := DebugParse(cvText, filename).body;
      var t := cvText.value;
      d.fullText == t && d.textLength == |t| && d.success &&
      d.lineCount == Count(t, '\n') + 1 &&
      d.wordCount == |Words(Py, t)| && Concat(Words(Py, t)) == NonSpace(Py, t) &&
      IsPrefix(d.first200, t) && |d.first200| == Min(200, |t|) &&
      EndsWith(t, d.last200) && |d.last200| == Min(200, |t|) &&
      (filename.None? ==> d.filename == DEFAULT_FILENAME) &&
      (filename.Some? ==> d.filename == filename.value)
  {
    SplitOnFacts(cvText.value, '\n');
    WordsFacts(Py, cvText.value);
    WindowFacts(cvText.value, 200);
  }

  // ------------------------------------------------------------ records

  /** The `debug_info` part of a stored analysis. */
  datatype AnalysisDebug = AnalysisDebug(
    textLength: nat,
    wordCount: nat,
    first100: string,
    parsingSuccessful: bool)

  /** A stored analysis (its placeholder keyword, suggestion and question
      lists are not modelled). */
  datatype Analysis = Analysis(
    id: string,
    sessionId: string,
    filename: string,
    fileSize: Json,
    createdAt: string,
    debugInfo: AnalysisDebug,
    atsScore: int,
    identifiedRole: string)

  datatype Session = Session(id: string, createdAt: string, analyses: seq<string>)

  /** One entry of a session's analysis list. */
  datatype Summary = Summary(
    id: string,
    filename: string,
    atsScore: int,
    identifiedRole: string,
    createdAt: string)

  /** `cv_session_<seconds>_<first 8 characters of the uuid hex>`. */
  function SessionId(seconds: nat, hex: string): string {
    SESSION_ID_LEAD + IntToString(seconds) + "_" + Head(hex, 8)
  }

  /** The analysis record `analyze_cv` builds. */
  function NewAnalysis(id: string, sessionId: string, filename: string, fileSize: Json,
                       createdAt: string, cvText: string): Analysis
  {
    Analysis(id, sessionId, filename, fileSize, createdAt,
      AnalysisDebug(|cvText|, |Words(Py, cvText)|, Preview(cvText), true),
      PLACEHOLDER_ATS_SCORE, PLACEHOLDER_ROLE)
  }

  /** The stored analysis reports the text it was built from: its length,
      its Python word count and its preview, under the id and session it was
      given. */
  lemma NewAnalysisFacts(id: string, sessionId: string, filename: string, fileSize: Json,
                         createdAt: string, cvText: string)
    ensures var a := NewAnalysis(id, sessionId, filename, fileSize, createdAt, cvText);
      a.id == id && a.sessionId == sessionId && a.filename == filename &&
      a.debugInfo.textLength == |cvText| && a.debugInfo.parsingSuccessful &&
      Concat(Words(Py, cvText)) == NonSpace(Py, cvText) && a.debugInfo.wordCount == |Words(Py, cvText)| &&
      IsPrefix(Head(cvText, 100), a.debugInfo.first100) &&
      (|cvText| <= 100 ==> a.debugInfo.first100 == cvText)
  {
    WordsFacts(Py, cvText);
    PreviewFacts(cvText);
  }

  function SummaryOf(a: Analysis): Summary {
    Summary(a.id, a.filename, a.atsScore, a.identifiedRole, a.createdAt)
  }

  // ------------------------------------------------------------ session listing

  /** The ids of `ids` that name a stored analysis, in their order. */
  function KnownIds(ids: seq<string>, analyses: map<string, Analysis>): seq<string>
    decreases |ids|
  {
    if ids == [] then []
    else
      var last := ids[|ids| - 1];
      KnownIds(ids[..|ids| - 1], analyses) + (if last in analyses then [last] else [])
  }

  /** The list `get_session_analyses` builds for the ids `ids`. */
  function SummariesOf(ids: seq<string>, analyses: map<string, Analysis>): seq<Summary>
    decreases |ids|
  {
    if ids == [] then []
    else
      var last := ids[|ids| - 1];
      SummariesOf(ids[..|ids| - 1], analyses) +
        (if last in analyses then [SummaryOf(analyses[last])] else [])
  }

  /** An id is kept exactly when it is listed and stored; nothing is added,
      and nothing is dropped when every listed id is stored. */
  lemma {:induction false} KnownIdsFacts(ids: seq<string>, analyses: map<string, Analysis>)
    ensures forall x :: x in KnownIds(ids, analyses) <==> x in ids && x in analyses
    ensures |KnownIds(ids, analyses)| <= |ids|
    ensures KnownIds(ids, analyses) == ids <==> forall x :: x in ids ==> x in analyses
    decreases |ids|
  {
    if ids != [] {
      var init, last := ids[..|ids| - 1], ids[|ids| - 1];
      assert ids == init + [last];
      KnownIdsFacts(init, analyses);
      if last !in analyses {
        assert last in ids && last !in KnownIds(ids, analyses);
      } else if KnownIds(ids, analyses) != ids {
        assert KnownIds(init, analyses) != init;
        var x :| x in init && x !in analyses;
        assert x in ids;
      }
    }
  }

  /** The summaries are those of the stored analyses the list names, one per
      kept id and in the same order. */
  lemma {:induction false} SummariesFollowKnownIds(ids: seq<string>, analyses: map<string, Analysis>)
    ensures |SummariesOf(ids, analyses)| == |KnownIds(ids, analyses)|
    ensures forall j :: 0 <= j < |KnownIds(ids, analyses)| ==>
      KnownIds(ids, analyses)[j] in analyses &&
      SummariesOf(ids, analyses)[j] == SummaryOf(analyses[KnownIds(ids, analyses)[j]])
    decreases |ids|
  {
    if ids != [] {
      SummariesFollowKnownIds(ids[..|ids| - 1], analyses);
    }
  }

  /** The summaries depend only on the stored records of the listed ids. */
  lemma {:induction false} SummariesFrame(ids: seq<string>, a: map<string, Analysis>, b: map<string, Analysis>)
    requires forall x :: x in ids ==> (x in a <==> x in b) && (x in a ==> a[x] == b[x])
    ensures SummariesOf(ids, a) == SummariesOf(ids, b)
    decreases |ids|
  {
    if ids != [] {
      var init := ids[..|ids| - 1];
      assert forall x :: x in init ==> x in ids;
      SummariesFrame(init, a, b);
    }
  }

  // ------------------------------------------------------------ state changes

  /** `sessions` after `create_session` stores a new session under `id`. */
  function Opened(sessions: map<string, Session>, id: string, createdAt: string): map<string, Session> {
    sessions[id := Session(id, createdAt, [])]
  }

  /** `sessions` after `analyze_cv` has added `analysisId` to the session
      `sessionId`, which it does only when that session exists. */
  function Attached(sessions: map<string, Session>, sessionId: string, analysisId: string): map<string, Session> {
    if sessionId in sessions then
      sessions[sessionId := sessions[sessionId].(analyses := sessions[sessionId].analyses + [analysisId])]
    else sessions
  }

  /** The bookkeeping the handlers keep: each record is stored under its own
      id, and every id a session lists names a stored analysis made for that
      session. */
  predicate Consistent(sessions: map<string, Session>, analyses: map<string, Analysis>) {
    (forall k :: k in analyses ==> analyses[k].id == k) &&
    (forall k :: k in sessions ==> sessions[k].id == k) &&
    (forall k, x :: k in sessions && x in sessions[k].analyses ==> x in analyses && analyses[x].sessionId == k)
  }

  /** Opening a session adds exactly that key with an empty list, leaves the
      other sessions as they were, and keeps the bookkeeping consistent. */
  lemma OpenedFacts(sessions: map<string, Session>, analyses: map<string, Analysis>, id: string, createdAt: string)
    ensures Opened(sessions, id, createdAt).Keys == sessions.Keys + {id}
    ensures Opened(sessions, id, createdAt)[id].analyses == []
    ensures forall k :: k in sessions && k != id ==> Opened(sessions, id, createdAt)[k] == sessions[k]
    ensures Consistent(sessions, analyses) ==> Consistent(Opened(sessions, id, createdAt), analyses)
  {
  }

  /** Attaching an id to an unknown session changes nothing; to a known one
      it appends the id to that session's list only. */
  lemma AttachedFacts(sessions: map<string, Session>, sessionId: string, analysisId: string)
    ensures Attached(sessions, sessionId, analysisId).Keys == sessions.Keys
    ensures sessionId !in sessions ==> Attached(sessions, sessionId, analysisId) == sessions
    ensures sessionId in sessions ==>
      Attached(sessions, sessionId, analysisId)[sessionId] ==
        sessions[sessionId].(analyses := sessions[sessionId].analyses + [analysisId])
    ensures forall k :: k in sessions && k != sessionId ==> Attached(sessions, sessionId, analysisId)[k] == sessions[k]
  {
  }

  /** Storing a new analysis under a fresh id and attaching it to its
      session keeps the bookkeeping consistent. */
  lemma AnalyzeKeepsConsistent(sessions: map<string, Session>, analyses: map<string, Analysis>, a: Analysis)
    requires Consistent(sessions, analyses) && a.id !in analyses
    ensures Consistent(Attached(sessions, a.sessionId, a.id), analyses[a.id := a])
  {
    var s', a' := Attached(sessions, a.sessionId, a.id), analyses[a.id := a];
    forall k, x | k in s' && x in s'[k].analyses
      ensures x in a' && a'[x].sessionId == k
    {
      if k == a.sessionId && x !in sessions[k].analyses {
        assert x == a.id;
      }
    }
  }

  /** In consistent bookkeeping no listed id is dangling, so a session's
      listing has one summary per id it lists, each for that session. */
  lemma ConsistentListsEverything(sessions: map<string, Session>, analyses: map<string, Analysis>, sessionId: string)
    requires Consistent(sessions, analyses) && sessionId in sessions
    ensures KnownIds(sessions[sessionId].analyses, analyses) == sessions[sessionId].analyses
    ensures |SummariesOf(sessions[sessionId].analyses, analyses)| == |sessions[sessionId].analyses|
    ensures forall j :: 0 <= j < |sessions[sessionId].analyses| ==>
      SummariesOf(sessions[sessionId].analyses, analyses)[j].id == sessions[sessionId].analyses[j]
  {
    var ids := sessions[sessionId].analyses;
    KnownIdsFacts(ids, analyses);
    SummariesFollowKnownIds(ids, analyses);
  }

  /** After a new analysis for a known session, that session's listing is
      the old listing followed by the new analysis' summary. */
  lemma NewAnalysisListedLast(sessions: map<string, Session>, analyses: map<string, Analysis>, a: Analysis)
    requires Consistent(sessions, analyses) && a.id !in analyses && a.sessionId in sessions
    ensures SummariesOf(Attached(sessions, a.sessionId, a.id)[a.sessionId].analyses, analyses[a.id := a]) ==
      SummariesOf(sessions[a.sessionId].analyses, analyses) + [SummaryOf(a)]
  {
    var ids := sessions[a.sessionId].analyses;
    var ids' := ids + [a.id];
    assert Attached(sessions, a.sessionId, a.id)[a.sessionId].analyses == ids';
    assert ids'[..|ids'| - 1] == ids;
    SummariesFrame(ids, analyses, analyses[a.id := a]);
  }

  // ------------------------------------------------------------ chat

  const CHAT_CONTEXT_LEAD := "I can see you've uploaded "
  const CHAT_CONTEXT_SCORE := " with an ATS score of "
  const CHAT_CONTEXT_TAIL := "%. What specific aspect would you like " + "me to help you with? I can provide " +
    "detailed feedback on keywords, " + "suggestions for improvement, " +
    "or generate interview questions " + "based on your experience."
  const CHAT_GENERAL := "I'd be happy to help you with your " + "CV analysis! To get started, please " +
    "upload your CV file and I'll provide " + "detailed ATS scoring, keyword " +
    "optimization, and personalized " + "improvement suggestions."

  /** The reply that refers to a stored analysis by file name and score. */
  function ContextMessage(a: Analysis): string {
    CHAT_CONTEXT_LEAD + a.filename + CHAT_CONTEXT_SCORE + IntToString(a.atsScore) + CHAT_CONTEXT_TAIL
  }

  datatype ChatReply = ChatReply(message: string, timestamp: string, hasActions: bool)

  /** The contextual reply names the file right after its opening words, and
      the two replies already differ in their second character, so a reader
      can tell whether the analysis was found. */
  lemma ChatRepliesDiffer(a: Analysis)
    ensures IsPrefix(CHAT_CONTEXT_LEAD + a.filename, ContextMessage(a))
    ensures ContextMessage(a)[1] == ' ' && CHAT_GENERAL[1] == '\''
    ensures ContextMessage(a) != CHAT_GENERAL
  {
    var m := ContextMessage(a);
    var lead := CHAT_CONTEXT_LEAD + a.filename;
    assert m == lead + (CHAT_CONTEXT_SCORE + IntToString(a.atsScore) + CHAT_CONTEXT_TAIL);
    assert m[..|lead|] == lead;
    assert lead[1] == CHAT_CONTEXT_LEAD[1] == ' ';
    assert m[1] == ' ';
    assert CHAT_GENERAL[1] == '\'';
  }

  // ------------------------------------------------------------ the server

  /** The module-level `sessions` and `analyses` dictionaries and the
      handlers that use them. */
  class CvBackend {
    var sessions: map<string, Session>
    var analyses: map<string, Analysis>

    constructor()
      ensures sessions == map[] && analyses == map[]
      ensures Consistent(sessions, analyses)
    {
      sessions := map[];
      analyses := map[];
    }

    /** `create_session`, given the clock's whole seconds, the uuid's hex
        digits and the creation time stamp. */
    method CreateSession(seconds: nat, hex: string, createdAt: string) returns (sessionId: string)
      modifies this`sessions
      ensures sessionId == SessionId(seconds, hex) && IsPrefix(SESSION_ID_LEAD, sessionId)
      ensures sessions == Opened(old(sessions), sessionId, createdAt)
      ensures old(Consistent(sessions, analyses)) ==> Consistent(sessions, analyses)
    {
      sessionId := SESSION_ID_LEAD + IntToString(seconds) + "_" + Head(hex, 8);
      sessions := sessions[sessionId := Session(sessionId, createdAt, [])];
      OpenedFacts(old(sessions), analyses, sessionId, createdAt);
    }

    /** `analyze_cv`, given the new analysis id and time stamp: a 400 when
        the session id, the text or the file name is missing or empty;
        otherwise the analysis is stored, and attached to its session when
        that session exists. */
    method AnalyzeCv(sessionId: Option<string>, cvText: Option<string>, filename: Option<string>,
                     fileSize: Json, analysisId: string, createdAt: string) returns (r: Reply<Analysis>)
      modifies this
      ensures !(Given(sessionId) && Given(cvText) && Given(filename)) ==>
        r == HttpError(400, MISSING_FIELDS) && sessions == old(sessions) && analyses == old(analyses)
      ensures Given(sessionId) && Given(cvText) && Given(filename) ==>
        r == Ok(NewAnalysis(analysisId, sessionId.value, filename.value, fileSize, createdAt, cvText.value)) &&
        analyses == old(analyses)[analysisId := r.body] &&
        sessions == Attached(old(sessions), sessionId.value, analysisId)
      ensures old(Consistent(sessions, analyses)) && analysisId !in old(analyses) ==> Consistent(sessions, analyses)
    {
      if !(Given(sessionId) && Given(cvText) && Given(filename)) {
        return HttpError(400, MISSING_FIELDS);
      }
      var analysis := NewAnalysis(analysisId, sessionId.value, filename.value, fileSize, createdAt, cvText.value);
      analyses := analyses[analysisId := analysis];
      if sessionId.value in sessions {
        var session := sessions[sessionId.value];
        sessions := sessions[sessionId.value := session.(analyses := session.analyses + [analysisId])];
      }
      if Consistent(old(sessions), old(analyses)) && analysisId !in old(analyses) {
        AnalyzeKeepsConsistent(old(sessions), old(analyses), analysis);
      }
      r := Ok(analysis);
    }

    /** `get_analysis`: the stored record, or a 404. */
    method GetAnalysis(analysisId: string) returns (r: Reply<Analysis>)
      ensures r.Ok? <==> analysisId in analyses
      ensures r.Ok? ==> r.body == analyses[analysisId]
      ensures r.HttpError? ==> r.status == 404 && r.error == ANALYSIS_NOT_FOUND
      ensures r.Ok? && Consistent(sessions, analyses) ==> r.body.id == analysisId
    {
      if analysisId !in analyses {
        return HttpError(404, ANALYSIS_NOT_FOUND);
      }
      r := Ok(analyses[analysisId]);
    }

    /** `get_session_analyses`: a 404 for an unknown session; otherwise one
        summary per listed id that names a stored analysis, in list order. */
    method GetSessionAnalyses(sessionId: string) returns (r: Reply<seq<Summary>>)
      ensures r.Ok? <==> sessionId in sessions
      ensures r.HttpError? ==> r.status == 404 && r.error == SESSION_NOT_FOUND
      ensures r.Ok? ==> r.body == SummariesOf(sessions[sessionId].analyses, analyses)
    {
      if sessionId !in sessions {
        return HttpError(404, SESSION_NOT_FOUND);
      }
      var ids := sessions[sessionId].analyses;
      var found: seq<Summary> := [];
      var i := 0;
      while i < |ids|
        invariant 0 <= i <= |ids|
        invariant found == SummariesOf(ids[..i], analyses)
      {
        var id := ids[i];
        if id in analyses {
          found := found + [SummaryOf(analyses[id])];
        }
        assert ids[..i + 1][..i] == ids[..i];
        i := i + 1;
      }
      assert ids[..|ids|] == ids;
      r := Ok(found);
    }

    /** `chat`, given the reply's time stamp: a 400 when the session id or
        the message is missing or empty; otherwise the contextual reply with
        actions when the analysis id is given and stored, and the general
        reply without actions when it is not. The session itself is never
        looked up. */
    method Chat(sessionId: Option<string>, message: Option<string>, analysisId: Option<string>,
                timestamp: string) returns (r: Reply<ChatReply>)
      ensures r.HttpError? <==> !(Given(sessionId) && Given(message))
      ensures r.HttpError? ==> r.status == 400 && r.error == MISSING_FIELDS
      ensures r.Ok? ==> r.body.timestamp == timestamp
      ensures r.Ok? ==> (r.body.hasActions <==> Given(analysisId) && analysisId.value in analyses)
      ensures r.Ok? && r.body.hasActions ==> r.body.message == ContextMessage(analyses[analysisId.value])
      ensures r.Ok? && !r.body.hasActions ==> r.body.message == CHAT_GENERAL
    {
      if !(Given(sessionId) && Given(message)) {
        return HttpError(400, MISSING_FIELDS);
      }
      if Given(analysisId) && analysisId.value in analyses {
        var analysis := analyses[analysisId.value];
        r := Ok(ChatReply(ContextMessage(analysis), timestamp, true));
      } else {
        r := Ok(ChatReply(CHAT_GENERAL, timestamp, false));
      }
    }
  }
}
