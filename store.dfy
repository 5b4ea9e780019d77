/** The client-side state store: the uploaded file, the analysis results, the
    chat messages and the CV data shown by the panels, replaced field by field
    by the store's actions. */
module Store {
  import opened Values
  import opened DocumentParser

  /** The `cvData` object of a fresh store. */
  function InitialCvData(): JsObject {
    map[
      "fileName" := JStr(""),
      "fileSize" := JNum(0),
      "extractedText" := JStr(""),
      "identifiedRole" := JStr(""),
      "keywords" := JArr([]),
      "atsScore" := JNum(0),
      "suggestions" := JArr([]),
      "interviewQuestions" := JArr([])
    ]
  }

  /** `{ id, timestamp, ...message }`: the generated id and timestamp come
      first, so a key of the caller's message overrides them. */
  function Stamped(message: JsObject, id: int, timestamp: int): (m: JsObject)
    ensures m.Keys == message.Keys + {"id", "timestamp"}
    ensures forall k :: k in message ==> m[k] == message[k]
    ensures "id" !in message ==> m["id"] == JNum(id)
    ensures "timestamp" !in message ==> m["timestamp"] == JDate(timestamp)
  {
    map["id" := JNum(id), "timestamp" := JDate(timestamp)] + message
  }

  /** `{ ...cvData, ...results }`; spreading `null` adds nothing. */
  function Merge(cvData: JsObject, results: Option<JsObject>): (m: JsObject)
    ensures results.None? ==> m == cvData
    ensures results.Some? ==> m.Keys == cvData.Keys + results.value.Keys
    ensures results.Some? ==> forall k :: k in results.value ==> m[k] == results.value[k]
    ensures forall k :: k in cvData && (results.None? || k !in results.value) ==> m[k] == cvData[k]
  {
    match results
    case None => cvData
    case Some(r) => cvData + r
  }

  /** Merging the same results twice is merging them once, and merging
      never loses a key of either side. */
  lemma MergeFacts(cvData: JsObject, results: Option<JsObject>)
    ensures Merge(Merge(cvData, results), results) == Merge(cvData, results)
    ensures cvData.Keys <= Merge(cvData, results).Keys
    ensures results.Some? ==> results.value.Keys <= Merge(cvData, results).Keys
  {
  }

  /** A snapshot of every field of the store. */
  datatype StoreState = StoreState(
    uploadedCV: Option<UploadedFile>,
    analysisResults: Option<JsObject>,
    isAnalyzing: bool,
    currentPhase: string,
    messages: seq<JsObject>,
    isTyping: bool,
    cvData: JsObject)

  /** The state a fresh store starts in. */
  function InitialState(): StoreState {
    StoreState(None, None, false, "upload", [], false, InitialCvData())
  }

  /** What `resetAnalysis` leaves: every field back to its initial value
      except `isTyping`, which it does not mention. */
  function Reset(s: StoreState): StoreState {
    s.(uploadedCV := None, analysisResults := None, isAnalyzing := false,
       currentPhase := "upload", messages := [], cvData := InitialCvData())
  }

  /** Resetting yields the initial state up to `isTyping`, keeps `isTyping`,
      and a second reset changes nothing. */
  lemma ResetFacts(s: StoreState)
    ensures Reset(s) == InitialState().(isTyping := s.isTyping)
    ensures Reset(s).isTyping == s.isTyping
    ensures Reset(Reset(s)) == Reset(s)
    ensures Reset(InitialState()) == InitialState()
  {
  }

  class CvStore {
    var uploadedCV: Option<UploadedFile>
    var analysisResults: Option<JsObject>
    var isAnalyzing: bool
    var currentPhase: string
    var messages: seq<JsObject>
    var isTyping: bool
    var cvData: JsObject

    function State(): StoreState
      reads this
    {
      StoreState(uploadedCV, analysisResults, isAnalyzing, currentPhase, messages, isTyping, cvData)
    }

    /** A fresh store: phase "upload", no file, no results, no messages, not
        analysing, not typing, zeroed CV data. */
    constructor()
      ensures State() == InitialState()
    {
      uploadedCV := None;
      analysisResults := None;
      isAnalyzing := false;
      currentPhase := "upload";
      messages := [];
      isTyping := false;
      cvData := InitialCvData();
    }

    method SetUploadedCV(file: Option<UploadedFile>)
      modifies this`uploadedCV
      ensures State() == old(State()).(uploadedCV := file)
    {
      uploadedCV := file;
    }

    method SetCurrentPhase(phase: string)
      modifies this`currentPhase
      ensures State() == old(State()).(currentPhase := phase)
    {
      currentPhase := phase;
    }

    /** Stores the results and merges them into `cvData`: keys of the results
        win, every other key keeps its value. */
    method SetAnalysisResults(results: Option<JsObject>)
      modifies this`analysisResults, this`cvData
      ensures State() == old(State()).(analysisResults := results, cvData := Merge(old(cvData), results))
    {
      analysisResults := results;
      cvData := Merge(cvData, results);
    }

    method SetIsAnalyzing(analyzing: bool)
      modifies this`isAnalyzing
      ensures State() == old(State()).(isAnalyzing := analyzing)
    {
      isAnalyzing := analyzing;
    }

    /** Appends exactly one message, stamped with two clock readings:
        `id` from `Date.now()` and `timestamp` from `new Date()`. */
    method AddMessage(message: JsObject, id: int, timestamp: int)
      modifies this`messages
      ensures State() == old(State()).(messages := old(messages) + [Stamped(message, id, timestamp)])
    {
      messages := messages + [Stamped(message, id, timestamp)];
    }

    method SetIsTyping(typing: bool)
      modifies this`isTyping
      ensures State() == old(State()).(isTyping := typing)
    {
      isTyping := typing;
    }

    method ClearMessages()
      modifies this`messages
      ensures State() == old(State()).(messages := [])
    {
      messages := [];
    }

    method ResetAnalysis()
      modifies this`uploadedCV, this`analysisResults, this`isAnalyzing, this`currentPhase, this`messages, this`cvData
      ensures State() == Reset(old(State()))
    {
      uploadedCV := None;
      analysisResults := None;
      isAnalyzing := false;
      currentPhase := "upload";
      messages := [];
      cvData := InitialCvData();
    }
  }
}
