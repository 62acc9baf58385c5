/** The assistant intake component: a chat whose handlers send the conversation
    to the model service, extract a certificate request from it once it is long
    enough, analyse that request and submit it to the request store. Each
    handler is a pure transition from the component state to the next state,
    together with the service calls it made, in order. */
module Assistant {
  import opened Wrappers
  import opened Json
  import Text
  import Venice
  import RequestStore

  datatype Sender = FromUser | FromAssistant

  /** A message as displayed in the chat. */
  datatype Message = Message(sender: Sender, text: string)

  /** The component state. `conversation` is what is sent to the model;
      `analysisResult` is whatever the analysis returned, `Null` when cleared;
      `renderFailed` records that a queued state update threw, so the next
      render of the component fails. */
  datatype State = State(
    messages: seq<Message>,
    conversation: seq<Venice.ChatMessage>,
    input: string,
    certificateInfo: Option<map<string, Value>>,
    analysisResult: Value,
    renderFailed: bool)

  /** The outside calls a handler makes. */
  datatype Call =
    | ChatCall(messages: seq<Venice.ChatMessage>)
    | ExtractCall(conversation: seq<Venice.ChatMessage>)
    | SkillsCall(degree: Value, major: Value)
    | AnalyzeCall(info: map<string, Value>)
    | PostCall(body: map<string, Value>)

  const Greeting := "Hello! I'm your SoulCertify assistant. I can help you request a certificate for your academic achievements. To get started, could you please tell me your full name and the university or institution you attended?"
  const ChatTrouble := "I'm sorry, I'm having trouble connecting to the AI service. Would you like to continue with the manual form instead?"
  const AnalyzeTrouble := "I'm sorry, there was an error analyzing your certificate information. Would you like to submit it anyway or make changes?"
  const SubmitDone := "Great news! Your certificate request has been submitted to the administrator. You'll receive a notification when your certificate is ready for approval. Is there anything else I can help you with?"
  const SubmitTrouble := "I'm sorry, there was an error submitting your certificate request. Please try again later or use the manual form."
  const SkillsIntro := ", I've suggested some common skills graduates might have. Please review these skills and let me know if you'd like to keep them or make changes:\n\n"
  const SubmitPromptText := "\n\nYour certificate request looks good! Would you like to submit it now?"
  const ReviewPromptText := "\n\nYou might want to review the information before submitting. Would you like to make changes?"

  /** Conversations of at least this many entries, greeting included, are mined for a request. */
  const ExtractionThreshold := 4

  const Initial := State([], [], "", None, Null, false)

  function AssistantSays(st: State, text: string): State {
    st.(messages := st.messages + [Message(FromAssistant, text)],
        conversation := st.conversation + [Venice.ChatMessage(Venice.Assistant, text)])
  }

  function ShowOnly(st: State, text: string): State {
    st.(messages := st.messages + [Message(FromAssistant, text)])
  }

  /** The greeting effect: once a wallet is connected and the chat is empty,
      the greeting becomes the first message of both lists. */
  function Greet(st: State, address: string): (r: State)
    ensures |st.messages| == 0 && address != "" ==>
              r.messages == [Message(FromAssistant, Greeting)]
              && r.conversation == [Venice.ChatMessage(Venice.Assistant, Greeting)]
    ensures |st.messages| > 0 || address == "" ==> r == st
    ensures && r.input == st.input && r.certificateInfo == st.certificateInfo
            && r.analysisResult == st.analysisResult && r.renderFailed == st.renderFailed
  {
    if |st.messages| == 0 && address != "" then
      st.(messages := [Message(FromAssistant, Greeting)],
          conversation := [Venice.ChatMessage(Venice.Assistant, Greeting)])
    else st
  }

  function SetInput(st: State, text: string): State {
    st.(input := text)
  }

  /** The five fields whose truthiness lets an extracted request through. */
  predicate Complete(info: Value) {
    && Truthy(Get(info, "studentName"))
    && Truthy(Get(info, "universityName"))
    && Truthy(Get(info, "degree"))
    && Truthy(Get(info, "major"))
    && Truthy(Get(info, "yearOfGraduation"))
  }

  /** `v.length === 0` for the values JSON can hold. */
  predicate LengthIsZero(v: Value) {
    match v
    case Arr(es) => |es| == 0
    case Str(s) => |s| == 0
    case Obj(m) => "length" in m && m["length"] == Num(0)
    case _ => false
  }

  /** `!skills || skills.length === 0`. */
  predicate SkillsMissing(skills: Value) {
    !Truthy(skills) || LengthIsZero(skills)
  }

  function SkillsText(degree: Value, major: Value, skills: seq<Value>): string {
    "Based on your " + ToJsString(degree) + " in " + ToJsString(major)
    + SkillsIntro + JoinValues(skills, ", ")
  }

  /** What the extraction step contributes: an assistant message suggesting
      skills, the request to hold, the calls made, and whether one of the
      queued message updates throws when the component next renders. */
  datatype Extracted = Extracted(said: Option<string>, info: Option<map<string, Value>>, calls: seq<Call>,
                                 renderThrows: bool)

  /** The extraction step of `handleSendMessage`, given what extraction
      returned or threw and the skills the recommendation call would return.
      A request is held exactly when extraction returned a value whose five
      required fields are truthy; it carries the connected address and keeps
      the extracted fields. When its skills were missing or empty they are
      replaced by the recommendation, and a suggestion is queued for both lists.
      That suggestion joins the recommendation inside the state updaters, which
      run at the next render: a recommendation that is not an array makes them
      throw there, after the request has been stored. */
  function Hold(extracted: Venice.Outcome<Value>, address: string, recommended: Value): (r: Extracted)
    ensures r.info.Some? <==> extracted.Returned? && Complete(extracted.value)
    ensures r.info.None? ==> r.said.None? && !r.renderThrows && r.calls == []
    ensures r.info.Some? ==>
              var info := r.info.value;
              var skills := Get(extracted.value, "skills");
              && InfoReady(info)
              && info["studentAddress"] == Str(address)
              && (forall k :: k in Fields(extracted.value) && k != "studentAddress" && k != "skills" ==>
                    k in info && info[k] == Fields(extracted.value)[k])
              && info.Keys == Fields(extracted.value).Keys + {"skills", "studentAddress"}
              && (SkillsMissing(skills) ==> info["skills"] == recommended)
              && (!SkillsMissing(skills) ==> info["skills"] == skills)
              && (r.said.Some? <==> SkillsMissing(skills) && recommended.Arr?)
              && (r.said.Some? ==>
                    && recommended.Arr?
                    && r.said.value == SkillsText(Get(extracted.value, "degree"), Get(extracted.value, "major"),
                                                  recommended.elems))
              && (r.renderThrows <==> SkillsMissing(skills) && !recommended.Arr?)
              && r.calls == (if SkillsMissing(skills)
                             then [SkillsCall(Get(extracted.value, "degree"), Get(extracted.value, "major"))]
                             else [])
  {
    match extracted
    case Raised(_) => Extracted(None, None, [], false)
    case Returned(info) =>
      if !Complete(info) then Extracted(None, None, [], false)
      else if !SkillsMissing(Get(info, "skills")) then
        var held := Fields(info)["studentAddress" := Str(address)];
        assert held["skills"] == Get(info, "skills");
        Extracted(None, Some(held), [], false)
      else
        var degree := Get(info, "degree");
        var major := Get(info, "major");
        var held := Fields(info)["skills" := recommended]["studentAddress" := Str(address)];
        assert held["skills"] == recommended;
        match recommended
        case Arr(es) => Extracted(Some(SkillsText(degree, major, es)), Some(held), [SkillsCall(degree, major)], false)
        case _ => Extracted(None, Some(held), [SkillsCall(degree, major)], true)
  }

  /** The extraction step with the replies of the extraction and skills calls. */
  function ExtractStep(address: string, extract: Venice.Completion, skills: Venice.Completion,
                       parse: string -> Option<Value>): Extracted
  {
    Hold(Venice.ExtractInfo(extract, parse), address, Venice.Skills(skills, parse))
  }

  /** Applies the extraction step's contribution to the state. */
  function Absorb(st: State, x: Extracted): (r: State)
    ensures |r.messages| - |st.messages| == |r.conversation| - |st.conversation| == (if x.said.Some? then 1 else 0)
    ensures r.messages[..|st.messages|] == st.messages
    ensures r.conversation[..|st.conversation|] == st.conversation
    ensures x.said.Some? ==> && r.messages == st.messages + [Message(FromAssistant, x.said.value)]
                             && r.conversation == st.conversation + [Venice.ChatMessage(Venice.Assistant, x.said.value)]
    ensures r.input == st.input && r.analysisResult == st.analysisResult
    ensures r.renderFailed <==> st.renderFailed || x.renderThrows
    ensures r.certificateInfo == (if x.info.Some? then x.info else st.certificateInfo)
  {
    var st' := if x.said.Some? then AssistantSays(st, x.said.value) else st;
    var st'' := if x.renderThrows then st'.(renderFailed := true) else st';
    if x.info.Some? then st''.(certificateInfo := x.info) else st''
  }

  /** `handleSendMessage`. `chat`, `extract` and `skills` are the replies of the
      three completion calls it may make; `parse` is `JSON.parse`. */
  function Send(st: State, address: string, chat: Venice.Completion, extract: Venice.Completion,
                skills: Venice.Completion, parse: string -> Option<Value>): (r: (State, seq<Call>))
  {
    if Text.Trim(st.input) == "" then (st, [])
    else
      var sent := st.conversation + [Venice.ChatMessage(Venice.User, st.input)];
      var st1 := st.(messages := st.messages + [Message(FromUser, st.input)], conversation := sent, input := "");
      var chatCall := ChatCall(Venice.ChatRequest(sent, address));
      match Venice.ChatReply(chat)
      case Raised(_) => (ShowOnly(st1, ChatTrouble), [chatCall])
      case Returned(answer) =>
        var st2 := AssistantSays(st1, answer);
        if |sent| < ExtractionThreshold then (st2, [chatCall])
        else
          var x := ExtractStep(address, extract, skills, parse);
          (Absorb(st2, x), [chatCall, ExtractCall(sent)] + x.calls)
  }

  /** The fields of an analysis result that the component reads. */
  datatype Analysis = Analysis(
    score: Value,
    missingFields: seq<Value>,
    issues: seq<Value>,
    concerns: seq<Value>,
    overall: Value,
    approvalRecommended: bool)

  /** `len > 0` for the `length` property of a JSON object, when that
      property is absent, `null`, a boolean or a number. */
  predicate PositiveLength(len: Value) {
    match len
    case Bool(b) => b
    case Num(n) => n > 0
    case _ => false
  }

  /** `x.length > 0 ? x.join(", ") : skip` for the list `x = v.section.key`:
      None where it throws, otherwise the items shown (none when skipped).
      Reading `length` of `undefined` or `null` throws; an array shows its
      elements; a non-empty string or an object of positive `length` passes
      the test but has no `join`; any other value has no positive `length`. */
  function ReadList(v: Value, section: string, key: string): (r: Option<seq<Value>>)
    ensures Get(Get(v, section), key).Arr? ==> r == Some(Get(Get(v, section), key).elems)
    ensures r.None? <==> match Get(Get(v, section), key)
                         case Undefined => true
                         case Null => true
                         case Str(s) => |s| > 0
                         case Obj(_) => PositiveLength(Get(Get(Get(v, section), key), "length"))
                         case _ => false
    ensures r.Some? && !Get(Get(v, section), key).Arr? ==> r == Some([])
  {
    var x := Get(Get(v, section), key);
    match x
    case Undefined => None
    case Null => None
    case Arr(es) => Some(es)
    case Str(s) => if |s| > 0 then None else Some([])
    case Obj(_) => if PositiveLength(Get(x, "length")) then None else Some([])
    case _ => Some([])
  }

  /** The analysis as the component reads it, or None when reading throws. */
  function ReadAnalysis(v: Value): Option<Analysis> {
    match (ReadList(v, "completeness", "missing_fields"), ReadList(v, "consistency", "issues"), ReadList(v, "validity", "concerns"))
    case (Some(missing), Some(issues), Some(concerns)) =>
      Some(Analysis(Get(v, "verification_score"), missing, issues, concerns,
                    Get(v, "overall_assessment"), Truthy(Get(v, "approval_recommended"))))
    case _ => None
  }

  /** The parts of the analysis message, in order. */
  datatype Segment =
    | ScoreLine(score: Value)
    | MissingLine(items: seq<Value>)
    | IssuesLine(items: seq<Value>)
    | ConcernsLine(items: seq<Value>)
    | AssessmentLine(text: Value)
    | SubmitPrompt
    | ReviewPrompt

  function Segments(a: Analysis): seq<Segment> {
    [ScoreLine(a.score)]
    + (if |a.missingFields| > 0 then [MissingLine(a.missingFields)] else [])
    + (if |a.issues| > 0 then [IssuesLine(a.issues)] else [])
    + (if |a.concerns| > 0 then [ConcernsLine(a.concerns)] else [])
    + [AssessmentLine(a.overall)]
    + [if a.approvalRecommended then SubmitPrompt else ReviewPrompt]
  }

  function SegmentText(seg: Segment): string {
    match seg
    case ScoreLine(score) =>
      "I've analyzed your certificate information:\n\n" + "Overall Score: " + ToJsString(score) + "/100\n"
    case MissingLine(items) => "\nMissing information: " + JoinValues(items, ", ") + "\n"
    case IssuesLine(items) => "\nPossible issues: " + JoinValues(items, ", ") + "\n"
    case ConcernsLine(items) => "\nConcerns: " + JoinValues(items, ", ") + "\n"
    case AssessmentLine(text) => "\n" + ToJsString(text)
    case SubmitPrompt => SubmitPromptText
    case ReviewPrompt => ReviewPromptText
  }

  function Render(segs: seq<Segment>): string {
    if |segs| == 0 then "" else Render(segs[..|segs| - 1]) + SegmentText(segs[|segs| - 1])
  }

  function AnalysisMessage(a: Analysis): string {
    Render(Segments(a))
  }

  /** Each optional line of the analysis message appears exactly when its list
      is non-empty. */
  lemma AnalysisSegmentsShape(a: Analysis)
    ensures MissingLine(a.missingFields) in Segments(a) <==> |a.missingFields| > 0
    ensures IssuesLine(a.issues) in Segments(a) <==> |a.issues| > 0
    ensures ConcernsLine(a.concerns) in Segments(a) <==> |a.concerns| > 0
  {
  }

  /** The message opens with the score, its last line before the prompt is the
      overall assessment, and it closes with exactly one of the two prompts: the
      submit prompt iff approval is recommended. */
  lemma AnalysisSegmentsFrame(a: Analysis)
    ensures Segments(a)[0] == ScoreLine(a.score)
    ensures Segments(a)[|Segments(a)| - 2] == AssessmentLine(a.overall)
    ensures Segments(a)[|Segments(a)| - 1] == (if a.approvalRecommended then SubmitPrompt else ReviewPrompt)
    ensures forall i :: 0 <= i < |Segments(a)| - 1 ==> !Segments(a)[i].SubmitPrompt? && !Segments(a)[i].ReviewPrompt?
  {
  }

  /** The rendered message ends with the invitation to submit iff the analysis
      recommends approval. */
  lemma AnalysisMessageEnding(a: Analysis)
    ensures Text.EndsWith(AnalysisMessage(a), SubmitPromptText) <==> a.approvalRecommended
  {
    var segs := Segments(a);
    AnalysisSegmentsFrame(a);
    var head := Render(segs[..|segs| - 1]);
    var last := SegmentText(segs[|segs| - 1]);
    assert AnalysisMessage(a) == head + last;
    EndsWithAppend(head, last, SubmitPromptText);
    if !a.approvalRecommended {
      var n := |SubmitPromptText|;
      assert ReviewPromptText[|ReviewPromptText| - 2] == 's';
      assert SubmitPromptText[n - 2] == 'w';
      assert ReviewPromptText[|ReviewPromptText| - n..][n - 2] == ReviewPromptText[|ReviewPromptText| - 2];
    }
  }

  /** Whether `x + y` ends with a suffix no longer than `y` depends on `y` alone. */
  lemma EndsWithAppend(x: string, y: string, suffix: string)
    requires |suffix| <= |y|
    ensures Text.EndsWith(x + y, suffix) <==> Text.EndsWith(y, suffix)
  {
    assert (x + y)[|x + y| - |suffix|..] == y[|y| - |suffix|..];
  }

  /** The analysis returned and the component can read it. */
  predicate Readable(analysis: Venice.Outcome<Value>) {
    analysis.Returned? && ReadAnalysis(analysis.value).Some?
  }

  /** `handleAnalyzeCertificate`. The raw result is stored before the message is
      composed, so a result whose lists cannot be read is kept while the error
      message is shown. */
  function AnalyzeInfo(st: State, reply: Venice.Completion, parse: string -> Option<Value>): (r: (State, seq<Call>))
    ensures r.0.certificateInfo == st.certificateInfo
    ensures r.0.input == st.input && r.0.renderFailed == st.renderFailed
    ensures st.certificateInfo.None? ==> r == (st, [])
    ensures st.certificateInfo.Some? ==> r.1 == [AnalyzeCall(st.certificateInfo.value)]
    ensures st.certificateInfo.Some? && Venice.Analyze(reply, parse).Returned? ==>
              r.0.analysisResult == Venice.Analyze(reply, parse).value
    ensures !(st.certificateInfo.Some? && Venice.Analyze(reply, parse).Returned?) ==>
              r.0.analysisResult == st.analysisResult
    ensures st.certificateInfo.Some? && Readable(Venice.Analyze(reply, parse)) ==>
              var text := AnalysisMessage(ReadAnalysis(Venice.Analyze(reply, parse).value).value);
              && r.0.messages == st.messages + [Message(FromAssistant, text)]
              && r.0.conversation == st.conversation + [Venice.ChatMessage(Venice.Assistant, text)]
    ensures st.certificateInfo.Some? && !Readable(Venice.Analyze(reply, parse)) ==>
              && r.0.messages == st.messages + [Message(FromAssistant, AnalyzeTrouble)]
              && r.0.conversation == st.conversation
  {
    match st.certificateInfo
    case None => (st, [])
    case Some(info) =>
      match Venice.Analyze(reply, parse)
      case Raised(_) => (ShowOnly(st, AnalyzeTrouble), [AnalyzeCall(info)])
      case Returned(v) =>
        var st1 := st.(analysisResult := v);
        match ReadAnalysis(v)
        case None => (ShowOnly(st1, AnalyzeTrouble), [AnalyzeCall(info)])
        case Some(a) => (AssistantSays(st1, AnalysisMessage(a)), [AnalyzeCall(info)])
  }

  /** The body posted by the submit handler: the request plus `aiGenerated: true`. */
  function SubmissionBody(info: map<string, Value>): map<string, Value> {
    info["aiGenerated" := Bool(true)]
  }

  /** `handleSubmitCertificateRequest`; `postOk` is whether the POST succeeded. */
  function SubmitInfo(st: State, postOk: bool): (r: (State, seq<Call>))
    ensures r.0.certificateInfo == st.certificateInfo || r.0.certificateInfo.None?
  {
    match st.certificateInfo
    case None => (st, [])
    case Some(info) =>
      if postOk then
        (AssistantSays(st, SubmitDone).(certificateInfo := None, analysisResult := Null), [PostCall(SubmissionBody(info))])
      else
        (ShowOnly(st, SubmitTrouble), [PostCall(SubmissionBody(info))])
  }

  /** The "Edit Information" button beside "Analyze Certificate": drops the
      request only. */
  function CancelInfo(st: State): State {
    st.(certificateInfo := None)
  }

  /** The "Edit Information" button beside "Submit Request", and the "Edit"
      button of the request panel: drop the request and its analysis. */
  function ClearInfo(st: State): State {
    st.(certificateInfo := None, analysisResult := Null)
  }

  /** The chat offers "Analyze" under the last assistant message while a request
      waits for analysis, and "Submit" once it has one. */
  predicate OffersAnalyze(st: State) {
    st.certificateInfo.Some? && !Truthy(st.analysisResult)
    && |st.messages| > 0 && st.messages[|st.messages| - 1].sender == FromAssistant
  }

  predicate OffersSubmit(st: State) {
    st.certificateInfo.Some? && Truthy(st.analysisResult)
    && |st.messages| > 0 && st.messages[|st.messages| - 1].sender == FromAssistant
  }

  /** Analyze and Submit are never offered together. */
  lemma OffersExclusive(st: State)
    ensures !(OffersAnalyze(st) && OffersSubmit(st))
  {
  }

  // ---------------------------------------------------------------------------
  // Properties of the handlers

  /** After an analysis the component can read, the chat ends with the analysis
      message, offers "Submit Request" rather than "Analyze", and that message
      invites submission iff the analysis recommends approval. After any other
      outcome the last message is the trouble notice. */
  lemma AnalyzeOutcome(st: State, reply: Venice.Completion, parse: string -> Option<Value>)
    requires st.certificateInfo.Some?
    ensures var st' := AnalyzeInfo(st, reply, parse).0;
            var last := st'.messages[|st'.messages| - 1];
            && last.sender == FromAssistant
            && (Readable(Venice.Analyze(reply, parse)) ==>
                  && OffersSubmit(st') && !OffersAnalyze(st')
                  && (Text.EndsWith(last.text, SubmitPromptText)
                      <==> ReadAnalysis(Venice.Analyze(reply, parse).value).value.approvalRecommended))
            && (!Readable(Venice.Analyze(reply, parse)) ==> last.text == AnalyzeTrouble)
  {
    var st' := AnalyzeInfo(st, reply, parse).0;
    if Readable(Venice.Analyze(reply, parse)) {
      var v := Venice.Analyze(reply, parse).value;
      AnalysisMessageEnding(ReadAnalysis(v).value);
      assert v.Obj? by {
        assert ReadList(v, "completeness", "missing_fields").Some?;
      }
    }
  }

  /** A send does nothing at all exactly when the input is empty or only
      whitespace; otherwise it clears the input and first calls the chat with
      the conversation extended by the user's turn. */
  lemma BlankInputIgnored(st: State, address: string, chat: Venice.Completion, extract: Venice.Completion,
                          skills: Venice.Completion, parse: string -> Option<Value>)
    ensures Text.WhitespaceBetween(st.input, 0, |st.input|) <==> Send(st, address, chat, extract, skills, parse) == (st, [])
    ensures !Text.WhitespaceBetween(st.input, 0, |st.input|) ==>
              var (st', calls) := Send(st, address, chat, extract, skills, parse);
              && |calls| > 0
              && calls[0] == ChatCall(Venice.ChatRequest(st.conversation + [Venice.ChatMessage(Venice.User, st.input)], address))
              && st'.input == ""
  {
    Text.TrimEmptyIffBlank(st.input);
  }

  /** A send appends the user turn and then the assistant's answer, to both the
      displayed messages and the conversation; earlier entries are untouched and
      at most a skills suggestion follows, to both lists alike. When the chat
      call fails, only the displayed list gets an error message. */
  lemma SendAppendsTurns(st: State, address: string, chat: Venice.Completion, extract: Venice.Completion,
                         skills: Venice.Completion, parse: string -> Option<Value>)
    requires Text.Trim(st.input) != ""
    ensures var (st', _) := Send(st, address, chat, extract, skills, parse);
            var userTurn := Message(FromUser, st.input);
            var sent := st.conversation + [Venice.ChatMessage(Venice.User, st.input)];
            match Venice.ChatReply(chat)
            case Returned(answer) =>
              && st'.messages[..|st.messages| + 2] == st.messages + [userTurn, Message(FromAssistant, answer)]
              && st'.conversation[..|st.conversation| + 2] == sent + [Venice.ChatMessage(Venice.Assistant, answer)]
              && |st.messages| + 2 <= |st'.messages| <= |st.messages| + 3
              && |st'.messages| - |st.messages| == |st'.conversation| - |st.conversation|
            case Raised(_) =>
              && st'.messages == st.messages + [userTurn, Message(FromAssistant, ChatTrouble)]
              && st'.conversation == sent
  {
    var sent := st.conversation + [Venice.ChatMessage(Venice.User, st.input)];
    var st1 := st.(messages := st.messages + [Message(FromUser, st.input)], conversation := sent, input := "");
    match Venice.ChatReply(chat)
    case Raised(_) =>
    case Returned(answer) =>
      var st2 := AssistantSays(st1, answer);
      assert st2.messages == st.messages + [Message(FromUser, st.input), Message(FromAssistant, answer)];
      if |sent| >= ExtractionThreshold {
        var x := ExtractStep(address, extract, skills, parse);
        var st3 := Absorb(st2, x);
        assert st3.messages[..|st2.messages|] == st2.messages;
        assert st3.conversation[..|st2.conversation|] == st2.conversation;
      }
  }

  /** Extraction is attempted exactly when the chat answered and the sent
      conversation, greeting included, has at least four entries. */
  lemma ExtractionOnlyWhenLongEnough(st: State, address: string, chat: Venice.Completion, extract: Venice.Completion,
                                     skills: Venice.Completion, parse: string -> Option<Value>)
    requires Text.Trim(st.input) != ""
    ensures var (_, calls) := Send(st, address, chat, extract, skills, parse);
            (exists i :: 0 <= i < |calls| && calls[i].ExtractCall?)
            <==> !chat.CallFailed? && |st.conversation| + 1 >= ExtractionThreshold
  {
    var (_, calls) := Send(st, address, chat, extract, skills, parse);
    if !chat.CallFailed? && |st.conversation| + 1 >= ExtractionThreshold {
      assert calls[1].ExtractCall?;
    }
  }

  /** A send makes the chat call once and first, then at most the extraction
      call with the conversation it sent, then at most one skills call. */
  lemma SendCallSequence(st: State, address: string, chat: Venice.Completion, extract: Venice.Completion,
                         skills: Venice.Completion, parse: string -> Option<Value>)
    requires Text.Trim(st.input) != ""
    ensures var (_, calls) := Send(st, address, chat, extract, skills, parse);
            var sent := st.conversation + [Venice.ChatMessage(Venice.User, st.input)];
            && 1 <= |calls| <= 3
            && calls[0] == ChatCall(Venice.ChatRequest(sent, address))
            && (|calls| > 1 ==> calls[1] == ExtractCall(sent))
            && (|calls| == 3 ==> calls[2].SkillsCall?)
  {
  }

  /** The request the component holds: the five required fields are truthy and
      the wallet address has been filled in. */
  predicate InfoReady(info: map<string, Value>) {
    Complete(Obj(info)) && "studentAddress" in info && info["studentAddress"].Str?
  }

  predicate Invariant(st: State) {
    st.certificateInfo.Some? ==> InfoReady(st.certificateInfo.value)
  }

  /** A send changes the held request only by installing the one the extraction
      step produced, and only after a long enough conversation. */
  lemma SendSetsOnlyExtractedInfo(st: State, address: string, chat: Venice.Completion, extract: Venice.Completion,
                                  skills: Venice.Completion, parse: string -> Option<Value>)
    ensures var (st', _) := Send(st, address, chat, extract, skills, parse);
            st'.certificateInfo != st.certificateInfo ==>
              && st'.certificateInfo.Some?
              && !chat.CallFailed? && |st.conversation| + 1 >= ExtractionThreshold
              && st'.certificateInfo == ExtractStep(address, extract, skills, parse).info
  {
  }

  /** A send keeps the held request ready for submission. */
  lemma SendPreservesInvariant(st: State, address: string, chat: Venice.Completion, extract: Venice.Completion,
                               skills: Venice.Completion, parse: string -> Option<Value>)
    requires Invariant(st)
    ensures Invariant(Send(st, address, chat, extract, skills, parse).0)
  {
    SendSetsOnlyExtractedInfo(st, address, chat, extract, skills, parse);
    var x := ExtractStep(address, extract, skills, parse);
    assert x.info.Some? ==> InfoReady(x.info.value);
  }

  /** The other handlers keep the held request ready for submission too. */
  lemma HandlersPreserveInvariant(st: State, address: string, analysis: Venice.Completion,
                                  parse: string -> Option<Value>, postOk: bool)
    requires Invariant(st)
    ensures Invariant(Greet(st, address))
    ensures Invariant(AnalyzeInfo(st, analysis, parse).0)
    ensures Invariant(SubmitInfo(st, postOk).0)
    ensures Invariant(CancelInfo(st)) && Invariant(ClearInfo(st))
  {
  }

  /** A successful submit posts the request with `aiGenerated: true` and clears
      the request and its analysis; a failed one clears neither. */
  lemma SubmitOutcome(st: State, postOk: bool)
    requires st.certificateInfo.Some?
    ensures var (st', calls) := SubmitInfo(st, postOk);
            var info := st.certificateInfo.value;
            && calls == [PostCall(SubmissionBody(info))]
            && SubmissionBody(info)["aiGenerated"] == Bool(true)
            && (forall k :: k in info && k != "aiGenerated" ==> SubmissionBody(info)[k] == info[k])
            && (postOk ==> st'.certificateInfo.None? && st'.analysisResult == Null)
            && (!postOk ==> st'.certificateInfo == st.certificateInfo && st'.analysisResult == st.analysisResult)
            && (postOk ==> && st'.messages == st.messages + [Message(FromAssistant, SubmitDone)]
                           && st'.conversation == st.conversation + [Venice.ChatMessage(Venice.Assistant, SubmitDone)])
            && (!postOk ==> && st'.messages == st.messages + [Message(FromAssistant, SubmitTrouble)]
                            && st'.conversation == st.conversation)
            && st'.input == st.input && st'.renderFailed == st.renderFailed
  {
  }

  /** The request the assistant posts passes the store's validation whenever a
      wallet address was connected when it was extracted. */
  lemma PostedInfoAccepted(st: State, store: seq<Value>, now: nat, suffix: string, createdAt: string)
    requires Invariant(st) && st.certificateInfo.Some?
    requires st.certificateInfo.value["studentAddress"] != Str("")
    ensures RequestStore.Submit(store, Obj(SubmissionBody(st.certificateInfo.value)), now, suffix, createdAt).0.Submitted?
  {
  }

  /** When the analysis reply cannot be parsed, the fallback record is read as an
      analysis that recommends against approval and reports the raw reply as
      the only consistency issue. */
  lemma FallbackAnalysisReadable(content: string)
    ensures ReadAnalysis(Venice.FallbackAnalysis(content)) ==
              Some(Analysis(Num(50), [Str(Venice.ParseFailureNote)], [Str(content)], [Str(Venice.ParseFailureNote)],
                            Str("Analysis inconclusive due to parsing error"), false))
  {
    var v := Venice.FallbackAnalysis(content);
    assert StrArr([Venice.ParseFailureNote]).elems == [Str(Venice.ParseFailureNote)];
    assert StrArr([content]).elems == [Str(content)];
    assert ReadList(v, "completeness", "missing_fields") == Some([Str(Venice.ParseFailureNote)]);
    assert ReadList(v, "consistency", "issues") == Some([Str(content)]);
    assert ReadList(v, "validity", "concerns") == Some([Str(Venice.ParseFailureNote)]);
  }
}
