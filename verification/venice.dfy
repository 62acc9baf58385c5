/** The language-model service wrapper: four calls to a chat-completion
    endpoint and what each makes of the reply. The endpoint is not modelled;
    each function takes the reply it got (or the failure of the call) and the
    `JSON.parse` it would use, and returns what the wrapper returns or throws. */
module Venice {
  import opened Wrappers
  import opened Json
  import Text
  import Extraction

  /** The outcome of one completion call: the call threw, or the first choice's
      message content ("" stands for a missing content as well). */
  datatype Completion = CallFailed | Replied(content: string)

  /** A value returned, or an error thrown with its message. */
  datatype Outcome<T> = Returned(value: T) | Raised(message: string)

  datatype Role = System | User | Assistant

  /** A message of the conversation sent to the completion endpoint. */
  datatype ChatMessage = ChatMessage(role: Role, content: string)

  /** The reply has usable content: the wrapper's `!…message?.content` check passes. */
  predicate HasContent(c: Completion) {
    c.Replied? && |c.content| > 0
  }

  const AnalyzeError := "Failed to analyze certificate request. Please try again."
  const ExtractError := "Failed to extract certificate information. Please try again."
  const ChatError := "Failed to process your message. Please try again."
  const Apology := "I apologize, but I encountered an issue processing your request. Let's try again."
  const FallbackSkills: seq<string> := ["Problem solving", "Critical thinking", "Communication"]
  const ParseFailureNote := "Failed to parse structured analysis"

  /** None of the three patterns — "```json" fence, plain fence, `open…close` — matches. */
  ghost predicate NoSpan(content: string, open: string, close: string) {
    && Extraction.NoMatch(content, Extraction.JsonFenceOpen, Extraction.FenceClose)
    && Extraction.NoMatch(content, Extraction.PlainFenceOpen, Extraction.FenceClose)
    && Extraction.NoMatch(content, open, close)
  }

  /** The text given to `JSON.parse`: the located span with fence markers
      removed, so it never contains a run of three backticks. */
  function JsonCandidate(content: string, open: string, close: string): (r: Option<string>)
    ensures r.None? <==> NoSpan(content, open, close)
    ensures r.Some? ==> && Extraction.Locate(content, open, close).Some?
                        && r.value == Extraction.StripFences(Extraction.Locate(content, open, close).value)
    ensures r.Some? ==> Extraction.NoTripleBacktick(r.value)
  {
    match Extraction.Locate(content, open, close)
    case None => None
    case Some(t) =>
      Extraction.StripFencesRemovesAll(t);
      Some(Extraction.StripFences(t))
  }

  /** The record returned when an analysis reply cannot be parsed. */
  function FallbackAnalysis(content: string): (v: Value)
    ensures Path(v, ["verification_score"]) == Num(50)
    ensures Path(v, ["completeness", "score"]) == Num(50)
    ensures Path(v, ["consistency", "score"]) == Num(50)
    ensures Path(v, ["validity", "score"]) == Num(50)
    ensures Path(v, ["approval_recommended"]) == Bool(false)
    ensures Path(v, ["consistency", "issues"]) == StrArr([content])
  {
    var completeness := Obj(map[
      "score" := Num(50),
      "missing_fields" := StrArr([ParseFailureNote]),
      "recommendations" := StrArr(["Please check all required fields are provided"])]);
    var consistency := Obj(map[
      "score" := Num(50),
      "issues" := StrArr([content]),
      "recommendations" := StrArr(["Review all certificate details for consistency"])]);
    var validity := Obj(map[
      "score" := Num(50),
      "concerns" := StrArr([ParseFailureNote]),
      "recommendations" := StrArr(["Verify educational credentials with issuing institution"])]);
    Obj(map[
      "verification_score" := Num(50),
      "completeness" := completeness,
      "consistency" := consistency,
      "validity" := validity,
      "overall_assessment" := Str("Analysis inconclusive due to parsing error"),
      "approval_recommended" := Bool(false)])
  }

  /** `analyzeCertificateRequest`: throws on a failed call or empty content;
      otherwise returns the parsed `{…}` span, or the fallback record when no
      span is found or it does not parse. */
  function Analyze(reply: Completion, parse: string -> Option<Value>): (r: Outcome<Value>)
    ensures !HasContent(reply) ==> r == Raised(AnalyzeError)
    ensures HasContent(reply) ==> r.Returned?
    ensures HasContent(reply) && NoSpan(reply.content, "{", "}") ==>
              r == Returned(FallbackAnalysis(reply.content))
    ensures HasContent(reply) && JsonCandidate(reply.content, "{", "}").Some? ==>
              var t := JsonCandidate(reply.content, "{", "}").value;
              && (parse(t).Some? ==> r == Returned(parse(t).value))
              && (parse(t).None? ==> r == Returned(FallbackAnalysis(reply.content)))
  {
    if !HasContent(reply) then Raised(AnalyzeError)
    else
      match JsonCandidate(reply.content, "{", "}")
      case None => Returned(FallbackAnalysis(reply.content))
      case Some(t) =>
        match parse(t)
        case None => Returned(FallbackAnalysis(reply.content))
        case Some(v) => Returned(v)
  }

  /** `extractCertificateInfo`: throws on a failed call or empty content;
      otherwise the parsed `{…}` span, or `null` when there is none or it does
      not parse. */
  function ExtractInfo(reply: Completion, parse: string -> Option<Value>): (r: Outcome<Value>)
    ensures !HasContent(reply) ==> r == Raised(ExtractError)
    ensures HasContent(reply) ==> r.Returned?
    ensures HasContent(reply) && NoSpan(reply.content, "{", "}") ==> r == Returned(Null)
    ensures HasContent(reply) && JsonCandidate(reply.content, "{", "}").Some? ==>
              var t := JsonCandidate(reply.content, "{", "}").value;
              && (parse(t).Some? ==> r == Returned(parse(t).value))
              && (parse(t).None? ==> r == Returned(Null))
  {
    if !HasContent(reply) then Raised(ExtractError)
    else
      match JsonCandidate(reply.content, "{", "}")
      case None => Returned(Null)
      case Some(t) =>
        match parse(t)
        case None => Returned(Null)
        case Some(v) => Returned(v)
  }

  /** The comma fallback for skills: `content.split(',').map(s => s.trim())`,
      empty pieces kept. */
  function CommaPieces(content: string): (r: seq<string>)
    ensures |r| == Text.Count(content, ',') + 1
    ensures forall i :: 0 <= i < |r| ==> Text.IsTrimOf(Text.Split(content, ',')[i], r[i])
  {
    var parts := Text.Split(content, ',');
    seq(|parts|, i requires 0 <= i < |parts| => Text.Trim(parts[i]))
  }

  /** `generateSkillRecommendations`: never throws. A failed call or empty
      content gives the three fixed skills; no `[…]` span, or one that does not
      parse, gives the trimmed comma-separated pieces of the content. */
  function Skills(reply: Completion, parse: string -> Option<Value>): (r: Value)
    ensures !HasContent(reply) ==> r == StrArr(FallbackSkills)
    ensures HasContent(reply) && NoSpan(reply.content, "[", "]") ==> r == StrArr(CommaPieces(reply.content))
    ensures HasContent(reply) && JsonCandidate(reply.content, "[", "]").Some? ==>
              var t := JsonCandidate(reply.content, "[", "]").value;
              && (parse(t).Some? ==> r == parse(t).value)
              && (parse(t).None? ==> r == StrArr(CommaPieces(reply.content)))
  {
    if !HasContent(reply) then StrArr(FallbackSkills)
    else
      match JsonCandidate(reply.content, "[", "]")
      case None => StrArr(CommaPieces(reply.content))
      case Some(t) =>
        match parse(t)
        case None => StrArr(CommaPieces(reply.content))
        case Some(v) => v
  }

  const ChatPromptHead :=
    "You are a helpful assistant for SoulCertify, a blockchain-based certificate verification platform. \n"
    + "    You're helping a student submit a certificate request. The student's wallet address is "
  const ChatPromptTail :=
    ".\n    Collect the following information:\n    - Student's full name\n    - University/Institution name\n"
    + "    - Year of graduation\n    - Degree title\n    - Major/Field of study\n"
    + "    - Skills gained (comma-separated list)\n    \n"
    + "    Be conversational but efficient in collecting this information. Once you have all the required information,\n"
    + "    summarize it and ask the student to confirm before submitting."

  /** The system prompt of `chatWithStudent`, naming the student's wallet address. */
  function ChatPrompt(studentAddress: string): string {
    ChatPromptHead + studentAddress + ChatPromptTail
  }

  /** The messages `chatWithStudent` sends: one system message, then the
      caller's conversation unchanged and in order. */
  function ChatRequest(conversation: seq<ChatMessage>, studentAddress: string): (m: seq<ChatMessage>)
    ensures |m| == |conversation| + 1
    ensures m[0] == ChatMessage(System, ChatPrompt(studentAddress))
    ensures m[1..] == conversation
  {
    [ChatMessage(System, ChatPrompt(studentAddress))] + conversation
  }

  /** What `chatWithStudent` makes of the reply: the content, a fixed apology
      when the content is empty, an error when the call failed. An assistant
      turn it returns is never empty. */
  function ChatReply(reply: Completion): (r: Outcome<string>)
    ensures reply.CallFailed? <==> r == Raised(ChatError)
    ensures reply == Replied("") ==> r == Returned(Apology)
    ensures r.Returned? ==> |r.value| > 0
    ensures HasContent(reply) ==> r == Returned(reply.content)
  {
    match reply
    case CallFailed => Raised(ChatError)
    case Replied(c) => if |c| == 0 then Returned(Apology) else Returned(c)
  }

  /** Every comma piece of the skills fallback is trimmed: no piece starts or
      ends with whitespace. */
  lemma CommaPiecesTrimmed(content: string)
    ensures forall i :: 0 <= i < |CommaPieces(content)| ==>
              var p := CommaPieces(content)[i];
              |p| > 0 ==> !Text.IsJsWhitespace(p[0]) && !Text.IsJsWhitespace(p[|p| - 1])
  {
    var r := CommaPieces(content);
    forall i | 0 <= i < |r|
      ensures |r[i]| > 0 ==> !Text.IsJsWhitespace(r[i][0]) && !Text.IsJsWhitespace(r[i][|r[i]| - 1])
    {
      assert Text.IsTrimOf(Text.Split(content, ',')[i], r[i]);
    }
  }

  /** A reply that is exactly one "```json" block, whose body has no backticks,
      hands `JSON.parse` that body followed by the newline before the closing
      fence, whatever the fallback pattern. */
  lemma FencedReplyCandidate(body: string, open: string, close: string)
    requires forall i :: 0 <= i < |body| ==> body[i] != '`'
    ensures JsonCandidate(Extraction.JsonFenceOpen + (body + Extraction.FenceClose), open, close) == Some(body + "\n")
  {
    Extraction.JsonBlockLocated(body, open, close);
    Extraction.JsonFenceStripsToBody(body);
  }

  /** For such a reply, each wrapper returns what `JSON.parse` makes of the body,
      and its own fallback when the body does not parse. */
  lemma FencedReplyParsed(body: string, parse: string -> Option<Value>)
    requires forall i :: 0 <= i < |body| ==> body[i] != '`'
    ensures var reply := Replied(Extraction.JsonFenceOpen + (body + Extraction.FenceClose));
            var parsed := parse(body + "\n");
            && Analyze(reply, parse) == (if parsed.Some? then Returned(parsed.value) else Returned(FallbackAnalysis(reply.content)))
            && ExtractInfo(reply, parse) == (if parsed.Some? then Returned(parsed.value) else Returned(Null))
            && Skills(reply, parse) == (if parsed.Some? then parsed.value else StrArr(CommaPieces(reply.content)))
  {
    FencedReplyCandidate(body, "{", "}");
    FencedReplyCandidate(body, "[", "]");
  }
}
