/** The chat front end of app.py, without its widgets: how a submitted prompt becomes a
    retrieval, a context, either a streamed answer or the fixed refusal, and two transcript
    entries; plus the two display helpers for reference documents. */
module App {
  import opened Options
  import opened Strings
  import opened BedrockLib

  /** Shown when no file name can be read from a location. */
  const UnknownFile: string := "알 수 없는 파일"
  /** The whole answer when retrieval found nothing. */
  const RefusalText: string := "죄송합니다. 관련된 문서를 찾을 수 없어 답변을 드릴 수 없습니다. 다른 질문을 시도해 보세요."
  /** Placed between retrieved contents in the context. */
  const ContextSeparator: string := "\n\n"
  /** Number of characters of a document shown in its preview. */
  const PreviewLimit: nat := 300
  const Ellipsis: string := "..."

  // ---------------------------------------------------------------- display helpers

  /** The location is a non-empty dictionary with an `s3Location` whose `uri` is present and non-empty. */
  predicate HasUri(location: Location) {
    location.LocationDict? && location.s3Location.Some? && location.s3Location.value.uri.GetOr("") != ""
  }

  /** `extract_filename_from_location`: the part of the S3 URI after its last `/`. */
  function ExtractFilename(location: Location): (name: string)
    ensures !HasUri(location) ==> name == UnknownFile
    ensures HasUri(location) ==>
      var uri := location.s3Location.value.uri.value;
      && '/' !in name
      && |name| <= |uri| && uri[|uri| - |name|..] == name
      && (|name| == |uri| || uri[|uri| - |name| - 1] == '/')
  {
    if HasUri(location) then
      var uri := location.s3Location.value.uri.value;
      LastPieceIsSuffix(uri, '/');
      LastPiece(uri, '/')
    else
      UnknownFile
  }

  /** A URI that ends in `/` gives the empty name, not the fallback. */
  lemma TrailingSlashGivesEmptyName(location: Location)
    requires HasUri(location)
    requires var uri := location.s3Location.value.uri.value; uri[|uri| - 1] == '/'
    ensures ExtractFilename(location) == ""
  {
  }

  /** The preview of a document: its first 300 characters and `...` when it is longer. */
  function Preview(content: string): (p: string)
    ensures |p| <= PreviewLimit + |Ellipsis|
    ensures |content| <= PreviewLimit ==> p == content
    ensures |content| > PreviewLimit ==> |p| == PreviewLimit + |Ellipsis| && p[PreviewLimit..] == Ellipsis
    ensures var n := if |content| < PreviewLimit then |content| else PreviewLimit; p[..n] == content[..n]
  {
    if |content| > PreviewLimit then content[..PreviewLimit] + Ellipsis else content
  }

  // ---------------------------------------------------------------- context

  /** `[result["content"] for result in kb_results]`. */
  function Contents(results: seq<RetrievedDoc>): seq<string> {
    seq(|results|, i requires 0 <= i < |results| => results[i].content)
  }

  /** Taking contents keeps retrieval order: it distributes over concatenation. */
  lemma ContentsAppend(a: seq<RetrievedDoc>, b: seq<RetrievedDoc>)
    ensures Contents(a + b) == Contents(a) + Contents(b)
  {
  }

  /** The context: the retrieved contents joined by a blank line, in retrieval order. */
  function ContextFor(results: seq<RetrievedDoc>): (context: string)
    ensures context == "" <==> results == [] || (|results| == 1 && results[0].content == "")
    ensures results != [] ==> results[0].content <= context
    ensures |results| == 1 ==> context == results[0].content
  {
    var docs := Contents(results);
    if docs != [] then Join(docs, ContextSeparator) else ""
  }

  /** One more result adds a blank line and its content at the end of the context. */
  lemma ContextForAppend(results: seq<RetrievedDoc>, r: RetrievedDoc)
    requires results != []
    ensures ContextFor(results + [r]) == ContextFor(results) + ContextSeparator + r.content
  {
    ContentsAppend(results, [r]);
    assert Contents([r]) == [r.content];
    JoinAppend(Contents(results), r.content, ContextSeparator);
  }

  // ---------------------------------------------------------------- one prompt

  /** The sidebar values the handler reads from the session. */
  datatype Settings = Settings(maxTokens: int, temperature: real, topP: real, maxResults: int)

  /** Everything one prompt produces: the retrieval request (`None`: not sent), the records, the
      context, the generation request (`None`: not sent), the streamed chunks and the answer. */
  datatype Turn = Turn(
    retrieveRequest: Option<RetrieveRequest>,
    kbResults: seq<RetrievedDoc>,
    context: string,
    converseRequest: Option<ConverseRequest>,
    chunks: seq<string>,
    response: string)

  /** The handler's answer to `prompt` when the two services reply `retrieval` and `converse`. */
  method Respond(rag: BedrockRAG, prompt: string, settings: Settings,
                 retrieval: RetrieveReply, converse: ConverseReply)
    returns (turn: Turn)
    ensures !Truthy(rag.knowledgeBaseId) ==> turn.retrieveRequest == None && turn.kbResults == []
    ensures Truthy(rag.knowledgeBaseId) ==>
      && turn.retrieveRequest == Some(RetrieveRequest(rag.knowledgeBaseId.value, prompt, settings.maxResults))
      && turn.kbResults == RetrieveResults(retrieval)
    ensures turn.context == ContextFor(turn.kbResults)
    ensures turn.converseRequest.Some? <==> turn.kbResults != []
    ensures turn.converseRequest.Some? ==>
      Truthy(rag.knowledgeBaseId) && retrieval.Retrieved? && |retrieval.hits| == |turn.kbResults| > 0
    ensures turn.kbResults == [] ==> turn.chunks == [] && turn.response == RefusalText
    ensures turn.kbResults != [] ==>
      && turn.converseRequest.value.modelId == rag.modelId
      && turn.converseRequest.value.messages == [Message("user", [prompt])]
      && turn.converseRequest.value.system == [SystemPromptFor(turn.context)]
      && turn.converseRequest.value.inferenceConfig ==
           InferenceConfig(settings.maxTokens, settings.temperature, settings.topP)
      && turn.chunks == StreamChunks(converse)
      && turn.response == Concat(turn.chunks)
  {
    var retrieveRequest: Option<RetrieveRequest> := None;
    var kbResults: seq<RetrievedDoc> := [];
    var context := "";
    if Truthy(rag.knowledgeBaseId) {
      retrieveRequest, kbResults := rag.RetrieveOnly(prompt, settings.maxResults, retrieval);
      var contextDocs := Contents(kbResults);
      context := if contextDocs != [] then Join(contextDocs, ContextSeparator) else "";
    }

    if kbResults != [] {
      NonEmptyResultsComeFromHits(retrieval);
      var request, chunks := rag.GenerateResponseStream(
        prompt, context, settings.maxTokens, settings.temperature, settings.topP, converse);
      var fullResponse := "";
      for i := 0 to |chunks|
        invariant fullResponse == Concat(chunks[..i])
      {
        assert chunks[..i + 1][..i] == chunks[..i];
        fullResponse := fullResponse + chunks[i];
      }
      assert chunks[..|chunks|] == chunks;
      turn := Turn(retrieveRequest, kbResults, context, Some(request), chunks, fullResponse);
    } else {
      turn := Turn(retrieveRequest, kbResults, context, None, [], RefusalText);
    }
  }

  // ---------------------------------------------------------------- transcript

  datatype Role = User | Assistant

  /** One transcript entry, `{"role": ..., "content": ...}`. */
  datatype ChatMessage = ChatMessage(role: Role, content: string)

  /** Users and the assistant take turns, starting with the user, and every question is answered. */
  ghost predicate Alternating(messages: seq<ChatMessage>) {
    && |messages| % 2 == 0
    && forall i :: 0 <= i < |messages| ==> messages[i].role == (if i % 2 == 0 then User else Assistant)
  }

  /** Appending a question and its answer keeps the transcript alternating. */
  lemma AppendExchangeKeepsAlternation(messages: seq<ChatMessage>, question: string, answer: string)
    requires Alternating(messages)
    ensures Alternating(messages + [ChatMessage(User, question), ChatMessage(Assistant, answer)])
  {
  }

  /** `st.session_state.messages`, which the handler appends to in place. */
  class ChatSession {
    var messages: seq<ChatMessage>

    constructor ()
      ensures messages == []
    {
      messages := [];
    }

    /** The chat-input block: an empty input submits nothing; otherwise the prompt is recorded,
        answered, and the answer recorded after it. */
    method SubmitPrompt(input: string, rag: BedrockRAG, settings: Settings,
                        retrieval: RetrieveReply, converse: ConverseReply)
      returns (turn: Option<Turn>)
      modifies this
      ensures input == "" ==> turn == None && messages == old(messages)
      ensures input != "" ==>
        && turn.Some?
        && messages == old(messages) + [ChatMessage(User, input), ChatMessage(Assistant, turn.value.response)]
        && turn.value.kbResults == (if Truthy(rag.knowledgeBaseId) then RetrieveResults(retrieval) else [])
        && turn.value.response ==
             (if turn.value.kbResults == [] then RefusalText else Concat(StreamChunks(converse)))
      ensures Alternating(old(messages)) ==> Alternating(messages)
    {
      if input == "" {
        return None;
      }
      messages := messages + [ChatMessage(User, input)];
      var t := Respond(rag, input, settings, retrieval, converse);
      messages := messages + [ChatMessage(Assistant, t.response)];
      turn := Some(t);
      if Alternating(old(messages)) {
        AppendExchangeKeepsAlternation(old(messages), input, t.response);
      }
    }
  }
}
