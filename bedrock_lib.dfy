/** The Bedrock client of utils/bedrock_lib.py: the system prompt, the decoding of a
    Converse stream into text chunks, and the mapping of knowledge-base hits into records.
    The two remote services are not called: each method takes the service's reply as a
    parameter and returns the request it would have sent (`None` when it sends none). */
module BedrockLib {
  import opened Options
  import opened Strings

  /** The fixed persona text. */
  const SystemPrompt: string := "당신은 한국어로 답변하는 도움이 되는 AI 어시스턴트입니다."
  /** The label placed between the persona text and a non-empty context. */
  const ContextHeader: string := "\n\n다음 컨텍스트를 참고하여 답변하세요:\n"
  /** Every error chunk starts with this. */
  const ErrorPrefix: string := "오류가 발생했습니다: "
  /** `str(KeyError('delta'))`, raised by a `contentBlockDelta` event without a `delta`. */
  const MissingDeltaMessage: string := "'delta'"

  /** Python truthiness of an optional string: neither `None` nor `""`. */
  predicate Truthy(s: Option<string>) {
    s.Some? && s.value != ""
  }

  /** `a or b` on optional strings is truthy iff one of the two is. */
  lemma OrTruthy(a: Option<string>, b: Option<string>)
    ensures Truthy(if Truthy(a) then a else b) <==> Truthy(a) || Truthy(b)
  {
  }

  /** Relevance scores and sampling values are only passed through. */
  type Score = real

  // ---------------------------------------------------------------- retrieval

  /** `location["s3Location"]`; `uri` is `None` when the key is missing. */
  datatype S3Location = S3Location(uri: Option<string>)

  /** A hit's `location` value: JSON null, or a dictionary that may hold `s3Location`. */
  datatype Location = NullLocation | LocationDict(s3Location: Option<S3Location>)

  /** The `{}` that stands in for a missing location. */
  const EmptyLocation: Location := LocationDict(None)

  /** One entry of `retrievalResults`; each `None` is a missing key. */
  datatype Hit = Hit(text: Option<string>, score: Option<Score>, location: Option<Location>)

  /** What the retrieve call gives back: the hits, or an exception. */
  datatype RetrieveReply = Retrieved(hits: seq<Hit>) | RetrieveFailed

  /** The request sent to the retrieve call. */
  datatype RetrieveRequest = RetrieveRequest(knowledgeBaseId: string, queryText: string, numberOfResults: int)

  /** One record of `retrieve_only`'s result: `{content, score, location}`. */
  datatype RetrievedDoc = RetrievedDoc(content: string, score: Score, location: Location)

  /** A hit can be mapped without a `KeyError`. */
  predicate WellFormedHit(h: Hit) {
    h.text.Some? && h.score.Some?
  }

  /** The records of a list of hits, or `None` when some hit raises a `KeyError`. */
  function DocsOf(hits: seq<Hit>): (r: Option<seq<RetrievedDoc>>)
    ensures r.Some? <==> forall i :: 0 <= i < |hits| ==> WellFormedHit(hits[i])
    ensures r.Some? ==> |r.value| == |hits|
    ensures r.Some? ==> forall i :: 0 <= i < |hits| ==>
      && r.value[i].content == hits[i].text.value
      && r.value[i].score == hits[i].score.value
      && r.value[i].location == hits[i].location.GetOr(EmptyLocation)
  {
    if hits == [] then Some([])
    else
      var h := hits[0];
      if !WellFormedHit(h) then None
      else match DocsOf(hits[1..])
        case None => None
        case Some(rest) =>
          Some([RetrievedDoc(h.text.value, h.score.value, h.location.GetOr(EmptyLocation))] + rest)
  }

  /** What `retrieve_only` returns once the service has been called: any failure becomes `[]`. */
  function RetrieveResults(reply: RetrieveReply): (results: seq<RetrievedDoc>)
    ensures reply.RetrieveFailed? ==> results == []
    ensures reply.Retrieved? && (exists i :: 0 <= i < |reply.hits| && !WellFormedHit(reply.hits[i])) ==> results == []
    ensures results != [] ==> reply.Retrieved? && |results| == |reply.hits|
    ensures reply.Retrieved? && (forall i :: 0 <= i < |reply.hits| ==> WellFormedHit(reply.hits[i])) ==>
      |results| == |reply.hits|
  {
    match reply
    case RetrieveFailed => []
    case Retrieved(hits) => DocsOf(hits).GetOr([])
  }

  /** A non-empty result comes from a successful reply with exactly as many hits, none of them malformed. */
  lemma NonEmptyResultsComeFromHits(reply: RetrieveReply)
    requires RetrieveResults(reply) != []
    ensures reply.Retrieved? && |RetrieveResults(reply)| == |reply.hits| > 0
    ensures forall i :: 0 <= i < |reply.hits| ==> WellFormedHit(reply.hits[i])
  {
  }

  // ---------------------------------------------------------------- generation

  /** `event["contentBlockDelta"]["delta"]`; `text` is `None` when the delta has no text. */
  datatype Delta = Delta(text: Option<string>)

  /** A stream event: a content-block delta (whose `delta` key may be missing), or anything else. */
  datatype Event = ContentBlockDelta(delta: Option<Delta>) | OtherEvent

  /** How the event stream ended: normally, or with an exception after the events delivered. */
  datatype StreamEnd = Completed | Broken(message: string)

  /** What the converse-stream call gives back: an exception at call time, or a stream. */
  datatype ConverseReply = CallFailed(message: string) | Streamed(events: seq<Event>, end: StreamEnd)

  /** One conversation turn: a role and its text content blocks. */
  datatype Message = Message(role: string, content: seq<string>)

  datatype InferenceConfig = InferenceConfig(maxTokens: int, temperature: real, topP: real)

  /** The request sent to the converse-stream call. */
  datatype ConverseRequest = ConverseRequest(
    modelId: string, messages: seq<Message>, system: seq<string>, inferenceConfig: InferenceConfig)

  /** The chunk yielded for an exception. */
  function ErrorChunk(message: string): string {
    ErrorPrefix + message
  }

  /** The system prompt for a context. */
  function SystemPromptFor(context: string): (p: string)
    ensures SystemPrompt <= p
    ensures p == SystemPrompt <==> context == ""
  {
    if context == "" then SystemPrompt else SystemPrompt + ContextHeader + context
  }

  /** Reads the context back out of a system prompt. */
  function ContextOf(systemPrompt: string): string {
    var start := |SystemPrompt| + |ContextHeader|;
    if |systemPrompt| <= start then "" else systemPrompt[start..]
  }

  /** The system prompt determines the context: different contexts give different prompts. */
  lemma ContextRoundTrip(context: string)
    ensures ContextOf(SystemPromptFor(context)) == context
  {
  }

  /** An event whose decoding raises a `KeyError`. */
  predicate Malformed(e: Event) {
    e == ContentBlockDelta(None)
  }

  /** No event in `events` is malformed. */
  predicate WellFormedEvents(events: seq<Event>) {
    forall i :: 0 <= i < |events| ==> !Malformed(events[i])
  }

  /** The text of every text-bearing delta event, in stream order; all other events are dropped. */
  function TextDeltas(events: seq<Event>): (deltas: seq<string>)
    ensures |deltas| <= |events|
  {
    if events == [] then []
    else
      var rest := TextDeltas(events[1..]);
      match events[0]
      case ContentBlockDelta(Some(Delta(Some(t)))) => [t] + rest
      case _ => rest
  }

  /** The generator, one event at a time: text deltas are yielded, other events skipped, and
      an exception (a malformed event, or the stream breaking) yields one error chunk and stops. */
  function EventChunks(events: seq<Event>, end: StreamEnd): (chunks: seq<string>)
    ensures |chunks| <= |events| + 1
    ensures (end.Broken? || !WellFormedEvents(events)) ==> chunks != [] && ErrorPrefix <= chunks[|chunks| - 1]
  {
    if events == [] then
      match end
      case Completed => []
      case Broken(m) => [ErrorChunk(m)]
    else
      match events[0]
      case ContentBlockDelta(None) => [ErrorChunk(MissingDeltaMessage)]
      case ContentBlockDelta(Some(Delta(Some(t)))) => [t] + EventChunks(events[1..], end)
      case _ => EventChunks(events[1..], end)
  }

  /** Every chunk `generate_response_stream` yields for a reply. */
  function StreamChunks(reply: ConverseReply): (chunks: seq<string>)
    ensures reply.CallFailed? ==> chunks == [ErrorChunk(reply.message)]
    ensures reply.Streamed? ==> |chunks| <= |reply.events| + 1
    ensures (reply.CallFailed? || reply.end.Broken? || !WellFormedEvents(reply.events)) ==>
      chunks != [] && ErrorPrefix <= chunks[|chunks| - 1]
  {
    match reply
    case CallFailed(m) => [ErrorChunk(m)]
    case Streamed(events, end) => EventChunks(events, end)
  }

  /** Filtering distributes over concatenation, so stream order is kept. */
  lemma {:induction false} TextDeltasAppend(a: seq<Event>, b: seq<Event>)
    ensures TextDeltas(a + b) == TextDeltas(a) + TextDeltas(b)
  {
    if a != [] {
      assert (a + b)[1..] == a[1..] + b;
      TextDeltasAppend(a[1..], b);
    } else {
      assert a + b == b;
    }
  }

  /** A stream of events that carry no text yields no chunk. */
  lemma {:induction false} TextDeltasOfTextlessEvents(events: seq<Event>)
    requires forall i :: 0 <= i < |events| ==> !(events[i].ContentBlockDelta? && events[i].delta.Some? && events[i].delta.value.text.Some?)
    ensures TextDeltas(events) == []
  {
    if events != [] {
      TextDeltasOfTextlessEvents(events[1..]);
    }
  }

  /** A stream that completes without a malformed event yields exactly its text deltas. */
  lemma {:induction false} CompletedStreamYieldsTextDeltas(events: seq<Event>)
    requires WellFormedEvents(events)
    ensures EventChunks(events, Completed) == TextDeltas(events)
  {
    if events != [] {
      CompletedStreamYieldsTextDeltas(events[1..]);
    }
  }

  /** A stream that breaks yields its text deltas and then exactly one error chunk. */
  lemma {:induction false} BrokenStreamAppendsOneError(events: seq<Event>, message: string)
    requires WellFormedEvents(events)
    ensures EventChunks(events, Broken(message)) == TextDeltas(events) + [ErrorChunk(message)]
  {
    if events != [] {
      BrokenStreamAppendsOneError(events[1..], message);
    }
  }

  /** The first malformed event ends the stream with one error chunk, whatever follows it. */
  lemma {:induction false} MalformedEventEndsStream(events: seq<Event>, k: nat, end: StreamEnd)
    requires k < |events| && Malformed(events[k]) && WellFormedEvents(events[..k])
    ensures EventChunks(events, end) == TextDeltas(events[..k]) + [ErrorChunk(MissingDeltaMessage)]
  {
    if k > 0 {
      assert events[1..][..k - 1] == events[..k][1..];
      MalformedEventEndsStream(events[1..], k - 1, end);
    }
  }

  /** Before the first malformed event, the generator has yielded exactly the text deltas so far. */
  lemma {:induction false} TextDeltasPrefixOfChunks(events: seq<Event>, k: nat, end: StreamEnd)
    requires k <= |events| && WellFormedEvents(events[..k])
    ensures TextDeltas(events[..k]) <= EventChunks(events, end)
  {
    if k > 0 {
      assert !Malformed(events[..k][0]);
      assert events[1..][..k - 1] == events[..k][1..];
      TextDeltasPrefixOfChunks(events[1..], k - 1, end);
    }
  }

  /** If the stream breaks after its first `k` events, the chunks already yielded are the ones the
      unbroken stream starts with, and a single error chunk follows them. */
  lemma FailureKeepsYieldedChunks(events: seq<Event>, k: nat, message: string)
    requires k <= |events| && WellFormedEvents(events[..k])
    ensures var yielded := EventChunks(events[..k], Broken(message));
      && |yielded| >= 1
      && yielded[..|yielded| - 1] <= EventChunks(events, Completed)
      && yielded[|yielded| - 1] == ErrorChunk(message)
  {
    BrokenStreamAppendsOneError(events[..k], message);
    TextDeltasPrefixOfChunks(events, k, Completed);
  }

  // ---------------------------------------------------------------- the client

  /** `BedrockRAG`: its fields are set once by the constructor and only read afterwards.
      The region and the two boto3 clients are not modelled. */
  class BedrockRAG {
    const modelId: string
    const knowledgeBaseId: Option<string>

    /** `knowledge_base_id or os.getenv("KNOWLEDGE_BASE_ID")`, with the environment value as a parameter. */
    constructor (modelId: string, knowledgeBaseId: Option<string>, envKnowledgeBaseId: Option<string>)
      ensures this.modelId == modelId
      ensures this.knowledgeBaseId == if Truthy(knowledgeBaseId) then knowledgeBaseId else envKnowledgeBaseId
    {
      this.modelId := modelId;
      this.knowledgeBaseId := if Truthy(knowledgeBaseId) then knowledgeBaseId else envKnowledgeBaseId;
    }

    /** `generate_response_stream`, run to the end: the request it sends, and every chunk it yields
        when the service answers `reply`. */
    method GenerateResponseStream(prompt: string, context: string, maxTokens: int, temperature: real,
                                  topP: real, reply: ConverseReply)
      returns (request: ConverseRequest, chunks: seq<string>)
      ensures request.modelId == modelId
      ensures request.messages == [Message("user", [prompt])]
      ensures request.system == [SystemPromptFor(context)]
      ensures request.inferenceConfig == InferenceConfig(maxTokens, temperature, topP)
      ensures chunks == StreamChunks(reply)
    {
      var systemPrompt := SystemPrompt;
      if context != "" {
        systemPrompt := systemPrompt + ContextHeader + context;
      }
      request := ConverseRequest(modelId, [Message("user", [prompt])], [systemPrompt],
                                 InferenceConfig(maxTokens, temperature, topP));
      match reply {
        case CallFailed(m) =>
          chunks := [ErrorChunk(m)];
        case Streamed(events, end) =>
          chunks := [];
          var i := 0;
          while i < |events|
            invariant 0 <= i <= |events|
            invariant chunks + EventChunks(events[i..], end) == EventChunks(events, end)
          {
            assert events[i..][1..] == events[i + 1..];
            match events[i] {
              case ContentBlockDelta(None) =>
                chunks := chunks + [ErrorChunk(MissingDeltaMessage)];
                return;
              case ContentBlockDelta(Some(Delta(Some(t)))) =>
                chunks := chunks + [t];
              case _ =>
            }
            i := i + 1;
          }
          if end.Broken? {
            chunks := chunks + [ErrorChunk(end.message)];
          }
      }
    }

    /** `retrieve_only`: the request it sends (`None` when no knowledge base is set, so the
        service is never called) and the records it returns. */
    method RetrieveOnly(query: string, maxResults: int, reply: RetrieveReply)
      returns (request: Option<RetrieveRequest>, results: seq<RetrievedDoc>)
      ensures !Truthy(knowledgeBaseId) ==> request == None && results == []
      ensures Truthy(knowledgeBaseId) ==>
        request == Some(RetrieveRequest(knowledgeBaseId.value, query, maxResults))
      ensures Truthy(knowledgeBaseId) ==> results == RetrieveResults(reply)
    {
      if !Truthy(knowledgeBaseId) {
        return None, [];
      }
      request := Some(RetrieveRequest(knowledgeBaseId.value, query, maxResults));
      match reply
      case RetrieveFailed =>
        results := [];
      case Retrieved(hits) =>
        results := [];
        var i := 0;
        while i < |hits|
          invariant 0 <= i <= |hits|
          invariant |results| == i
          invariant forall j :: 0 <= j < i ==> WellFormedHit(hits[j])
          invariant forall j :: 0 <= j < i ==>
            results[j] == RetrievedDoc(hits[j].text.value, hits[j].score.value, hits[j].location.GetOr(EmptyLocation))
        {
          var hit := hits[i];
          if !WellFormedHit(hit) {
            results := [];
            return;
          }
          results := results + [RetrievedDoc(hit.text.value, hit.score.value, hit.location.GetOr(EmptyLocation))];
          i := i + 1;
        }
        assert forall j :: 0 <= j < |hits| ==> results[j] == DocsOf(hits).value[j];
    }
  }
}
