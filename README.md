# Korean financial-regulation Q&A chatbot: the retrieval-augmented answering core

This Dafny project models the logic between the two Amazon Bedrock calls of a Streamlit chatbot.
The two calls are a knowledge-base `retrieve` and a `converse_stream` generation.
Both services are inputs to the model. A `RetrieveReply` is `Retrieved(hits)` or `RetrieveFailed`.
A `ConverseReply` is `CallFailed(message)` or `Streamed(events, end)`, where `end` is `Completed` or `Broken(message)`.
Each method also returns the request it would send. `None` means the service is not called.

- `options.dfy` (`Options`): the `Option` type for missing dictionary keys and `None`.
- `strings.dfy` (`Strings`): Python's `sep.join`, `s.split('/')` and the `+=` concatenation, with the lemmas relating them.
- `bedrock_lib.dfy` (`BedrockLib`): `BedrockRAG`, a class whose fields are set once by its constructor.
  - `GenerateResponseStream` builds the system prompt and the request. It decodes the event stream into text chunks and ends with one error chunk on an exception.
  - `RetrieveOnly` returns `[]` when no knowledge base is set. Otherwise it maps each hit to `{content, score, location}` in order. Any failure gives `[]`.
- `app.dfy` (`App`): the chat-input handler.
  - `Respond` joins the retrieved contents with a blank line. It generates only when retrieval returned a record, and otherwise answers with the fixed refusal. The answer is the in-order concatenation of the streamed chunks.
  - `ChatSession.SubmitPrompt` appends the user entry and then the assistant entry to the transcript.
  - `ExtractFilename` and `Preview` are the two display helpers.

The generation call runs exactly when retrieval returned at least one record. It does not depend on the context being non-empty.
A single record with empty content gives an empty context (see `ContextFor`). Generation then runs with the bare persona prompt and no context block.

The code applies no relevance-score threshold: every hit the service returns is kept, and the handler only tests the result list for emptiness.
The code also accepts any prompt: the only guard is the chat-input truthiness test, which skips an empty string.

## Model

| member | source | states |
|---|---|---|
| Strings.Join | app.py:164 | `"\n\n".join`: the first part is a prefix of the result; no parts give `""`; a single part joins to itself; with a non-empty separator the result is empty iff there are no parts or one empty part |
| Strings.JoinAppend | app.py:164 | joining one more part appends the separator and that part |
| Strings.Split | app.py:123 | `s.split('/')` is never empty and no piece holds the separator |
| Strings.JoinSplit | app.py:123 | splitting on `/` and joining with `/` gives back the URI |
| Strings.LastPiece | app.py:123 | `split('/')[-1]` holds no `/`, and is the whole string when it has no `/` |
| Strings.SplitWithoutSeparator | app.py:123 | a string without `/` splits into itself alone |
| Strings.LastPieceIsSuffix | app.py:123 | `split('/')[-1]` is the longest `/`-free suffix: a suffix, without `/`, all of the string or preceded by `/` |
| Strings.Concat | app.py:170-179 | reference definition of the running `full_response += chunk` value (no chunk is longer than the result); its properties are stated by ConcatAppend and ConcatHasChunk |
| Strings.ConcatAppend | app.py:170-182 | the accumulated answer does not depend on chunk boundaries: `Concat(a + b) == Concat(a) + Concat(b)` |
| Strings.ConcatHasChunk | app.py:179 | every chunk appears, in order, at its offset inside the accumulated answer |
| App.ExtractFilename | app.py:118-124 | with a non-empty `s3Location.uri`, the name is the part after its last `/` (a `/`-free suffix); a null or empty location, no `s3Location`, or a missing or empty `uri` give the fixed fallback |
| App.TrailingSlashGivesEmptyName | app.py:122-123 | a URI ending in `/` gives the empty name, not the fallback |
| App.Preview | app.py:136 | content over 300 characters becomes its first 300 and `...`; shorter content is unchanged; at most 303 characters; the first characters agree with the content |
| App.ContentsAppend | app.py:163 | taking the contents of the results distributes over concatenation, so the contents keep retrieval order |
| App.ContextFor | app.py:163-164 | the context is empty iff there are no results or a single result with empty content; a single result's context is its content; the first content starts it (with ContextForAppend this fixes every context) |
| App.ContextForAppend | app.py:163-164 | contents are joined by a blank line in retrieval order: one more result adds the separator and its content at the end |
| App.Respond | app.py:156-193 | with no knowledge base, retrieval is not called and there are no results; generation is called iff there are results, and only after a successful retrieval with at least one hit; otherwise the answer is exactly the refusal text; a generated answer is the in-order concatenation of the stream's chunks, from a request carrying the prompt, the context's system prompt and the sidebar values |
| App.AppendExchangeKeepsAlternation | app.py:151-196 | appending a user entry and then an assistant entry keeps the transcript alternating user, assistant |
| App.ChatSession.constructor | app.py:31-32 | the transcript starts empty |
| App.ChatSession.SubmitPrompt | app.py:149-196 | an empty input changes nothing; otherwise exactly two entries are appended, the user's prompt and then the answer, earlier entries unchanged, alternation kept; the answer is the refusal text when retrieval gave no records (always so without a knowledge base), and otherwise the concatenation of the stream's chunks |
| BedrockLib.BedrockRAG.constructor | utils/bedrock_lib.py:13-24 | the knowledge-base id is the argument when truthy, otherwise the environment value; the model id is the argument |
| BedrockLib.OrTruthy | utils/bedrock_lib.py:15 | `knowledge_base_id or os.getenv(...)` sets a knowledge base iff the argument or the environment value is truthy |
| BedrockLib.SystemPromptFor | utils/bedrock_lib.py:28-31 | the persona text always starts the system prompt; the prompt is exactly the persona text iff the context is empty |
| BedrockLib.ContextRoundTrip | utils/bedrock_lib.py:28-31 | the context is recovered from the system prompt, so the labelled block carries it unchanged |
| BedrockLib.TextDeltas | utils/bedrock_lib.py:50-54 | reference definition of the in-order text deltas of a stream (at most one per event); TextDeltasAppend, CompletedStreamYieldsTextDeltas, BrokenStreamAppendsOneError, MalformedEventEndsStream and TextDeltasPrefixOfChunks compare the generator with it |
| BedrockLib.EventChunks | utils/bedrock_lib.py:50-57 | the generator over the events: at most one chunk per event plus one; when the stream breaks or holds a malformed event, the last chunk is an error chunk |
| BedrockLib.StreamChunks | utils/bedrock_lib.py:33-57 | a call-time failure yields exactly one chunk, the error prefix followed by the exception message; any exception (at call time, mid-stream, or from a malformed event) makes the last chunk an error chunk |
| BedrockLib.TextDeltasAppend | utils/bedrock_lib.py:50-54 | filtering to text deltas keeps stream order: it distributes over concatenation |
| BedrockLib.TextDeltasOfTextlessEvents | utils/bedrock_lib.py:50-54 | events without text (other kinds, deltas without text) yield nothing |
| BedrockLib.CompletedStreamYieldsTextDeltas | utils/bedrock_lib.py:50-54 | a stream that completes yields exactly the text deltas, in order |
| BedrockLib.BrokenStreamAppendsOneError | utils/bedrock_lib.py:50-57 | a stream that breaks yields its text deltas and then exactly one error chunk |
| BedrockLib.MalformedEventEndsStream | utils/bedrock_lib.py:50-57 | a `contentBlockDelta` without `delta` ends the stream with one `KeyError` chunk after the earlier deltas |
| BedrockLib.TextDeltasPrefixOfChunks | utils/bedrock_lib.py:50-57 | up to the first malformed event, the chunks yielded are exactly the text deltas so far, whatever follows |
| BedrockLib.FailureKeepsYieldedChunks | utils/bedrock_lib.py:33-57 | when the stream breaks after some well-formed events, the chunks already yielded start the unbroken stream's output (even if a later event is malformed) and one error chunk follows |
| BedrockLib.BedrockRAG.GenerateResponseStream | utils/bedrock_lib.py:26-57 | one user message holding the prompt, the context's system prompt, the model id and the three sampling values passed through; the chunks are the stream's chunks (one error chunk alone on a call-time failure) |
| BedrockLib.DocsOf | utils/bedrock_lib.py:77-85 | hits map to records iff no hit misses `content.text` or `score`; same length and order, each record carrying the hit's text and score and its location defaulting to `{}` |
| BedrockLib.RetrieveResults | utils/bedrock_lib.py:77-89 | a failed reply or any malformed hit gives `[]`; a reply of well-formed hits gives one record per hit; a non-empty result comes from a successful reply with as many hits |
| BedrockLib.NonEmptyResultsComeFromHits | utils/bedrock_lib.py:77-89 | a non-empty result comes from a successful reply with as many hits, none malformed |
| BedrockLib.BedrockRAG.RetrieveOnly | utils/bedrock_lib.py:59-89 | with no knowledge base it returns `[]` and sends nothing; otherwise it sends the id, query and result count, and returns the mapped hits, or `[]` on any failure |

## Left out

- Streamlit rendering: page config, sidebar widgets, spinners, expanders, placeholders, the reference-document listing and `st.rerun`. This is UI.
- The "clear history" button (app.py:198-203), which resets the transcript. It belongs to the UI layout.
- The boto3 clients and the two network calls. They are replaced by the reply parameters and the returned requests. The region setting only configures the clients.
- Progressive rendering: the handler consumes the generator while it renders. The model runs the generator to the end and then accumulates, which gives the same final answer.
- Float values: scores, temperature and top-p are reals passed through unchanged. The `:.3f` score formatting and the slider bounds are not modelled.
- Logging, `load_dotenv`, `os.getenv` and the `print` of a retrieval error. The environment's knowledge-base id is a constructor parameter.
- Exception texts are opaque strings. The one exception is `str(KeyError('delta'))`, which is `'delta'` with its quotes.
- BedrockLib.Location: an `s3Location` whose value is not a dictionary (Python would raise `AttributeError`) is not representable; `s3Location` is always a dictionary in the model.
- BedrockLib.RetrieveReply: a reply without `retrievalResults`, or a `content` that is not a dictionary, is folded into `RetrieveFailed` or a malformed hit; both give `[]` as the code does.
