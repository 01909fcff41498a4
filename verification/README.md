# Verified model of the Infernet streaming, replay and accounting core

This project models the parts of the Infernet repository that move and guard data between an engine
process, a provider daemon, the control plane and a chat client, and proves what they promise over all
inputs, all cuts of a stream into chunks and all interleavings.

| file | what it models |
|---|---|
| `sanitizer.dfy`, `sanitizer_grammar.dfy` | the stream sanitizer that removes leak tags: an incremental machine that holds text back, against a whole-text specification; and the tags it removes, written out |
| `protocol.dfy` | the NDJSON codec and splitter of the engine protocol, and a concrete JSON codec for flat objects |
| `async_queue.dfy` | the single-consumer queue behind every event stream |
| `engine.dfy`, `demultiplexing.dfy`, `engine_laws.dfy` | the engine process: one stdout, many generations, readiness, errors and exit |
| `chat_executor.dfy` | the daemon's job loop with its event buffer, and the end-to-end theorem from stdout text to posted batches |
| `sse.dfy`, `sse_laws.dfy`, `sse_agreement.dfy` | the two independently written SSE readers, and when they agree |
| `sse_wire.dfy`, `chat_client.dfy`, `chat_wire.dfy` | the frames the chat stream route sends, both readers reading them back, what the client collects, and the way from the engine's stdout to the caller of `sendChat` |
| `signed_request.dfy`, `replay.dfy`, `replay_verdicts.dfy` | base64url, the canonical string, and the replay cache with the verify/look-up/add sequence |
| `topology.dfy`, `topology_tables.dfy` | the GPU matrix parsers, the all-to-all classification, and printed tables reading back as themselves |
| `rate_limit.dfy`, `receipts.dfy`, `receipt_laws.dfy`, `jobs.dfy` | the rate limiter with its sweeper, the receipt retry queue, job accounting |
| `ranking.dfy`, `ranking_laws.dfy` | offer ranking over the reals |
| `text.dfy`, `decimal.dfy` | `indexOf`, splitting at delimiters, white space, decimal numbers |

Objects the source updates in place are classes; each method equates the new state with a specification
function, and the properties of whole runs are proved of those functions. What those functions say in turn is
tied to laws with the names, figures and texts written out: which tags are removed (`BlockIsDropped`), which answer
settles what (`AnswersAre`), when a request is accepted (`VerdictIs`). `dafny verify dfyconfig.toml` checks the whole
project.

Where the code does not do what one would expect, the project keeps the code and says exactly when it does:

- The sanitizer's cuts never show, at any moment of a stream, if and only if no suppressed block is opened by
  a tag longer than 32 characters (`CutsNeverShowIffTagsFit`).
- Removing a block can join the text around it into a new tag: `RejoinedTagIsLeft` is such a text. Sanitizing
  twice is sanitizing once, and the output is free of tags, if and only if no kept piece completes a tag begun
  in the kept text before it (`IdempotentIffNothingRejoins`); it is enough that before every removed block the
  last angle bracket kept is a `>` (`ClosedNeverRejoins`).
- The two SSE readers yield the same on a stream without carriage returns that ends with a newline if and only
  if every block is compatible (`ReadersAgreeIff`), whatever the parse function. When a last line lacks its
  newline, `ReadersAgreeWithTailIff` gives the exact condition for every parse function, because parsing can
  hide a difference between the data texts (`ParsingHidesTail`). Lemmas with concrete streams show how the
  readers differ. A subtle part of the condition: an empty `event:` field without data survives into the next
  block in the line-based reader only.
- The replay cache reads the clock once for the window (whole seconds) and again for the look-up
  (milliseconds). Take an accepted envelope, fewer than `max` other acceptances since (`max` is the size of
  the cache), and look-ups at most `lag` ms after the window test: under these bounds it can never be accepted
  again if and only if it was dated, in whole seconds, at most 59.001 s minus `lag` ahead of its recording, or
  its window was over by then (`ReplayProtectionIsExact`). Concrete envelopes that are accepted twice:
  `DatedAheadIsAcceptedTwice` with no lag at all, `LagIsAcceptedTwice` with one millisecond. With one
  whole-second time per request and below the same load no envelope is accepted twice (`OneTimestampIsSafe`).
- The bound on the load is exact as well: the next time an accepted nonce comes back within its time to live,
  authentic and inside its window, it is accepted if and only if `max` or more requests have been accepted
  since (`LoadBoundIsExact`). `FloodedCacheForgets` is such a run for a cache of any size, the default of 10000
  included.
- `tryFlushReceipt` reports the row's new status except when the last attempt fails: the row is `failed`
  while "pending" is returned (`SaidStatusIsExact`). The comment at `apps/web/lib/cpr/queue.js:15` gives a
  first delay of 30 s; the code passes the incremented count, so it is 60 s, and the waits before the eighth
  attempt add up to 7620 s (`LastAttemptIsLate`). A run that reaches the mismatch is `FailedIsCalledPending`.
- When a stream fails under a job, translated events can be left unposted: exactly those waiting under the
  batching rule (`LeftUnposted`), none if and only if the last push flushes (`NothingLeftIffLastPushFlushes`),
  and what does not fill a batch of 16 while no flush falls due by time (`LeftIsRestOfBatch`). One token and
  a failure lose the token (`TokenLostOnFailure`).
- The stream of a job starts with the job's row, and `sendChat` takes its `jobId` and `provider` from every
  `job` event: what it returns are the row's properties of those names, not the answer of the request that
  created the job (`AnswerReachesCaller`). `JobIdIsLost` is a row of the table `jobs`, whose key is `id`: job id
  and provider are undefined in the end.
- The verdict `all-to-all` speaks of the GPUs that have a link. More than two GPUs of a table are all linked pair by pair
  if and only if the verdict is `all-to-all` and none of them is without a link (`TableVerdict`);
  `LoneGpuIsOverlooked` is a table of four GPUs with one unlinked that is called `all-to-all`.
- The comment at `packages/gpu/src/interconnect.js:168` says that xGMI weights above 30 are ignored. They are, but every
  row below the header is read as weights, those of later tables too: `LaterTableIsReadToo` is a table of weights 40
  with one of hops below it, and its two GPUs are called a pair. `RocmTableYieldsLinks` says exactly which pairs are
  linked.
- A key of the rate limiter gets up to 2·max − 1 answers `ok` within one window length, and that bound is
  reached (`IntervalBound`, `IntervalBoundIsTight`).
- A job picked once ends exactly once or is still running (`PickedOnceEndsOnce`). The published job counters
  add up after every step if and only if no job is picked while a call for it is still running
  (`BalancedIffNoOverlap`).

## Model

| member | source | states |
|---|---|---|
| Sanitizer.FindOpen | apps/web/lib/sanitize-stream.js:19-25 | the result is an open tag of the pattern's grammar and no open tag starts further left; none is missed |
| Sanitizer.TagHasNoInnerBracket | apps/web/lib/sanitize-stream.js:23-25 | inside an open tag there is no angle bracket: open tags cannot overlap |
| Sanitizer.TagEndIsUnique | apps/web/lib/sanitize-stream.js:23-25 | at most one open tag starts at a position |
| Sanitizer.FindOpenAppend | apps/web/lib/sanitize-stream.js:58-65 | an open tag already complete in the buffer is still the leftmost one after any further text |
| Sanitizer.SafeLength | apps/web/lib/sanitize-stream.js:67-78 | fewer than 32 characters are held, from the last `<` on, and nothing is released that could still become a tag of at most 32 characters |
| Sanitizer.StreamSanitizer.Process | apps/web/lib/sanitize-stream.js:40-81 | output, buffer and mode are those of the scan of the old buffer with the chunk appended; a missing chunk changes nothing |
| Sanitizer.StreamSanitizer.Flush | apps/web/lib/sanitize-stream.js:82-90 | the held text is emitted unless a block is being suppressed; the machine is fresh afterwards |
| Sanitizer.SanitizeText | apps/web/lib/sanitize-stream.js:97-100 | the one-shot form computes the whole-text specification: keep up to the leftmost open tag, drop through the first matching close tag or to the end |
| Sanitizer.ScanIsClean | apps/web/lib/sanitize-stream.js:40-90 | the machine's output and flush together are the whole-text specification, from either mode |
| Sanitizer.ScanAppend | apps/web/lib/sanitize-stream.js:40-81 | scanning a text, then what was kept with new text, is scanning all of it at once, when the consumed tags fit |
| Sanitizer.SanitizeStream | tests/sanitize-stream.test.js:16-23 | a loop of `process` calls and a `flush` yields the output of the run of the machine |
| Sanitizer.StreamedIsClean | apps/web/lib/sanitize-stream.js:14-16 | for every list of chunks whose consumed tags fit, the streamed output is the specification of the concatenation |
| Sanitizer.ShortTagsFit | apps/web/lib/sanitize-stream.js:67-71 | the condition follows when no open tag anywhere in the text is longer than 32 characters |
| Sanitizer.CutsNeverShowIffTagsFit | apps/web/lib/sanitize-stream.js:67-75 | the exact meaning of 32: at every moment of every cutting the output is the clean form of the text so far, if and only if no suppressed block is opened by a longer tag |
| Sanitizer.LongTagWitness | apps/web/lib/sanitize-stream.js:67-75 | a concrete 33-character tag, cut after 32, comes through instead of being suppressed |
| Sanitizer.CleanTextPasses | tests/sanitize-stream.test.js:41-46 | text without an open tag comes through unchanged under every cutting |
| Sanitizer.LatencyBound | apps/web/lib/sanitize-stream.js:67-75 | after every `process` of every stream at most 31 characters are held outside suppression |
| Sanitizer.IdempotentIffNothingRejoins | apps/web/lib/sanitize-stream.js:58-65 | a second pass changes nothing, and the output has no open tag, if and only if no kept piece completes a tag begun in the kept text before it |
| Sanitizer.ClosedNeverRejoins | apps/web/lib/sanitize-stream.js:58-65 | nothing is re-joined when the last angle bracket kept before every removed block is `>` |
| SanitizerGrammar.RejoinedTagIsLeft | apps/web/lib/sanitize-stream.js:52-64 | a block inside a tag: the tag around it is left, and a second pass removes it |
| SanitizerGrammar.GrammarIs | apps/web/lib/sanitize-stream.js:19-25 | the pattern matches exactly `<ip_reminder>`, `<system-reminder>` and the tags of the one namespace whose local name is one or more letters, digits, `_` or `-` |
| SanitizerGrammar.UntaggedTextPasses | apps/web/lib/sanitize-stream.js:23-81 | a text in which no such tag is written is the output, whole and under every cutting |
| SanitizerGrammar.BlockIsDropped | apps/web/lib/sanitize-stream.js:42-65 | for every such tag: after text without a tag, the block through its first close tag is dropped with its tags, whatever it holds, and the rest is treated as if it stood alone |
| SanitizerGrammar.UnclosedBlockIsDropped | apps/web/lib/sanitize-stream.js:40-90 | a block that is never closed is dropped to the end of the text |
| Text.IndexOfAppend | apps/cli/lib/remote-chat.js:92-94 | appending text never moves a leftmost delimiter that has been seen |
| Text.SplitAppend | packages/engine/src/protocol.js:78-87 | cutting a buffer now and the rest with new text later gives the parts of cutting everything at once |
| Text.TrimIs | packages/engine/src/protocol.js:52 | trimming removes the white space at both ends and nothing in between |
| Sse.LineReader.OnChunk | apps/cli/lib/remote-chat.js:89-111 | the parsed events of one chunk and the state left behind: buffered text, pending event name and data lines |
| Sse.LineReader.Flush | apps/cli/lib/remote-chat.js:74-87 | yields what is pending, its data parsed or raw when parsing fails, and clears it; leaves it alone when there is nothing to yield |
| Sse.StreamChatEvents | apps/cli/lib/remote-chat.js:69-115 | the parsed events of a body arriving in any chunks, the trailing one included, for any parse function |
| Sse.LineReaderIgnoresCuts | apps/cli/lib/remote-chat.js:89-114 | any two cuttings of the same text yield the same events |
| Sse.ParseFrame | packages/sdk-js/src/chat.js:117-140 | the frame of a block with its data parsed or raw, or none for an empty block, a leading comment or no data line |
| Sse.FrameReader.OnChunk | packages/sdk-js/src/chat.js:97-111 | the parsed frames of the blocks completed by a chunk, and the text left over |
| Sse.ParseSseFrames | packages/sdk-js/src/chat.js:92-115 | the parsed frames of a body arriving in any chunks, the tail included, for any parse function |
| Sse.FrameReaderIgnoresCuts | packages/sdk-js/src/chat.js:97-115 | any two cuttings of the same text yield the same frames |
| SseLaws.FieldLineIsRead | apps/cli/lib/remote-chat.js:93-109 | a field line, with or without the space after the colon and the carriage return at its end: `event` replaces the name, `data` adds a line, any other field does nothing |
| SseLaws.BlankLineYields | apps/cli/lib/remote-chat.js:74-100 | a blank line yields what is pending, as a `message` when unnamed, unless there is no data and no name, or an empty one; then it changes nothing |
| SseLaws.FieldLineIsParsed | packages/sdk-js/src/chat.js:122-134 | in a frame `event` and `id` replace, `data` adds a line, other fields do nothing, and a carriage return is part of the value |
| SseLaws.JoinIs | packages/sdk-js/src/chat.js:136 | data lines are joined with one newline between every two of them |
| SseAgreement.TextIsBlocks | apps/cli/lib/remote-chat.js:92-114 | reading line by line is reading block by block, with the empty event name a block may leave behind |
| SseAgreement.BlockEvents | packages/sdk-js/src/chat.js:118-139 | what each of the two readers makes of one block, in terms of the block's own fields |
| SseAgreement.AgreeBlockwise | packages/sdk-js/src/chat.js:102-110 | the two event lists are equal if and only if they agree on every block; the frame-based one is never longer |
| SseAgreement.AgreeBlockwiseParsed | packages/sdk-js/src/chat.js:136-139 | the same for the events with their data parsed: parsing hides no disagreement |
| SseAgreement.ReadersAgreeIff | apps/cli/lib/remote-chat.js:69-115 | both readers yield the same events, under any two cuttings, before and after parsing the data with any function, if and only if every block is compatible |
| SseAgreement.ReadersAgreeWithTailIff | apps/cli/lib/remote-chat.js:69-115 | with a partial last line, which one reader drops and the other reads, the parsed events are equal, for every parse function, if and only if every block, the last with the partial line, yields the same, or the frame-based reader skips one block and catches up |
| SseAgreement.TextsAgreeWithTailIff | apps/cli/lib/remote-chat.js:112-114 | the same for the data texts before parsing |
| SseAgreement.ParsingHidesTail | packages/sdk-js/src/chat.js:136-139 | a stream on which the data texts of the readers differ and the parsed numbers do not |
| SseAgreement.PlainBlocksAgree | packages/sdk-js/src/chat.js:118-135 | blocks that do not open with a comment and have data when they name an event are compatible |
| SseAgreement.CommentFirstDisagrees | packages/sdk-js/src/chat.js:118 | a block opening with a comment is read by the line-based reader only |
| SseAgreement.UnterminatedDisagrees | apps/cli/lib/remote-chat.js:112-114 | a last line without newline is read by the frame-based reader only |
| SseAgreement.CarriageReturnDisagrees | apps/cli/lib/remote-chat.js:93 | only the line-based reader strips carriage returns |
| SseWire.FrameIsJoin | apps/web/app/api/chat/stream/[jobId]/route.js:27-33 | a frame is its field lines joined, then a blank line |
| SseWire.LineReaderReadsBack | apps/web/app/api/chat/stream/[jobId]/route.js:27-77 | for every list of frames and heartbeats and every cutting the line-based reader yields exactly the events sent |
| SseWire.FrameReaderReadsBack | apps/web/app/api/chat/stream/[jobId]/route.js:27-77 | the frame-based reader yields exactly the frames sent, ids included |
| ChatClient.SendChat | packages/sdk-js/src/chat.js:45-87 | text, job id, provider and metadata accumulated from the created job and the frames up to the first `done`, or the failure of the first `error` |
| ChatClient.TranslatedKinds | apps/cli/lib/chat-executor.js:130-164 | each translated event is to the client what the engine message was, with the same text or error |
| ChatClient.ClientGetsStreamedText | packages/sdk-js/src/chat.js:66-86 | reading the events of a job that ends with its only `done` collects exactly the streamed tokens and leaves job id and provider alone |
| ChatClient.CollectThrows | packages/sdk-js/src/chat.js:78-82 | `sendChat` throws the message of the first error it reads |
| ChatClient.DoneEventCarriesReturnedText | apps/cli/lib/chat-executor.js:146-155 | the last event carries the text the job returns |
| ChatClient.CollectIs | packages/sdk-js/src/chat.js:60-87 | of any events up to the first `done` or `error`: the texts of the tokens in order, the data of the last `meta`, job id and provider of the last `job`; or the message of that `error`, "chat error" when it has none |
| ChatClient.JobCreatedSays | packages/sdk-js/src/chat.js:45-47 | the first event carries job id, provider and status of the answer to the request |
| ChatWire.ServedReadsBack | apps/web/app/api/chat/stream/[jobId]/route.js:62-105 | frames made of stored job events, heartbeats between them, decode to those events |
| ChatWire.ClientsReadBack | apps/web/app/api/chat/stream/[jobId]/route.js:61-68 | both clients read the job row and then exactly the job's events, however the response was cut |
| ChatWire.TranslationsAreTidy | apps/cli/lib/chat-executor.js:130-164 | the events of messages with a one-line type and distinct property names can be sent as frames |
| ChatWire.AnswerReachesCaller | packages/sdk-js/src/chat.js:49-86 | the caller of `sendChat` gets the concatenation of the generation's tokens, and job id and provider of the row in the stream |
| ChatWire.StdoutReachesCaller | packages/sdk-js/src/chat.js:60-87 | the whole way for every ended answer, later exits included, from the engine's stdout cut anyhow and mixed with other generations, over the posted and served events, to the text `sendChat` returns |
| ChatWire.ErrorReachesCaller | packages/sdk-js/src/chat.js:78-82 | a generation that ends with an engine error: `sendChat` throws the engine's message |
| ChatWire.FailureReachesCaller | apps/cli/lib/chat-executor.js:172-178 | a job that threw earlier: what the daemon posts about it is what `sendChat` throws, whatever was delivered before |
| ChatWire.StdoutFailureReachesCaller | packages/sdk-js/src/chat.js:60-87 | the whole way for answers ended by an engine error or cut short by an exit, from the engine's stdout to what `sendChat` throws |
| ChatWire.JobIdIsLost | apps/web/app/api/chat/stream/[jobId]/route.js:61 | a concrete job whose row in the stream leaves job id and provider undefined for the caller |
| Protocol.NdjsonSplitter.Push | packages/engine/src/protocol.js:78-87 | yields the decoded complete lines of the buffer with the chunk, keeps the rest |
| Protocol.PushAllIsOnePush | packages/engine/src/protocol.js:69-88 | any chunks yield what their concatenation yields, and what stays buffered has no newline |
| Protocol.NdjsonRoundTrip | packages/engine/src/protocol.js:47-88 | under every cutting of the concatenated encodings exactly the messages sent come out, stamped with the version, in order, the buffer empty |
| Protocol.DecodeIs | packages/engine/src/protocol.js:51-67 | a line is parsed without the white space around it; what does not parse and an object of another version than 1 become error messages |
| Protocol.BlankLineDecodes | packages/engine/src/protocol.js:52-53 | a line of white space yields nothing |
| Protocol.Stamped | packages/engine/src/protocol.js:47-49 | an encoded message has version 1 unless it has its own, and all its properties |
| Messages.SpreadGet | packages/engine/src/protocol.js:48 | a spread object has its own properties and, where it has none, those spread before |
| FlatJson.ParseEscaped | packages/engine/src/protocol.js:48-56 | an escaped string parses back to itself whatever follows its closing quote |
| FlatJson.CodecRoundTrips | packages/engine/src/protocol.js:47-67 | every flat object with distinct property names survives the codec, in one line without outer white space |
| FlatJson.WireRoundTrip | packages/engine/src/protocol.js:47-88 | with that codec the wire round trip needs no assumption beyond distinct property names other than `v` |
| FlatJson.EscapesAre | packages/engine/src/protocol.js:48 | quote, backslash and control characters are escaped as JSON says, nothing else is |
| FlatJson.LineOnTheWire | packages/engine/src/protocol.js:47-49 | one encoded message, character by character |
| AsyncQueues.AsyncQueue.Push | packages/engine/src/async-queue.js:22-27 | a value goes to the oldest waiting reader or is buffered; nothing on a closed queue |
| AsyncQueues.AsyncQueue.Fail | packages/engine/src/async-queue.js:29-37 | closes, remembers the error and rejects every waiting reader |
| AsyncQueues.AsyncQueue.End | packages/engine/src/async-queue.js:39-46 | closes and tells every waiting reader the end |
| AsyncQueues.AsyncQueue.Next | packages/engine/src/async-queue.js:48-62 | the oldest buffered value, else the end or the failure, else a new waiter |
| AsyncQueues.EveryRunIsFifo | packages/engine/src/async-queue.js:22-62 | in every interleaving the k-th read is answered with the k-th accepted value and the rest follows from that |
| AsyncQueues.NeverBothWaiting | packages/engine/src/async-queue.js:14-62 | buffered values and waiting readers never coexist; a closed queue has no waiters |
| AsyncQueues.SettledOnce | packages/engine/src/async-queue.js:22-62 | a settled read keeps its outcome whatever happens later |
| AsyncQueues.ValuesBeforeEnd | packages/engine/src/async-queue.js:48-55 | end and failure are observed only after every accepted value |
| AsyncQueues.AcceptedIsPushed | packages/engine/src/async-queue.js:22-23 | the accepted values are exactly those pushed before the queue was closed, in order |
| AsyncQueues.EveryReadIsAnswered | packages/engine/src/async-queue.js:14-62 | for every run: the k-th read gets the k-th value pushed before the first `end` or `fail`; past the last of them it waits until then and is told which it was, with its error |
| Engine.EngineProcess.constructor | packages/engine/src/engine-process.js:31-59 | a started engine: no streams, open, readiness awaited |
| Engine.EngineProcess.OnMessage | packages/engine/src/engine-process.js:68-96 | one message settles readiness, is logged, goes to the live stream of its id and ends it when terminal, or refuses readiness |
| Engine.EngineProcess.OnStdout | packages/engine/src/engine-process.js:66-98 | a chunk is handled as its messages in order |
| Engine.EngineProcess.OnExit | packages/engine/src/engine-process.js:100-111 | closes once, fails exactly the live streams, refuses readiness if still awaited |
| Engine.EngineProcess.FailStreams | packages/engine/src/engine-process.js:104 | every live stream is failed and no other, in whatever order |
| Engine.EngineProcess.OnChildError | packages/engine/src/engine-process.js:113-119 | refuses readiness if still awaited, nothing else |
| Engine.EngineProcess.Generate | packages/engine/src/engine-process.js:126-143 | a fresh stream registered under the id, or an exception and no change on a closed engine |
| Demultiplexing.HandlesWholeText | packages/engine/src/engine-process.js:66-98 | whatever the cutting and whatever happens in between, the messages handled are those of the whole text |
| Demultiplexing.EventsAreActions | packages/engine/src/engine-process.js:66-98 | a run over chunks is a run over single messages and signals |
| Demultiplexing.LiveStreamGetsItsMessages | packages/engine/src/engine-process.js:81-90 | a live stream accepts exactly the messages carrying its id through the first terminal one and ends as specified |
| Demultiplexing.StreamGetsItsMessages | packages/engine/src/engine-process.js:66-143 | over every history the stream of a `generate` holds exactly what its specification lists and is open, ended or failed as that says |
| Demultiplexing.DeadStreamIsFrozen | packages/engine/src/engine-process.js:85-88 | an ended, failed or replaced stream accepts nothing more |
| Demultiplexing.StreamsAreIsolated | packages/engine/src/engine-process.js:81-90 | a stream depends only on the messages of its id, the calls for its id and the exit |
| Demultiplexing.ReadySettlesOnce | packages/engine/src/engine-process.js:49-52 | once settled, readiness never changes |
| Demultiplexing.ExitIsFinal | packages/engine/src/engine-process.js:100-111 | after an exit no stream is ever live again and readiness has settled |
| EngineLaws.ReadinessIsSettled | packages/engine/src/engine-process.js:49-119 | readiness over every history: the first of a `ready`, an error message no running generation gets, a process error or the exit decides it, each in its way; before that it is awaited |
| EngineLaws.CarriesIs | packages/engine/src/engine-process.js:68-84 | a message belongs to the nonempty id it names, unless it is a `ready` or a `log` |
| EngineLaws.TerminalIs | packages/engine/src/engine-process.js:85-88 | `done` and `error` end a generation, nothing else does |
| EngineLaws.StartErrorIs | packages/engine/src/engine-process.js:92-96 | readiness is refused with the text of the message, or a default without one |
| Demultiplexing.RunKeepsValid | packages/engine/src/engine-process.js:66-143 | in every reachable state live streams are distinct and open, every queue is in order, and a closed engine has none live |
| ChatExecutor.EventBuffer.Push | apps/cli/lib/chat-executor.js:31-39 | the event is appended and the buffer flushed at 16 events or 250 ms |
| ChatExecutor.EventBuffer.Flush | apps/cli/lib/chat-executor.js:40-50 | what is buffered becomes one post, whether it succeeds or not; nothing when empty |
| ChatExecutor.PushFlushesOrWaits | apps/cli/lib/chat-executor.js:31-50 | with the 16th event, or 250 ms or more after the last flush, everything buffered goes out in one post; otherwise the event waits and nothing is posted |
| ChatExecutor.ExecuteChatJob | apps/cli/lib/chat-executor.js:127-169 | the posts and the result of the loop over a stream that ends or fails |
| ChatExecutor.ExecuteConserves | apps/cli/lib/chat-executor.js:127-169 | posted and buffered events together are the translation of the stream, in order; batches hold 1 to 16 events; nothing stays buffered unless the stream failed |
| ChatExecutor.LeftUnposted | apps/cli/lib/chat-executor.js:31-39 | a failing stream leaves unposted exactly as many events as wait under the batching rule |
| ChatExecutor.NothingLeftIffLastPushFlushes | apps/cli/lib/chat-executor.js:130-167 | a failing stream leaves nothing unposted if and only if its last push fills a batch or comes 250 ms after the last flush |
| ChatExecutor.LeftIsRestOfBatch | apps/cli/lib/chat-executor.js:33-38 | while no flush falls due by time, what is left is the number of events modulo 16 |
| ChatExecutor.StillWaitingIsRecent | apps/cli/lib/chat-executor.js:31-39 | over a run: a buffer that still holds events holds fewer than 16 and had its last push less than 250 ms after its last flush |
| ChatExecutor.MetaEventSays | apps/cli/lib/chat-executor.js:132-140 | the `meta` event, property by property, with its defaults |
| ChatExecutor.DoneEventSays | apps/cli/lib/chat-executor.js:146-155 | the `done` event: the streamed text or the longer full text, the reason or `stop`, the time |
| ChatExecutor.OtherEventsSay | apps/cli/lib/chat-executor.js:141-164 | tokens and errors carry their text or a default, other messages go through unchanged |
| ChatExecutor.AccumulatedIs | apps/cli/lib/chat-executor.js:141-149 | tokens are counted and their texts appended; a `done` replaces the text only by a longer one |
| ChatExecutor.TokenLostOnFailure | apps/cli/lib/chat-executor.js:130-167 | a token followed by a failure is never posted |
| ChatExecutor.PostsSucceed | apps/cli/lib/chat-executor.js:45-49 | when the world accepts every post, every post made is accepted |
| ChatExecutor.AllDelivered | apps/cli/lib/chat-executor.js:45-49 | accepted posts deliver everything posted |
| ChatExecutor.ReturnedText | apps/cli/lib/chat-executor.js:141-149 | a job returns the streamed tokens, or the engine's full text when longer, and counts the tokens |
| EndToEnd.ReaderSeesAccepted | packages/engine/src/async-queue.js:48-62 | a reader that asked for every accepted value has read exactly those |
| EndToEnd.StreamFromText | packages/engine/src/engine-process.js:66-143 | a stream holds a prefix of the messages carrying its id in the text that arrived after its `generate`, through the first terminal one, and all of them unless an exit or a second `generate` cut it short |
| EndToEnd.ViewWithinOwn | packages/engine/src/engine-process.js:81-90 | a stream still open or ended has all its own messages, an interrupted one a prefix without a terminal message |
| EndToEnd.UninterruptedEnds | packages/engine/src/engine-process.js:85-88 | without an exit or a second `generate`, a generation whose messages reach `done` or `error` has ended |
| EndToEnd.JobIsFaithful | apps/cli/lib/chat-executor.js:130-169 | a job that has read its ended stream has delivered the translation of its messages and nothing else |
| EndToEnd.PipelineIsFaithful | apps/cli/lib/chat-executor.js:112-170 | end to end: for every cutting, interleaving and clock in which the stream ended with `done`, the delivered batches are, in order, the translation of exactly the generation's messages, and nothing stays buffered |
| EndToEnd.JobIsRefused | apps/cli/lib/chat-executor.js:156-159 | an engine error: everything up to the error is delivered, nothing stays buffered, its message is thrown |
| EndToEnd.JobFails | apps/cli/lib/chat-executor.js:130-167 | an exit: its error is thrown, delivered and unposted events together are the translation of what arrived before |
| EndToEnd.PipelineFailsFaithfully | packages/engine/src/engine-process.js:81-110 | end to end for answers ended by an engine error or cut short by an exit |
| Base64Url.UnpackInverts | packages/auth/src/signed-request.js:45-54 | spreading bytes over six-bit groups loses nothing |
| Base64Url.PaddingRestored | packages/auth/src/signed-request.js:50-53 | the computed padding and alphabet swap restore the standard encoding exactly |
| Base64Url.RoundTrip | packages/auth/src/signed-request.js:45-54 | decoding inverts encoding on every byte string (section 5 of RFC 4648) |
| Base64Url.EncodedAlphabet | packages/auth/src/signed-request.js:45-48 | only the URL-safe alphabet is used and the length is never 1 modulo 4 |
| Base64Url.TextIs | packages/auth/src/signed-request.js:45-48 | the text of any bytes: each three are a number of 24 bits in four digits to the base 64, in the alphabet of section 5 of RFC 4648, one or two left over give two or three |
| Decimal.PrintIntInjective | packages/auth/src/signed-request.js:41-43 | different integers print differently |
| Decimal.PrintIsDecimal | packages/auth/src/signed-request.js:42 | a number is printed in decimal digits, the most significant first, with a sign when negative |
| Canonical.CanonicalStringInjective | packages/auth/src/signed-request.js:41-43 | equal canonical strings come from equal method, path, time, nonce and body hash, newlines in the nonce included |
| Canonical.FieldsAreLines | packages/auth/src/signed-request.js:41-43 | the canonical string is five lines: method in upper case, path, time, nonce, body hash |
| Canonical.CanonicalExample | packages/auth/src/signed-request.js:41-43 | the string of one request |
| Replay.ReplayCache.Contains | packages/auth/src/signed-request.js:179-187 | reports and prunes as the map in insertion order does |
| Replay.ReplayCache.Insert | packages/auth/src/signed-request.js:188-194 | the oldest entry makes room at the ceiling, then the nonce is set |
| Replay.VerifySignedRequest | apps/web/lib/auth/verify-signed-request.js:42-62 | the verdict and the cache after window test, signature, look-up and recording |
| ReplayVerdicts.VerdictIs | apps/web/lib/auth/verify-signed-request.js:42-60 | for every cache in order: accepted if and only if the nonce is not empty, the signature checks out, the clock in whole seconds is within 60 s of the envelope on either side and no unexpired entry has the nonce; likewise when each refusal is given |
| ReplayVerdicts.HasIs | packages/auth/src/signed-request.js:179-187 | a nonce is found exactly when an unexpired entry has it; otherwise no entry has it afterwards |
| ReplayVerdicts.CacheAfter | packages/auth/src/signed-request.js:179-194 | a refused request changes nothing; an accepted one is recorded last for 120 000 ms, its own expired entry goes, and in a full cache the oldest other one |
| ReplayVerdicts.OnlyAuthenticNoncesAreHeld | apps/web/lib/auth/verify-signed-request.js:42-60 | over every run each entry was put there by an authentic request in time |
| Replay.AddAppends | packages/auth/src/signed-request.js:188-194 | a new nonce goes to the end, displacing the oldest entry only when the cache is full |
| Replay.RunKeeps | packages/auth/src/signed-request.js:173-195 | over every run: size within the ceiling, nonces distinct, expiry nondecreasing in insertion order |
| Replay.YoungEntrySurvives | packages/auth/src/signed-request.js:173-195 | the bounded cache agrees with an unbounded history for entries not expired with fewer than `max` acceptances since |
| Replay.NonceRefusedWithinTtl | packages/auth/src/signed-request.js:174-186 | an accepted nonce is refused for the whole time to live under that load |
| Replay.ReplayProtectionIsExact | apps/web/lib/auth/verify-signed-request.js:42-60 | for every bound on the time between window test and look-up, no continuation with fewer than `max` acceptances before the repeat accepts the envelope again if and only if it was dated early enough for the time to live to outlast its window by that bound, or the window was over |
| Replay.LoadBoundIsExact | packages/auth/src/signed-request.js:179-194 | an accepted nonce that comes back within its time to live, authentic, inside its window and not accepted in between, is accepted again if and only if `max` or more requests have been accepted since |
| Replay.FloodedCacheForgets | packages/auth/src/signed-request.js:188-194 | for every cache size a run of that many other requests after which the first envelope is accepted again |
| Replay.OneTimestampIsSafe | packages/auth/src/signed-request.js:143-147 | with one whole-second time per request no envelope is accepted twice under the load bound |
| Replay.DatedAheadIsAcceptedTwice | packages/auth/src/signed-request.js:143-186 | a concrete envelope dated 60 s ahead is accepted again 120.999 s later |
| Replay.LagIsAcceptedTwice | packages/auth/src/signed-request.js:143-186 | a concrete envelope within the bound for no lag is accepted again when its look-up comes one millisecond after its window test |
| Topology.KeysTellPairsApart | packages/gpu/src/interconnect.js:117-119 | the string keys of the `seen` set are equal exactly for the same pair |
| Topology.ScanRow | packages/gpu/src/interconnect.js:107-121 | one row's linked cells are added, the first of each pair only |
| Topology.ParseMatrix | packages/gpu/src/interconnect.js:100-123 | the first link of every pair over all rows, in order |
| Topology.ParseNvidiaTopo | packages/gpu/src/interconnect.js:92-124 | the NVLink edges of the table, none without a header of GPU columns |
| Topology.ParseRocmTopo | packages/gpu/src/interconnect.js:171-206 | the xGMI edges below the first header line, none without one |
| Topology.ParsedLinks | packages/gpu/src/interconnect.js:100-123 | distinct pairs low to high, each a linked cell, and no linked cell's pair is missing |
| Topology.FirstCellNamesLink | packages/gpu/src/interconnect.js:117-120 | where cells of a pair differ, the first linked one, row by row, names the link |
| Topology.Classify | packages/gpu/src/interconnect.js:69-85 | the verdict from the links and the set of linked GPUs |
| Topology.PairsCount | packages/gpu/src/interconnect.js:79 | n GPUs have n(n-1)/2 pairs |
| Topology.LinksCount | packages/gpu/src/interconnect.js:78-82 | at most n(n-1)/2 links, with equality exactly when every pair is linked |
| Topology.KindIsRight | packages/gpu/src/interconnect.js:69-85 | each verdict is sound and complete over the linked GPUs, and `unknown` never occurs |
| Topology.MatrixKind | packages/gpu/src/interconnect.js:150-162 | `all-to-all` exactly when more than two GPUs are linked and every two have a linked cell in the matrix |
| Topology.AllPairsLinkedIff | packages/gpu/src/interconnect.js:69-83 | of more than two GPUs every pair is linked if and only if the verdict is `all-to-all` and none of them is without a link |
| Topology.TableVerdict | packages/gpu/src/interconnect.js:69-83 | the same for all GPUs a table names, when they are more than two |
| Topology.LoneGpuIsOverlooked | packages/gpu/src/interconnect.js:69-83 | a table with an unlinked GPU that is called `all-to-all` |
| Topology.DetectNvlink | packages/gpu/src/interconnect.js:58-86 | links and verdict of what the tool printed; available exactly when there are links |
| Topology.DetectXgmi | packages/gpu/src/interconnect.js:139-163 | the same for the xGMI table with its threshold |
| TopologyTables.WordsOfLine | packages/gpu/src/interconnect.js:93-106 | a line is read as its words, whatever the spacing |
| TopologyTables.TableReadsBack | packages/gpu/src/interconnect.js:93 | a printed table is read as the words of its lines, blank lines dropped |
| TopologyTables.ColumnsReadBack | packages/gpu/src/interconnect.js:97 | the columns are the GPU names of the header, other titles skipped |
| TopologyTables.RowsReadBack | packages/gpu/src/interconnect.js:102-106 | the GPU rows are read with their index and cells, other lines skipped |
| TopologyTables.WeightReadsBack | packages/gpu/src/interconnect.js:195-196 | a printed weight, whatever follows its digits, is a link exactly between 1 and the threshold |
| TopologyTables.NvidiaCellIs | packages/gpu/src/interconnect.js:112-120 | a cell is an NVLink if and only if it is `NV` in any case and digits, kept in upper case |
| TopologyTables.NvidiaTableReadsBack | packages/gpu/src/interconnect.js:92-106 | a printed NVLink table is parsed as the matrix it prints |
| TopologyTables.RocmTableReadsBack | packages/gpu/src/interconnect.js:171-191 | a printed xGMI table, after any title lines, is parsed as the matrix it prints |
| TopologyTables.NvidiaTableYieldsLinks | packages/gpu/src/interconnect.js:58-124 | a printed NVLink table, with any other lines in it, yields a link for exactly the pairs with `NV` and a number in one row or the other, marked with it in upper case, and the right verdict |
| TopologyTables.PcieTableHasNoLinks | packages/gpu/src/interconnect.js:63-114 | a table whose cells are all X, SYS, NODE, PHB, PXB or PIX yields no links and the verdict `none` |
| TopologyTables.RocmTableYieldsLinks | packages/gpu/src/interconnect.js:139-206 | a printed table of weights, any lines below included, yields a link for exactly the pairs with a weight from 1 to the threshold in some row, and the right verdict |
| TopologyTables.LaterTableIsReadToo | packages/gpu/src/interconnect.js:165-206 | two GPUs of weight 40 with a second table of small numbers below are linked |
| RateLimit.RateLimiter.Check | apps/web/lib/rate-limit.js:18-29 | the key's new entry and the answer it implies; other keys untouched |
| RateLimit.RateLimiter.Sweep | apps/web/lib/rate-limit.js:33-36 | exactly the expired entries go |
| RateLimit.SweepsChangeNoAnswer | apps/web/lib/rate-limit.js:31-36 | sweeps anywhere in a run change no answer |
| RateLimit.KeysDoNotInterfere | apps/web/lib/rate-limit.js:18-29 | what a key is told depends only on the times it was checked |
| RateLimit.AnswersOfWindow | apps/web/lib/rate-limit.js:18-29 | the i-th check of a window is ok up to `max`, says how many are left and when the window ends; the first check after that starts all over |
| RateLimit.WindowBound | apps/web/lib/rate-limit.js:21-27 | each window answers `ok` at most `max` times |
| RateLimit.IntervalBound | apps/web/lib/rate-limit.js:21-27 | at most 2·max − 1 `ok` answers in any half-open interval of one window length |
| RateLimit.IntervalBoundIsTight | apps/web/lib/rate-limit.js:21-27 | that many are reached |
| RateLimit.RunBounds | apps/web/lib/rate-limit.js:14-42 | over every run, with other keys and sweeps in it, the answers of a key keep both bounds |
| RateLimit.TicksAreAnswers | apps/web/lib/rate-limit.js:18-29 | every check has one answer, and the checks counted ok are those answered ok |
| Receipts.ReceiptQueue.EnqueueReceipt | apps/web/lib/cpr/queue.js:22-36 | a new receipt is pending and due at once; a missing id or a known one is refused and changes nothing |
| Receipts.ReceiptQueue.MarkRetry | apps/web/lib/cpr/queue.js:84-103 | one more attempt, back-off from the incremented count, failed at the eighth |
| Receipts.ReceiptQueue.TryFlushReceipt | apps/web/lib/cpr/queue.js:42-65 | the row and the returned status for every kind of outcome |
| Receipts.ReceiptQueue.DrainPendingReceipts | apps/web/lib/cpr/queue-drain.js:22-66 | every selected row is flushed in turn, the tallies count the outcomes and add up to `scanned` |
| ReceiptLaws.AnswersAre | apps/web/lib/cpr/cpr-client.js:91-96 | success settles a receipt; 408, 429 and everything outside 400 to 499 is retried like no answer; any other 4xx ends it for good |
| ReceiptLaws.FailedAttemptIs | apps/web/lib/cpr/queue.js:14-103 | the wait after each of the eight failures in milliseconds; the eighth fails the receipt |
| ReceiptLaws.DrainSelects | apps/web/lib/cpr/queue-drain.js:27-36 | only due receipts are selected, all of them up to the limit, earlier ones first |
| ReceiptLaws.LimitIs | apps/web/lib/cpr/queue-drain.js:27 | a batch asks for 1 to 100 receipts |
| Receipts.AttemptMakesProgress | apps/web/lib/cpr/queue.js:84-103 | a configured flush ends a pending receipt or uses up an attempt |
| Receipts.SaidStatusIsExact | apps/web/lib/cpr/queue.js:38-65 | the returned status is the row's new one, except exactly when the last attempt fails |
| Receipts.PendingIsReached | apps/web/lib/cpr/queue.js:84-103 | runs reach a pending receipt with any number of attempts up to seven |
| Receipts.FailedIsCalledPending | apps/web/lib/cpr/queue.js:63-64 | a run after which the drain says pending of a receipt that has failed |
| Receipts.RunKeeps | apps/web/lib/cpr/queue.js:84-103 | over every run a pending receipt has attempts left, a failed one none, and failures are at least the back-off apart |
| Receipts.SettledReceiptsStay | apps/web/lib/cpr/queue.js:76-114 | sent, failed and permanently failed receipts never change again |
| Receipts.BatchRows | apps/web/lib/cpr/queue-drain.js:48-64 | the drain of the run model is the one the method carries out |
| Receipts.WaitsAddUp | apps/web/lib/cpr/queue.js:18-20 | the k-th failure comes at least 30·(2^(k+1) − 2) s after the first, counting from 0 |
| Receipts.BackoffHolds | apps/web/lib/cpr/queue-drain.js:30-36 | a receipt that failed k times is not selected for at least 30·2^k s |
| Receipts.LastAttemptIsLate | apps/web/lib/cpr/queue.js:14-20 | the eighth attempt comes at least 7620 s after the first failure, and there is no ninth |
| Jobs.JobStats.Pick | apps/cli/commands/start.js:385-387 | the counters and the active set after the synchronous start of a job |
| Jobs.JobStats.Complete | apps/cli/commands/start.js:407-408 | the same after a completion |
| Jobs.JobStats.Fail | apps/cli/commands/start.js:411-412 | the same after a failure |
| Jobs.CountersCount | apps/cli/commands/start.js:385-412 | over every interleaving each counter counts its own steps, and an id is active exactly when its last step is a pick |
| Jobs.EveryPickIsAccountedFor | apps/cli/commands/start.js:383-424 | in every interleaving, for each id, the calls begun have completed, failed or are still running; and so in total by the counters |
| Jobs.PickedOnceEndsOnce | apps/cli/commands/start.js:383-424 | a job picked once has exactly one of: one completion, one failure, or a call still running |
| Jobs.NoOverlapIffAlternating | apps/cli/commands/start.js:383-440 | no id is picked while in flight if and only if, for every id, picks and ends alternate: each pick ends exactly once before the next |
| Jobs.BalancedIffNoOverlap | apps/cli/commands/start.js:383-440 | picked = completed + failed + active after every step, if and only if no id is picked while it is still being processed |
| Ranking.SortIsStableSort | packages/deploy-providers/src/pricing.js:74 | a descending permutation that keeps ties in order |
| Ranking.PresetsAreProper | packages/deploy-providers/src/pricing.js:15-20 | every preset weighs price, no weight is negative and they sum to 1 |
| Ranking.NormalizedPriceInUnit | packages/deploy-providers/src/pricing.js:58-66 | normalised prices lie in [0, 1], equal prices included |
| Ranking.ScoreInUnit | packages/deploy-providers/src/pricing.js:67-71 | scores lie in [0, 1] |
| Ranking.CheaperScoresHigher | packages/deploy-providers/src/pricing.js:65-71 | same provider and availability, lower price: a strictly better score |
| Ranking.RankingIsRight | packages/deploy-providers/src/pricing.js:44-75 | the result is the eligible offers with their scores, best first, ties in order |
| Ranking.CheaperComesFirst | packages/deploy-providers/src/pricing.js:62-75 | a strictly cheaper offer of the same provider and availability always comes first |
| Ranking.IneligibleChangesNothing | packages/deploy-providers/src/pricing.js:50-56 | offers that are not eligible change nothing, wherever they stand |
| RankingLaws.RankedAreWanted | packages/deploy-providers/src/pricing.js:44-56 | exactly the offers not known to be unavailable and within the cap are ranked, each as often as it was offered; only the four presets are known |
| RankingLaws.ScoresAre | packages/deploy-providers/src/pricing.js:15-71 | every score: the price on the scale from the highest wanted price (0) to the lowest (1), weighed with what is known of the provider as the preset says |

## Left out

- Text is a sequence of characters: UTF-8 decoding and surrogate pairs are not modelled, and lengths count Unicode scalar values.
- The parse function of the two SSE readers is a parameter; HTTP statuses, missing bodies and requests are not part of this model.
- Full JSON: the engine theorems hold for any parse function; `FlatJson` is the compact form of flat objects with string, natural number and null values. Its parser rejects white space between tokens, nesting and surrogate escapes. A line holding a bare `null` is not modelled, nor the message texts of parse errors.
- The stream route: the database behind it, its subscription and its fallback to another provider are left out; frames are made of the events as they were posted, with their stringified data free of line breaks, as the codec proves for its own output.
- ChatClient.SendChat: takes the answer of the request that created the job as a parameter; the requests themselves and their HTTP failures are left out; nested provider objects are single values, and a data text that does not parse has no properties (as `meta` it would be kept raw).
- Engine.EngineProcess.Generate: the id is a string parameter, which covers a given and a random one; the message written to the child and the `cancel` handle are left out.
- ChatExecutor.ExecuteChatJob: begins where the stream exists; engine creation and `duration_ms` are left out.
- Receipts.ReceiptQueue.EnqueueReceipt: the job id and the payload are left out.
- The engine process is modelled once started: spawning, `_send`, `cancel` and `shutdown` are writes to the child and change no modelled field. `_send` throwing inside `generate` needs a closed engine, which `generate` has excluded.
- `fail` on a queue always receives an error object, as in its callers; the splitter's laziness between yields is not visible because its consumer drains it.
- The executor's configuration is left out, and a failure of the post in `failChatJob`; clock readings, time stamp texts and post outcomes are arbitrary values of a world parameter.
- Schnorr verification, SHA-256 and the envelope's structural checks are one flag of a request, except the empty nonce; the canonical string is proved injective for newline-free methods and paths, integer times and hashes of 64 characters, and upper-casing is that of ASCII.
- Base64Url.RoundTrip: is about encoded text; decoding of arbitrary text skips characters outside the alphabet, which approximates Node's leniency about a `=` in the middle.
- The replay cache assumes a clock that never goes back; the time of an envelope is any real number of seconds, without the rounding of floating point; several processes with separate caches are not modelled.
- Topology.DetectNvlink: the raw text returned beside an empty list of links is left out, for Topology.DetectXgmi as well; so are the other interconnects.
- The tables of the topology parsers are modelled on words separated by white space; the regular expressions' treatment of line terminators other than newline is not. Both parsers share one matrix loop with their cell tests as parameter.
- The receipts database is a map by receipt id, with the query's answer as a parameter that must be an allowed one; every row write succeeds or throws before changing the row; a row's payload carries the row's id; concurrent flushes of one receipt are not modelled. `last_error`, `sent_at` and `job_id` are left out.
- Of the daemon's `stats` record only the job counters and the active set are modelled; heartbeats, commands and benchmarks are not.
- Ranking is over real numbers: no rounding, no NaN; the 1e-6 floor of the price range is kept.
- Training and engine backends, database models, web and desktop user interfaces, command-line prompts, cloud adapters and hardware probing are left out, as are small lookup tables and one-branch helpers.
