# Framer: a verified model

Framer is an HTTP/2 and gRPC load client together with a converter for request files. This project models
its five hard parts in Dafny and proves, for all inputs, all cuts of the input into reads and all
interleavings of its goroutines, what they are relied upon for.

| part | modules |
|---|---|
| send path | `FrameHeader`, `Request`, `RequestFacts`, `Sender`, `SenderFacts`, `SenderRuns`, `SendPath`, `Stranding` |
| receive path | `Framing`, `Receiver`, `Subprocessors` |
| stream bookkeeping | `Session`, `SessionHistory`, `SessionFacts`, `SessionLimit`, `Bookkeeping`, `Store` |
| send path and bookkeeping together | `Attribution` |
| conversion pipeline | `Pipeline` |
| file formats and small utilities | `Utf8`, `JsonString`, `Metadata`, `RequestText`, `Container`, `Decimals`, `Lru`, `Duration` |
| shared | `Bytes` |

How the parts are modelled:

* Code that runs in one goroutine and changes things step by step is a class or a method with loops
  (`Request.RequestAdapter`, `Receiver.Framer`, `Receiver.Processor`, `Subprocessors.Handlers`,
  `JsonString.EscapeStringAppend`, `Metadata.MarshalAppend`, `Container.Reader`, `Lru.LRU`,
  `Store.ShardedStreamsMap`). Each is tied to a function or a history about which the laws are proved. Of the
  objects behind the session's locks (`Bookkeeping`), the stream pool is proved to take exactly the session's
  steps; the window and the limiter do the arithmetic of those steps.
* Goroutines are state machines: `Sender` (loader/sender/sender.go:94-310), `Session`
  (loader/sender/sender.go:260-298 with loader/reciever/processor.go:150-295 and the objects they lock) and
  `Pipeline` (formats/converter/processor.go:48-171). Every channel or lock operation is one step, a
  rendezvous is a joint step, timers and cancellation are steps that may happen at any time, and a
  run is any sequence of enabled steps (`Reaches`). What a run has brought about is stated on its steps
  (`SenderRuns`, `SessionHistory`).
* Integers are unbounded except where the source's width shows: uint32 counters wrap (`Bytes.Shift`,
  `Session.Plus`, `Session.Minus`), lengths are cut to 24 or 32 bits when written.

Where the code does less than one would expect, the exact boundary is proved, both ways:

* the peer can read a request back exactly when its message fits in the first DATA frame
  (`RequestFacts.RoundTrip`), and its stream is ended exactly for the lengths of `RequestFacts.EndStreamFacts`;
* a request whose `SetUp` fails keeps its unit of the stream quota for ever
  (`SessionFacts.QuotaBalance`, `SessionFacts.FailuresExhaustQuota`);
* a frame waits without a timer exactly when the guard against an overfull batch fired for it
  (`SenderFacts.WaitsWithoutTimer`, `SenderFacts.StrandedIffOverflowed`); its stream is then cut short
  (`Stranding.StrandedStreamIsCut`), and requests of one HEADERS and one DATA frame get there
  (`Stranding.FrameCanBeStranded`);
* the stream limit is kept against every peer exactly when none of its terminal frames is surplus
  (`SessionFacts.StreamLimit`, `SessionLimit.LimitKeptIff`);
* a callback tells the request that attached it exactly when no later stream has acquired the stream object
  (`Attribution.TellsItsRequest`), which the order of response and callback does not guarantee
  (`Attribution.CanTellAnother`);
* `Process` of the pipeline always returns; with nothing happening from outside its result is an error exactly
  when conversion errors are fatal and some message does not convert (`Pipeline.ProcessResult`). In general
  nil means a complete output, and a writer that returns nil has missed a message exactly when the converter
  of its lane was cancelled with work left (`Pipeline.FinishedMeansAllHandled`, `Pipeline.FinishedMissesIff`).

Where the README of the repository and its code differ, the model follows the code: the container grammar
(README.md:92-102) asks for at least one request, nonempty tag and path lines and one line feed after a
payload, while the reader takes an empty file as a clean end, empty lines as they are, and any number of
line feeds after a payload.

## Model

| member | source | states |
|---|---|---|
| Bytes.ShiftFour | loader/reciever/processor.go:239-242 | four bytes shifted into a uint32 accumulator are their big-endian value, whatever the accumulator held before |
| FrameHeader.HeaderFields | frameheader/frameheader.go:15-58 | every field written reads back; the length reads back exactly when it is below 2^24 |
| FrameHeader.Fill | frameheader/frameheader.go:15-31 | writes the nine header bytes of its window and no other byte |
| FrameHeader.FillFields | frameheader/frameheader.go:38-58 | the four setters together write the same nine bytes and nothing else |
| Framing.OneShotConcat | loader/reciever/framer.go:25-56 | parsing a prefix and resuming with the rest equals parsing the whole stream |
| Framing.RestIsPartial | loader/reciever/framer.go:25-56 | what is left over after a parse is never a whole frame |
| Framing.OneShotOfWire | loader/reciever/framer.go:33-53 | well-formed frames written one after another are parsed back as the same list with nothing left |
| Framing.OneShotOfAnyWire | loader/reciever/processor.go:36-47 | any well-formed frames: they are read up to the first type without a processor or through the first GOAWAY or SETTINGS without ACK, and parsing stops exactly if there is one |
| Framing.WireOfOneShot | loader/reciever/framer.go:33-53 | the frames parsed and the rest are the stream, byte for byte |
| Receiver.Framer.Next | loader/reciever/framer.go:25-56 | header, payload and unread bytes are exactly the kept header followed by the buffer; a finished frame got all it was owed; the buffer shrinks whenever the loop goes on |
| Receiver.Processor.Process | loader/reciever/processor.go:60-95 | after any buffer the calls made and the leftover state mean the one-shot parse of all bytes seen; the loop terminates |
| Receiver.Processor.Run | loader/reciever/processor.go:50-58 | the same over a sequence of buffers, stopping early only on an error |
| Receiver.Receive | loader/reciever/processor.go:50-95 | for every cut: same frames in order, fragments of a frame contiguous under one header, one final call per frame, same unfinished frame, error exactly when the one-shot parse stops |
| Subprocessors.Handlers.Process | loader/reciever/processor.go:29-48 | each call has the effects and the new state given by `Handle` for its frame type |
| Subprocessors.Handlers.Data | loader/reciever/processor.go:150-180 | the DATA processor: accumulator, window update frame, end of stream |
| Subprocessors.Handlers.Rst | loader/reciever/processor.go:239-257 | the byte loop of RST_STREAM computes the shifted accumulator, which is never reset |
| Subprocessors.Handlers.WindowUpdate | loader/reciever/processor.go:271-295 | the byte loop of WINDOW_UPDATE; the increment is reset only when a window was credited |
| Subprocessors.Handlers.Ping | loader/reciever/processor.go:112-120 | the ping payload is collected over fragments and answered once |
| Subprocessors.Handlers.GoAwayFrame | loader/reciever/processor.go:308-339 | the two indexed loops and the append decode the payload byte by byte across fragments and leave a clean state |
| Subprocessors.AbsorbConcat | loader/reciever/processor.go:239-242 | absorbing two fragments in turn equals absorbing their concatenation, for every frame type |
| Subprocessors.FragmentationInvisible | loader/reciever/processor.go:112-357 | any run of calls has the same effects, and the same state between frames, as the run over its merged frames |
| Subprocessors.EffectsOfStream | loader/reciever/processor.go:60-95 | end to end: every call has a whole header, and the effects of receiving a stream depend on the stream only, not on its cut |
| Subprocessors.ResetCode | loader/reciever/processor.go:239-257 | a 4-byte RST_STREAM payload decodes to its big-endian code from any earlier state |
| Subprocessors.CreditValue | loader/reciever/processor.go:271-295 | a 4-byte WINDOW_UPDATE payload credits its big-endian increment from any earlier state |
| Subprocessors.GoAwayValue | loader/reciever/processor.go:308-339 | a GOAWAY payload of at least 8 bytes gives last stream id, code and debug data, and a clean state |
| Subprocessors.GoAwayCleanBetweenFrames | loader/reciever/processor.go:334-338 | after any complete frames the GOAWAY and ping decoders are empty |
| Subprocessors.WindowConservation | loader/reciever/processor.go:148-169 | increments queued plus accumulator equal the DATA bytes received; accumulator below 16383; increments legal; at least 49153 bytes of window remain for the peer |
| Subprocessors.EffectsAreDue | loader/reciever/processor.go:112-357 | over any frames of legal size and any answers of the store the effects are, frame by frame and in order, exactly those their types and flags ask for, and the window updates due |
| Subprocessors.StreamEffectsAreDue | loader/reciever/processor.go:60-95 | the same for a byte stream received in any cut |
| Subprocessors.UpdateReadsBack | loader/reciever/processor.go:137-162 | a queued window update, parsed and processed by the receiving side's own code, credits its increment |
| Subprocessors.PingsAnswered | loader/reciever/processor.go:112-120 | over any frames every PING is answered once, in order, with its own payload |
| Subprocessors.PongParses | loader/reciever/processor.go:103-110 | the answer to an 8-byte ping parses as a PING frame with ACK |
| Request.FrameHeaders.Get | datasource/request.go:52-62 | a new 9-byte window after all earlier ones; a full buffer is replaced by a new array, older windows stay where they are |
| Request.RequestAdapter.WriteHeader | datasource/request.go:120-132 | writing one header leaves the bytes of all earlier frames as they were |
| Request.RequestAdapter.SetUpHeaders | datasource/request.go:88-144 | leaves in memory exactly the frames of `HeaderFrames`, in disjoint windows, or none when the header list is too large |
| Request.RequestAdapter.SetUpPayload | datasource/request.go:146-215 | adds exactly the frames of `DataFrames`; earlier frames keep their bytes |
| Request.RequestAdapter.SetUp | datasource/request.go:221-236 | frames in memory equal `SetUpFrames`; an error exactly when the header list exceeds the limit; `Size` is the sum of 9 plus the announced lengths |
| RequestFacts.HeaderFacts | datasource/request.go:115-142 | header fragments join to the block; HEADERS first, then CONTINUATION; END_HEADERS on the last only; lengths at most the maximum |
| RequestFacts.MoreFacts | datasource/request.go:187-214 | later DATA frames join to the rest of the message; price equals length; END_STREAM on the last only, and only when it is short |
| RequestFacts.DataFacts | datasource/request.go:146-215 | DATA bodies join to the message; one frame exactly when the message fits; all lengths at most the maximum |
| RequestFacts.EndStreamFacts | datasource/request.go:165-198 | END_STREAM is on no DATA frame but the last, and there if and only if the message fits or its remainder is not a multiple of the maximum |
| RequestFacts.DataSums | datasource/request.go:172-207 | flow-control prices and announced DATA lengths both sum to the message length plus 5 |
| RequestFacts.RoundTrip | datasource/request.go:146-215 | the peer's parse of the wire bytes gives back exactly the intended frames if and only if the message is at most max - 5 bytes |
| RequestFacts.RoundTripFrames | datasource/request.go:154-183 | those frames are the header frames and one END_STREAM DATA frame of 0x00, the big-endian length and the message |
| RequestFacts.RoundTripReceived | loader/reciever/framer.go:25-56 | the same through the incremental parser, for every cut of the wire bytes |
| RequestFacts.LongMessageBreaksFraming | datasource/request.go:199-206 | with the default maximum a message one byte too long cannot be read back, whatever the header block |
| RequestFacts.FullLastFrameNeverEnds | datasource/request.go:191-198 | a message that exactly fills its second DATA frame gets no END_STREAM |
| Sender.EmptyWindow | loader/sender/sender.go:180-189 | a flush that finds nothing to write has no frames and no callbacks behind it |
| Sender.HandOffKeepsInv | loader/sender/sender.go:191-195 | the rendezvous swaps the pairs: the writer's window is the batch just filled and the pair now filled is the one it has finished with |
| Sender.WriteKeepsInv | loader/sender/sender.go:99-101 | the writer reads live slots, and they still hold the chunks that were put there |
| Sender.StepKeepsInv | loader/sender/sender.go:166-310 | every step of `send`, batcher and writer keeps the joint invariant |
| Sender.RunsKeepInv | loader/sender/sender.go:166-310 | the invariant holds at the end of every interleaving |
| SenderFacts.NoReuseBeforeWritten | loader/sender/sender.go:94-107 | no callback runs twice; after a request's Release no frame of it is being written, filled, queued or still to be enqueued; the pair being written is never the pair being filled |
| SenderFacts.ReleasedIsWritten | loader/sender/sender.go:99-101 | without a write error, all frames of a released request are on the wire |
| SenderFacts.WireIsConserved | loader/sender/sender.go:197-253 | the wire is the chunks of the units handed over, in order, each unit contiguous; with what is in flight, filled and queued they are all frames enqueued; a batch has at most 2048 slots |
| SenderRuns.PrioritiesAreHandedOver | loader/sender/sender.go:200-208 | over every run the frames taken from the priority channel are, in order and each once, those handed to the writer and the one on offer |
| SenderRuns.RecordsAreTrue | loader/sender/sender.go:280-302 | requests begun, frames enqueued, closing and write errors are those of the steps; the queue never holds more than 16 frames |
| SenderRuns.RunsAreBounded | loader/sender/sender.go:94-310 | every run is at most as long as the requests and priority frames it was given allow, so the send path comes to rest |
| SenderRuns.FlushedRunIsComplete | loader/sender/sender.go:212-253 | a faultless flushed run at rest has written everything enqueued and every priority frame once and in order, and called every callback |
| SenderFacts.FlushCompletes | loader/sender/sender.go:212-215 | after Flush has drained, every frame has been written once and every callback called once, in order |
| SenderFacts.WireParses | loader/sender/sender.go:220-226 | if every unit is one well-formed frame, a parser of the wire bytes sees exactly those frames in order |
| SenderFacts.MovesUnlessResting | loader/sender/sender.go:197-242 | batcher or writer can move by themselves except in the resting states, which are listed |
| SenderFacts.RestingHears | loader/sender/sender.go:199-252 | at rest a priority frame is still taken, flushed or not, and cancellation is seen |
| SenderFacts.WaitsWithoutTimer | loader/sender/sender.go:209-226 | over every run, in the select loop a frame waits with the timer off if and only if the guard of line 216 fired for it and only the batch before it has been handed over since |
| SenderFacts.StrandedIffOverflowed | loader/sender/sender.go:209-226 | a resting select loop has handed over everything enqueued if and only if that has not happened, else all but one frame; so everything in runs where the guard never fires |
| SendPath.PeerParses | loader/sender/sender.go:280-296 | when every message fits, the bytes written parse as the frames of the requests in the order handed over, with priority frames between them |
| SendPath.PeerSeesRequests | loader/sender/sender.go:260-298 | on the stream of every request the peer reads its first frames, in order and nothing else, and all of them once it is released |
| SendPath.PeerSeesPriorities | loader/sender/sender.go:200-208 | on stream 0 the peer reads exactly the priority frames taken, in order, but for one that may be on offer |
| Stranding.StrandedStreamIsCut | loader/sender/sender.go:209-226 | when a frame is stranded the peer has read exactly the frames of its request before it, and the request is not released |
| Stranding.FrameCanBeStranded | loader/sender/sender.go:209-241 | for all requests of one HEADERS and one DATA frame: a faultless run of 410 of them after which the last END_STREAM frame waits for ever |
| SessionFacts.RunsKeepInv | loader/sender/sender.go:260-298 | the joint invariant of limiter, pool, store and windows holds over every run |
| SessionFacts.HistoryIsTrue | loader/sender/sender.go:260-298 | over every run: last id, opened, answered and failed streams, surplus frames, and the sums of prices sent and increments received are those read off the steps |
| SessionFacts.WindowSafety | loader/flowcontrol/flowcontrol.go:22-54 | the prices of the frames enqueued on the connection and on each stream, summed over the steps, never exceed the initial window plus the increments of its own WINDOW_UPDATE frames, wrap-around and pooled streams included |
| SessionFacts.CountersAreWindows | loader/flowcontrol/flowcontrol.go:31-44 | modulo 2^32, and exactly below it, each counter is the initial window plus increments received minus prices enqueued and granted, so it never underflows |
| SessionFacts.StreamLimit | loader/streams/limiter/limiter.go:30-46 | streams open at the peer plus failed requests never exceed the limit plus the surplus terminal frames |
| SessionLimit.SurplusExceedsLimit | loader/reciever/processor.go:171-177 | for every limit and number of surplus terminal frames a run reaches that bound |
| SessionLimit.LimitKeptIff | loader/streams/limiter/limiter.go:30-46 | the limit is kept in all runs with n surplus terminal frames if and only if n is zero |
| SessionFacts.QuotaBalance | loader/streams/limiter/limiter.go:30-46 | quota plus streams not yet released equals the limit if and only if failed requests and surplus terminal frames are equally many |
| SessionFacts.FailuresExhaustQuota | loader/sender/sender.go:267-275 | after as many failed requests as the limit no stream is open and none can be opened |
| SessionFacts.OneFailureCanExhaust | loader/sender/sender.go:267-275 | a run that reaches this with a limit of one |
| SessionFacts.TerminalFindsStream | loader/sender/sender.go:278-296 | a terminal frame finds its stream in the store exactly when the stream is open, on the object that belongs to it |
| SessionFacts.EndedOnce | loader/reciever/processor.go:171-177 | a stream about to be ended has not been ended; when the receiver is idle exactly the terminated streams have been |
| SessionFacts.TerminalsAgree | loader/reciever/processor.go:171-224 | the two orders of ending a stream, for DATA or RST_STREAM and for HEADERS, come to the same: one release, removal, one end, object pooled |
| SessionHistory.ReceiverProgress | loader/reciever/processor.go:171-257 | every operation inside a frame leaves fewer to do, so the receiver is ready again after at most three |
| SessionFacts.InUseIsLive | loader/streams/pool/pool.go:34-63 | `inUse` is acquired minus ended; live streams have distinct objects, none of them in the pool |
| SessionFacts.ClientIDsOdd | loader/sender/sender.go:262 | the ids used are odd and increasing |
| Session.StoreIsOpen | loader/reciever/processor.go:218-222 | a stream is stored, when a terminal frame may arrive, exactly while it is open |
| Attribution.StepKeepsInv | loader/sender/sender.go:260-298 | sender and bookkeeping run together keep both invariants, their agreement on where `send` is, and the last acquirer as owner of every object |
| Attribution.TellsItsRequest | loader/sender/sender.go:289-295 | over every run a callback tells its own request if and only if no later stream acquired the object, which can only be after the stream has ended |
| Attribution.CanTellAnother | loader/streams/pool/pool.go:49-51 | for every request of two frames: a run in which its LastByteSent tells the next request |
| Bookkeeping.FlowControl.Wait | loader/flowcontrol/flowcontrol.go:22-36 | an admitted wait takes its credit without wrapping and reports whether the window is still enabled |
| Bookkeeping.StreamsPool.Acquire | loader/streams/pool/pool.go:34-54 | is exactly the `Acquire` step of a session: the last pooled object or a new one, with a full window and the new owner |
| Bookkeeping.StreamsPool.Release | loader/streams/pool/pool.go:56-63 | is exactly what a session does when a stream ends |
| Store.IndexIsBuilt | loader/streams/store/store.go:96-106 | the masked index of an odd id is in range, and hits a built shard if and only if the shard count is even |
| Store.StreamIDsOdd | loader/sender/sender.go:262 | ids advanced by two stay odd under uint32 wrap |
| Store.ShardedStreamsMap.Set | loader/streams/store/store.go:115-117 | acts on the whole store as on one map |
| Store.ShardedStreamsMap.Get | loader/streams/store/store.go:119-121 | finds what one map would find |
| Store.ShardedStreamsMap.GetAndDelete | loader/streams/store/store.go:123-125 | returns and removes as one map would |
| Store.ShardedStreamsMap.Delete | loader/streams/store/store.go:127-129 | removes as from one map |
| Store.ShardedStreamsMap.Each | loader/streams/store/store.go:108-113 | visits every stored entry exactly once and nothing else |
| Pipeline.WriterTakesNext | formats/converter/processor.go:116-126 | what the writer receives from the lane of its counter is the message of that number |
| Pipeline.StepKeepsInv | formats/converter/processor.go:48-146 | every step of reader, converters and writer, faults included, keeps the lanes in order |
| Pipeline.OutputIsSequentialPrefix | formats/converter/processor.go:106-146 | for any threads, buffers and schedule, even under cancellation, the output is the sequential conversion of a prefix of the input |
| Pipeline.FinishedMeansAllHandled | formats/converter/processor.go:117-123 | if the writer returns normally and no goroutine has returned an error, cancelled or not, the output is the whole sequential conversion |
| Pipeline.FinishedMissesIff | formats/converter/processor.go:117-123 | a writer that returned normally has missed a message that was read if and only if the converter of its lane left by cancellation with work left; then `Process` reports an error |
| Pipeline.NoDeadlock | formats/converter/processor.go:48-171 | in every state, cancelled or failed ones included, some goroutine can go on by itself until all have returned |
| Pipeline.FaultsCanStrike | formats/converter/processor.go:48-146 | cancellation and failing reads and writes are possible wherever the code can meet them |
| Pipeline.RunsTerminate | formats/converter/processor.go:48-171 | every run, faulty or not, is finite, with an explicit bound |
| Pipeline.StoppedRunIsComplete | formats/converter/processor.go:148-171 | when nothing can go on everything has returned; without an error the whole sequential conversion is written, and exactly the failing messages are reported |
| Pipeline.FailsIff | formats/converter/processor.go:126-137 | with nothing happening from outside, a goroutine has returned an error if and only if conversion errors are fatal and a message that does not convert has been handled; the output ends right before it |
| Pipeline.ProcessResult | formats/converter/processor.go:148-171 | the result of `Process` with nothing happening from outside: an error exactly when conversion errors are fatal and there is one, with the output up to the first; else the whole sequential conversion |
| Pipeline.CancelledFinishMayMissInput | formats/converter/processor.go:117-123 | a cancelled run whose writer returns normally with a message unhandled |
| Utf8.DecodeEncode | formats/internal/json/escape.go:41-42 | the decoder finds every scalar value at the front of its encoding (section 3 of RFC 3629) |
| Utf8.EncodeDecode | formats/internal/json/escape.go:41-42 | whatever is decoded as valid is the encoding of the value found |
| Utf8.SanitizeIffValid | formats/internal/json/escape.go:42-50 | replacing invalid bytes changes nothing if and only if the text is valid UTF-8 |
| JsonString.EscapeStringAppend | formats/internal/json/escape.go:7-75 | the lazily copying loop appends the quoted escape of the text and keeps the given prefix |
| JsonString.RoundTrip | formats/internal/json/escape.go:7-75 | a JSON reader (section 7 of RFC 8259) gets the text back with each invalid byte as U+FFFD and stops at its closing quote; unchanged if and only if valid UTF-8 |
| JsonString.NoControlBytes | formats/internal/json/escape.go:18-37 | no byte below 0x20 appears between the delimiters |
| JsonString.EscapeExamples | formats/internal/json/escape.go:26-63 | the exact escapes of control bytes, line feed, return, quote, backslash, <, an invalid byte and a separator |
| JsonString.FirstBareQuote | formats/internal/json/escape.go:18-75 | the first quote without a backslash of its own is the closing one, whatever follows |
| JsonString.NoMarkup | formats/internal/json/escape.go:11-37 | none of < > & appears in the text |
| JsonString.NoSeparator | formats/internal/json/escape.go:58-67 | U+2028 and U+2029 never appear in the text |
| JsonString.EscapedIffNeeded | formats/internal/json/escape.go:7-75 | a text is copied as it is if and only if it is valid UTF-8 without control byte, quote, backslash, < > & and the two separators |
| Metadata.MarshalAppend | formats/internal/kv/json/jsonkv.go:26-55 | sorts by name and appends the grouped object of the sorted list |
| Metadata.LessEqIsLexicographic | formats/internal/kv/json/jsonkv.go:15 | the order of names is the ascending lexicographic order of bytes |
| Metadata.MetaRoundTrip | formats/internal/kv/json/jsonkv.go:26-79 | any list of pairs is read back in order, sanitized; unchanged if and only if all names and values are valid UTF-8 |
| Metadata.KeysPrintedOnce | formats/internal/kv/json/jsonkv.go:40-53 | of a sorted list every distinct name is printed as a key exactly once |
| RequestText.Encode | formats/grpc/ozon/binary/encoding/encoder.go:17-30 | appends the text of the request with its metadata sorted |
| RequestText.LineRoundTrip | formats/grpc/ozon/binary/encoding/decoder.go:39-45 | a line is read back whole exactly when it holds no line feed |
| RequestText.DecodeIff | formats/grpc/ozon/binary/encoding/decoder.go:22-45 | any text decodes to a request exactly when it is its tag line, method line and metadata line followed by its message; fewer line feeds are an error |
| RequestText.TextRoundTrip | formats/grpc/ozon/binary/encoding/decoder.go:22-37 | decoding the text gives the request back if and only if tag and method hold no line feed and the metadata is valid UTF-8 |
| RequestText.EncodeThenDecode | formats/grpc/ozon/binary/encoding/encoder.go:17-30 | the decoded request has the same tag, method and message, and a sorted permutation of the metadata |
| Container.ParseDecimal | formats/grpc/ozon/binary/io/io.go:102-116 | parsing the decimal digits of a number after an accumulator gives the accumulator shifted plus the number |
| Container.SizeLine | formats/grpc/ozon/binary/io/io.go:102-116 | digits ended by a line feed are the size they stand for; ended by any other byte they are an error |
| Container.ParseSizeConcat | formats/grpc/ozon/binary/io/io.go:102-116 | parsing a size in two pieces equals parsing it in one |
| Container.FileRoundTrip | formats/grpc/ozon/binary/io/io.go:38-142 | a container of any payloads is read back as the same list with a clean end |
| Container.FileExample | formats/grpc/ozon/binary/io/io.go:127-142 | the bytes of a container of two requests |
| Container.Writer.WriteNext | formats/grpc/ozon/binary/io/io.go:127-142 | appends the record of its payload |
| Container.Reader.FillSize | formats/grpc/ozon/binary/io/io.go:102-116 | the digit loop over one buffer |
| Container.Reader.ReadNext | formats/grpc/ozon/binary/io/io.go:39-100 | for every byte stream, malformed ones included, and every cut into reads, the outcome and the position after it are those of parsing the stream at once |
| Container.ReadFile | formats/grpc/ozon/binary/io/io.go:39-100 | reading to the end gives the records of the whole stream |
| Container.WriteThenRead | formats/grpc/ozon/binary/io/io.go:39-142 | what was written is read back through any cut |
| Container.CyclicReader.Read | datasource/cyclic-reader.go:16-32 | everything returned so far is whole copies of the file and a prefix of it; a read without bytes rewinds |
| Container.CyclicRecords | datasource/cyclic-reader.go:16-32 | after r rewinds at least r and at most r + 1 copies of the payloads have been delivered, record k is payload k mod n, and no error occurs |
| Container.ReadCyclic | datasource/cyclic-reader.go:16-32 | through the chunked reader every size-of-file plus one reads deliver another whole copy, however little each read gets; record k is payload k mod n |
| Lru.RecentByLastUse | utils/lru/lru.go:27-47 | the order kept is that of the last use |
| Lru.TouchRecent | utils/lru/lru.go:31-46 | one call on the bounded list equals one call on the unbounded order, then cutting it |
| Lru.LRU.GetOrAdd | utils/lru/lru.go:27-47 | returns a string equal to its argument; list and map agree, and the list is the most recent distinct keys of the whole history |
| Duration.EncodedValue | utils/grpc/encode_duration.go:41-63 | the encoded timeout is at least the duration, less than one unit above it and, beyond nanoseconds, less than one part in 100000 above it |
| Duration.FinestUnit | utils/grpc/encode_duration.go:41-63 | the unit is the finest with at most eight digits and the value the least that covers the duration; what is not positive encodes as zero nanoseconds |
| Duration.TextIsReceived | utils/grpc/encode_duration.go:41-63 | the text is at most eight digits and a letter, and a peer reads the encoded value from it |
| Duration.AtMostEightDigits | utils/grpc/encode_duration.go:26-63 | at most eight digits in every branch, hours included |
| Duration.EncodedMonotone | utils/grpc/encode_duration.go:41-63 | a longer duration never encodes as a shorter timeout |

## Left out

- Sender.RunsKeepInv: models the batching goroutine only; `instantProcessor` (loader/sender/sender.go:109-164) makes the same hand-off with one frame per batch. Sending after `Flush`, which panics, is not a step.
- Sender.StepKeepsInv: the same.
- Sender and Session and Pipeline are models on values: memory is explicit where reuse matters (the two buffer pairs, the stream objects), not elsewhere.
- SenderFacts.WireIsConserved: a chunk is written whole or not at all; bytes of a chunk that failed half-way are not counted as written.
- SessionFacts.RunsKeepInv: runs without `Disable`, so the early return of `send` when a window is disabled (loader/sender/sender.go:283-286) is not a step of `Session`; it is one of `Sender`.
- SessionFacts.WindowSafety: runs without `Disable`; stops before stream ids wrap, where section 5.1.1 of RFC 9113 requires a new connection.
- SessionFacts.TerminalFindsStream: the peer answers a stream only after a frame of it was enqueued.
- The timeout queue (loader/timeout_queue.go) and the ending of streams after GOAWAY (loader/loader.go:268-273) also end streams; they are not steps of `Session`.
- Subprocessors.Handlers.Process: header block decoding and its errors are left out.
- Subprocessors.EffectsOfStream: the same.
- Subprocessors.EffectsAreDue: for RST_STREAM and WINDOW_UPDATE payloads of four bytes and GOAWAY payloads of at least eight, as sections 6.4, 6.8 and 6.9 of RFC 9113 ask; what other sizes leave in the accumulators is in `Subprocessors.AbsorbConcat`.
- Subprocessors.Handlers.Ping: the two ping buffers that take turns are one immutable value per answer.
- Subprocessors.FragmentationInvisible: HPACK decoding of header blocks is third-party code and is left out; answers of the stream store are inputs.
- Subprocessors.Handlers.Data: frames put on the priority channel are immutable values, so overwriting the two preallocated buffers while a frame is still queued is not modelled; likewise for pings.
- Receiver.Receive: errors from HPACK decoding, which would end the receive loop early, are left out; the errors for unsupported frame types, GOAWAY and SETTINGS without ACK are modelled. A frame type above 9 is such an error here, where the source indexes past its table of processors.
- Receiver.Processor.Process: the same.
- Receiver.Processor.Run: the same.
- SessionLimit.LimitKeptIff: for initial windows of at least 5, so that the streams of the run can send an empty message, and for limits that the 31 bits of client stream ids can reach.
- Attribution.CanTellAnother: as `SessionFacts.RunsKeepInv`, without `Disable`.
- Bookkeeping.FlowControl.Wait: the loop that waits on the condition variable is replaced by the condition it waits for.
- Bookkeeping.StreamsPool.Acquire: of the reporter state only the stream it belongs to is kept (`streamID`); what reporters do with a callback is left out.
- SessionFacts.StreamLimit: for a nonzero limit; for zero the source installs a limiter that does nothing.
- Header-block contiguity across priority frames (section 6.10 of RFC 9113) is not claimed; the batcher keeps frame boundaries only.
- Request.RequestAdapter.SetUp: the encoded header block and the size of the header list are inputs; HPACK and the metadata filter are left out. The maximum frame size is at least 5, as slicing the message needs.
- Store.ShardedStreamsMap.Set: only odd ids and an even shard count whose double is below 2^32; any other call ends in a missing shard in the source.
- Metadata.Sort: the library sort is any method that returns a sorted permutation; sorting the caller's slice in place is modelled by returning the sorted list.
- Metadata.MetaRoundTrip: the reader follows RFC 8259 without insignificant white space, which the writer never emits; the lexer library is not part of this model.
- Container.Reader.FillSize: the size is an unbounded integer, so overflow of a 64-bit size in a malformed file is not modelled.
- Container.Reader.ReadNext: sizes are unbounded integers, so overflow of a 64-bit size in a malformed file is not modelled; the caller's buffer is not either.
- JsonString.EscapeStringAppend: appending to a slice with spare capacity, and the aliasing it may cause, is not modelled (the same holds for `Container.Writer.WriteNext`).
- The single-value metadata format, the ozon.json and pandora.json encodings and reflection: they only hand their input to code generators and lexers of other repositories.
- Reporters, schedulers, sockets and the command line: they keep no state that the parts above depend on.
