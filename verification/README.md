# Monocoque: verified model of the wire pipeline, PUB fan-out and their bookkeeping

Monocoque speaks ZMTP 3.x, the ZeroMQ Message Transport Protocol (RFC 23 and RFC 37 of the ZeroMQ project).
This project models its hardest parts in Dafny and proves what they promise, for all inputs, all chunkings and all
interleavings. `dafny verify dfyconfig.toml` verifies everything.

What the modules are about:

- **Wire format and decoder** (`Bytes`, `Buffer`, `Codec`, `Encoders`). `Framing.ParseFrame`, `ParseAll` and
  `WireMessage` are a one-shot parser and printer of flat byte strings. The segmented buffer, the incremental decoder
  with its fast and reassembly paths and every encoder are classes and loops proved against them.
- **Sockets** (`Units`, `Base`, `Push`, `Pull`, `EndToEnd`). `SocketBase` carries ghost fields that say what the bytes
  mean: the units (whole messages and command frames) on the wire, in the send buffer and in the write buffer. The
  kernel takes any prefix of a write, and a write may fail, time out or be cancelled at any point. `EndToEnd.Pipeline`
  composes any mix of send calls with any mix of receive calls.
- **Session and handshake** (`Greeting`, `Ready`, `Session`). The greeting and READY grammars and the three-phase
  loop of the sans-IO session. `Session.SessionFrames` says in terms of the input alone when a session completes a
  handshake and which frames it reports, and `Session.SessionsMeet` that two sessions understand each other.
- **PUB fan-out** (`Subscriptions`, `Prefilter`, `Workers`, `Coalesce`, `Fanout`, `PubSystem`). The refcounted union as
  a class; the generation-cached prefilter and the live counters as transition systems over atomic steps with any number of
  subscribers; the coalescing worker as a loop that refines delivery one message at a time. `PubSystem` is one
  transition system of all of them, with lists read when the worker writes: over any stretch in which a subscriber is in
  no update, its stream grows by exactly the broadcasts its list wants, and a message it wants reaches it in its place
  unless the channel to its worker is full.
- **Bookkeeping** (`Semaphore`, `Router`, `Xpub`, `Inproc`, `Reconnect`).

Results where a promise turns out to hold only under a condition:

- `Push.PushSocket.Send` and `SendOne`: a message keeps its place if and only if `InOrder` holds before the call. It
  fails for an eager write while the send buffer holds a different message, which then goes out later.
  `Push.OvertakingRun` gets there, unless a write fails: a coalesced send, coalescing switched off through the options,
  an eager send. Under fixed options it does not arise, and `EndToEnd.SendAll` needs no such condition.
- `Codec.AlignedIffNothingStaged`: `try_reconnect` renews the receive buffer and not the decoder, so a new stream is
  decoded as on its own if and only if the decoder has no frame pending. `Codec.DecodeChunks` says when that is: if and only
  if the old stream met an error or did not break off after a complete header, inside a frame body. `Base.StaleRun` is a
  run that ends out of step.
- `Ready.ReadyRoundTrip`: a READY that announces an identity is read back if and only if the identity is at most 255
  bytes long; `build_ready` itself does not check this.
- `Semaphore.WaiterCanProceed`: an `acquire` dropped while its blocking thread waits, or before the permit is made, leaves
  a claim that is never returned. With no permit out, a waiter can proceed if and only if its claim fits beside those leaked claims.
  `Semaphore.LeakingRun` is a run that leaks the whole capacity, and `Semaphore.BlockedForGood` says that a request that
  does not fit beside leaked claims is never met again.
- `Reconnect.BackoffFormsAgree`: the stateful backoff and the closed form in the options agree if and only if backoff
  is off, or the maximum is not below the base and the state has not stopped doubling short of it. They differ when the maximum is non-zero and below the base (one holds at the base, the other
  at the maximum), and after ten doublings that have not reached the maximum.
- `Reconnect.JitterRange`: the jittered sleep lies between half the delay and the delay if and only if the delay in
  nanoseconds fits a 64-bit integer.
- `Pull.PullSocket.RecvBatch`: an error after the first message loses the messages already taken; the ghost result
  `lost` says which. That happens if and only if the bytes buffered once the first message is out hold a malformed frame,
  or the closing flush fails. A caller can tell beforehand (`Pull.BatchOutlook`): with nothing queued to send and no PING
  to come, nothing is lost on a well-formed stream, and with everything already buffered messages are lost if and only if
  a malformed frame follows a message. `Pull.LosingRun` loses a message that way.
- `Inproc.InprocStream.Read`: with room in the buffer, a count of zero means the end of the stream or a message that is
  empty or starts with an empty frame, and nothing else. `Inproc.ZeroRun` reads zero bytes and then the data.

What goes wrong on a connection is counted in a ghost field, `SocketBase.faults`. The send and receive methods succeed on a
healthy socket unless it rises, which gives the pipeline its form without failures.

Integers are unbounded in Dafny. Where the width matters it is written out: the 8-byte size field and its upper bound,
`usize` overflow in `take_bytes_after`, the 32-bit attempt counter, saturating and checked duration arithmetic. Locks
and atomics are sequentially consistent atomic steps, and the generation counter does not wrap.

## Model

| member | source | states |
|---|---|---|
| `Buffer.SegmentedBuffer.Push` | monocoque-core/src/buffer.rs:57-63 | appends to the flat contents; no segment is ever empty and `len` stays the total |
| `Buffer.SegmentedBuffer.FrontChunk` | monocoque-core/src/buffer.rs:52-54 | the first segment, a prefix of the contents, empty only when the buffer is |
| `Buffer.SegmentedBuffer.CopyPrefix` | monocoque-core/src/buffer.rs:68-85 | succeeds iff both buffers are long enough; then the destination starts with the first `n` bytes and is otherwise untouched |
| `Buffer.SegmentedBuffer.Advance` | monocoque-core/src/buffer.rs:92-108 | drops exactly the first `n` bytes across segments |
| `Buffer.SegmentedBuffer.TakeBytes` | monocoque-core/src/buffer.rs:114-161 | the first `n` bytes iff that many are buffered, from one segment or many alike |
| `Buffer.SegmentedBuffer.TakeSpanning` | monocoque-core/src/buffer.rs:141-160 | the copying path returns the same bytes as the slicing path, and never meets an empty deque |
| `Buffer.SegmentedBuffer.TakeBytesAfter` | monocoque-core/src/buffer.rs:168-174 | skip-then-take on the flat contents, or nothing at all on a shortage or `usize` overflow |
| `Buffer.SegmentedBuffer.TakeBytesAfterAvailable` | monocoque-core/src/buffer.rs:182-204 | the same result from the front-segment path and the general path |
| `Framing.FrameRoundTrip` | monocoque-zmtp/src/codec.rs:132-280 | parsing an encoded frame gives back MORE, COMMAND and payload, and leaves what follows, for every length |
| `Framing.ParsedRecomposes` | monocoque-zmtp/src/codec.rs:152-232 | re-encoding the parsed flags and payload gives the bytes consumed |
| `Framing.ParseFrameStable` | monocoque-zmtp/src/codec.rs:132-232 | a frame or an error, once reached, is not changed by later bytes |
| `Framing.ParseAllAppend` | monocoque-zmtp/src/codec.rs:132-232 | parsing in two instalments equals parsing in one |
| `Framing.ParseAllRecomposes` | monocoque-zmtp/src/codec.rs:132-232 | parsed frames and the rest recompose the input byte for byte |
| `Framing.ParseRefuses` | monocoque-zmtp/src/codec.rs:152-210 | which byte strings are refused and with which error: MORE with COMMAND, reserved bits, a size over the limit, and no others |
| `Codec.PeekHeader` | monocoque-zmtp/src/codec.rs:152-195 | the front-segment path and the copying path see the same header bytes |
| `Codec.ZmtpDecoder.constructor` | monocoque-zmtp/src/codec.rs:84-117 | nothing staged, and the frame limit or its default |
| `Codec.ZmtpDecoder.Decode` | monocoque-zmtp/src/codec.rs:132-232 | one call does to staged plus buffered bytes what the one-shot parser does; after need-more a frame is pending iff its header is complete, has staged less than it expects, and the source is empty |
| `Codec.ZmtpDecoder.DecodeHeader` | monocoque-zmtp/src/codec.rs:152-231 | flag checks in order, size limits, fast path and start of reassembly, all equal to the parser; a complete header with a short body is staged |
| `Codec.ZmtpDecoder.Reassemble` | monocoque-zmtp/src/codec.rs:134-150 | completes the pending body exactly when enough bytes are there, else stages them all |
| `Codec.ZmtpDecoder.StartReassembly` | monocoque-zmtp/src/codec.rs:220-231 | consumes the header, stages all that is there, loses nothing |
| `Codec.Drain` | monocoque-zmtp/src/codec.rs:132-232 | draining yields all frames up to the first error or incomplete frame |
| `Codec.DecodeChunks` | monocoque-zmtp/src/codec.rs:132-232 | for every split into pushes, the frames and first error are those of one-shot parsing of the concatenation, decoded plus unread bytes recompose what was pushed, and the decoder is in step with a new stream iff this one erred or did not break off inside a body |
| `Codec.AlignedIffNothingStaged` | monocoque-zmtp/src/base.rs:1101-1117 | a decoder treats any new stream on its own terms iff no frame is pending; otherwise the first bytes complete the stale body |
| `Encoders.EncodeZmtpFrame` | monocoque-zmtp/src/codec.rs:258-280 | the wire form of the frame, LONG following the payload length |
| `Encoders.WriteFrameHeader` | monocoque-zmtp/src/codec.rs:291-310 | appends the wire header and returns its length |
| `ByteStrings.BigEndianAt` | monocoque-zmtp/src/codec.rs:258-310 | each byte of a size field is the digit its position stands for, most significant first |
| `Encoders.EncodeMultipart` | monocoque-zmtp/src/codec.rs:320-359 | appends the wire form of the message |
| `Encoders.EncodeSingle` | monocoque-zmtp/src/codec.rs:363-374 | the same bytes as the one-frame multipart message |
| `Encoders.AppendCommandFrame` | monocoque-zmtp/src/base.rs:174-183 | appends the wire form of a command frame |
| `Encoders.EncodeFrame` | monocoque-zmtp/src/utils.rs:57-72 | the wire form of a frame with any flags |
| `Encoders.BuildIovecs` | monocoque-zmtp/src/base.rs:796-810 | the concatenated iovec is the wire form, with every body as its own uncopied entry |
| `Units.MessageParses` | monocoque-zmtp/src/codec.rs:320-359 | an encoded message parses to its frames with MORE on all but the last, whatever follows |
| `Units.UnitsParse` | monocoque-zmtp/src/codec.rs:132-232 | encoded messages and commands parse back to exactly their frames |
| `Units.AssembleUnits` | monocoque-zmtp/src/pull.rs:111-131 | assembling those frames gives exactly the messages and nothing pending |
| `Units.WireDelivers` | monocoque-zmtp/src/pull.rs:111-293 | a receiver gets exactly the messages put on the wire, in order |
| `Base.SocketBase.GuardedWrite` | monocoque-core/src/poison.rs:86-122 | poisoned on every outcome but a complete write; what a torn write left is a prefix of its buffer |
| `Base.SocketBase.FlushSendBuffer` | monocoque-zmtp/src/base.rs:600-666 | on success everything buffered is on the wire; a poisoned socket writes nothing; an error without poison changes nothing |
| `Base.SocketBase.WriteFromBuf` | monocoque-zmtp/src/base.rs:673-733 | the same for the prepared write buffer |
| `Base.SocketBase.SendVectored` | monocoque-zmtp/src/base.rs:766-850 | buffered units first, then this message, then success; nothing written when poisoned |
| `Base.SocketBase.EncodeMessageToWriteBuf` | monocoque-zmtp/src/base.rs:897-912 | the write buffer holds this message and nothing else |
| `Base.SocketBase.EncodeMessageToSendBuf` | monocoque-zmtp/src/base.rs:915-930 | the message is appended to the buffered units and counted |
| `Base.SocketBase.SendCoalesced` | monocoque-zmtp/src/base.rs:938-955 | the message is last among sent and buffered units, flushed or not |
| `Base.SocketBase.EncodeOneCoalesced` | monocoque-zmtp/src/base.rs:961-967 | buffers the frame as a message and says iff the threshold is reached |
| `Base.SocketBase.CheckHeartbeat` | monocoque-zmtp/src/base.rs:448-504 | one whole PING iff heartbeats are on, no PONG is awaited and the connection is idle; a timeout and disconnection iff an awaited PONG is overdue; otherwise nothing |
| `Base.SocketBase.ProcessFrame` | monocoque-zmtp/src/base.rs:982-1024 | consumes exactly one parsed frame; data is returned, a PING queues exactly one PONG, a PONG ends the wait for it, an error consumes nothing |
| `Base.HeartbeatsRecognized` | monocoque-zmtp/src/base.rs:70-77 | a PING of any TTL is a PING and no PONG, and a PONG a PONG and no PING; the context behind the name is at most 18 and 16 bytes |
| `Base.HeartbeatExchange` | monocoque-zmtp/src/base.rs:982-1024 | one socket's PING, read by another, queues the PONG that ends the first one's wait |
| `Base.SocketBase.ReadRaw` | monocoque-zmtp/src/base.rs:518-591 | moves some prefix of the peer's bytes into the buffer; zero only at the end of the stream; nothing lost on error |
| `Base.SocketBase.TryReconnect` | monocoque-zmtp/src/base.rs:1038-1121 | success starts an empty healthy connection, keeping only what the decoder had staged; failure changes nothing at all |
| `Base.StaleRun` | monocoque-zmtp/src/base.rs:1101-1117 | a stream that ends inside a body, then a reconnect: unless something fails, the socket is out of step with the new stream |
| `Base.AnyWriteRun` | monocoque-zmtp/src/base.rs:600-967 | over every run with arbitrary partial writes, errors, timeouts, cancellation and option changes, a healthy socket's wire is a concatenation of whole units, and a poisoned one writes no byte until a reconnect |
| `Push.PushSocket.Send` | monocoque-zmtp/src/push.rs:93-114 | on success the message is the last unit accepted, then at most heartbeats, iff it is in order beforehand; otherwise the exact order with the overtaken messages behind it; below the coalescing threshold it waits |
| `Push.PushSocket.SendOne` | monocoque-zmtp/src/push.rs:121-144 | the same promises, both cases, without the message vector |
| `Push.InOrderRule` | monocoque-zmtp/src/base.rs:745-751 | the condition spelled out: coalescing, a frame of the vectored size, no frames, or nothing else buffered |
| `Push.Overtaken` | monocoque-zmtp/src/push.rs:93-114 | a unit sent ahead of the buffered ones is in its place iff all of them equal it |
| `Push.OvertakingRun` | monocoque-zmtp/src/push.rs:93-200 | a coalesced send, an option change, an eager send and a flush succeed unless a write fails, and put the second message on the wire first |
| `Push.PushSocket.Flush` | monocoque-zmtp/src/push.rs:150-152 | everything accepted is on the wire |
| `Push.PushSocket.SendBatch` | monocoque-zmtp/src/push.rs:164-182 | all messages accepted in order and counted, then at most heartbeats; nothing left buffered |
| `Pull.PullSocket.Pump` | monocoque-zmtp/src/pull.rs:111-131 | one frame off the stream: the messages still to come, and those complete in the buffer, are unchanged or lose exactly the completed one; it starves only when the buffer completes none, and fails exactly at a malformed frame |
| `Pull.PullSocket.TryRecv` | monocoque-zmtp/src/pull.rs:111-131 | the next message of the stream iff one is complete in the buffer, or none with the stream unchanged |
| `Pull.PullSocket.TryRecvInto` | monocoque-zmtp/src/pull.rs:141-161 | the same iff into a caller's vector, left alone when there is no message |
| `Pull.PullSocket.Recv` | monocoque-zmtp/src/pull.rs:170-211 | the next message however it is cut into reads; none only when the stream holds no further message; an error keeps it; a buffered message is returned when nothing needs answering |
| `Pull.PullSocket.RecvInto` | monocoque-zmtp/src/pull.rs:223-260 | the same into a cleared vector |
| `Pull.PullSocket.RecvBatch` | monocoque-zmtp/src/pull.rs:274-293 | a non-empty run of the next messages; on error, exactly what was lost, and that something is lost iff the bytes then buffered are malformed or the closing flush fails; what a caller can tell beforehand |
| `Pull.PullSocket.FinishBatch` | monocoque-zmtp/src/pull.rs:279-293 | with the first message in hand, an error iff a buffered frame is malformed or the flush fails |
| `Pull.LosingRun` | monocoque-zmtp/src/pull.rs:274-293 | a message and a malformed frame in one read: the call fails and the message is lost |
| `EndToEnd.SendAll` | monocoque-zmtp/src/push.rs:93-182 | after any mix of successful sends and a flush, the wire holds exactly their messages in order; on a healthy socket all succeed unless a fault occurs |
| `EndToEnd.ReceiveAll` | monocoque-zmtp/src/pull.rs:111-293 | for any interleaving of the five receive calls up to a failed one, the stream is what was handed over, what a failed batch dropped, and what is still to come, in order; without faults, more blocking calls than messages return them all |
| `EndToEnd.Pipeline` | monocoque-zmtp/src/base.rs:766-1024 | received messages are a prefix of those sent, failed call or not, and all of them once the end of the stream is reported, for any modes, chunking and receive calls; without faults and zero timeouts every send succeeds and enough blocking calls receive every message |
| `EndToEnd.ReceiveWire` | monocoque-zmtp/src/pull.rs:111-293 | the receiving half: a prefix of the messages on the wire, and all of them without faults |
| `Greeting.GreetingAccepted` | monocoque-zmtp/src/greeting.rs:43-76 | a greeting is accepted iff it is well-formed, and is incomplete iff shorter than 64 bytes; mechanism and server flag are the ones its bytes give |
| `Ready.TypeNameInjective` | monocoque-zmtp/src/handshake.rs:622-643 | no two socket types share a name |
| `Ready.PropertiesRoundTrip` | monocoque-zmtp/src/utils.rs:110-118 | printing a property list and parsing it gives the list back |
| `Ready.ParsedProperties` | monocoque-zmtp/src/handshake.rs:508-619 | a metadata string that parses is the printed form of the list it parses to |
| `Ready.ReadyGrammar` | monocoque-zmtp/src/handshake.rs:508-619 | a body is accepted iff it is READY and a printed list with one known Socket-Type and at most one Identity of at most 255 bytes |
| `Ready.ReadyBodyInjective` | monocoque-zmtp/src/utils.rs:90-118 | that list is unique |
| `Ready.PutProperty` | monocoque-zmtp/src/utils.rs:110-118 | appends the printed property |
| `Ready.BuildReady` | monocoque-zmtp/src/utils.rs:90-106 | the printed form of the announced properties |
| `Ready.ReadyRoundTrip` | monocoque-zmtp/src/utils.rs:90-118 | for every identity, the peer reads back socket type and identity iff the identity is at most 255 bytes |
| `Ready.ParseReadyCommand` | monocoque-zmtp/src/handshake.rs:508-619 | the offset-driven loop decides exactly the READY language |
| `Ready.ReadProperty` | monocoque-zmtp/src/handshake.rs:545-585 | key length, key, value length and value, each bounds-checked at its offset, are the property the grammar reads there |
| `Session.SessionRunAppend` | monocoque-zmtp/src/session.rs:192-325 | feeding a session in two instalments gives the events of feeding it in one |
| `Session.HandshakeFirst` | monocoque-zmtp/src/session.rs:192-325 | an in-phase event list has at most one HandshakeComplete and no Frame before it |
| `Session.ActiveFrames` | monocoque-zmtp/src/session.rs:309-325 | an active session reports exactly the parsed frames, flags and payload |
| `Session.HandshakeFrames` | monocoque-zmtp/src/session.rs:256-325 | from the handshake phase on, a handshake is reported iff the input starts with that READY, and then exactly the frames behind it; otherwise no frame |
| `Session.SessionFrames` | monocoque-zmtp/src/session.rs:192-325 | a handshake with a peer is reported iff the input is a well-formed greeting followed by that READY, and then exactly the frames parsed behind it; otherwise no frame |
| `Session.LocalGreeting` | monocoque-zmtp/src/session.rs:167-189 | 64 bytes, well-formed, version 3.0, mechanism NULL |
| `Session.SessionsMeet` | monocoque-zmtp/src/session.rs:167-325 | after a greeting each session sends its READY, which completes the other's handshake with the sender's type, and the frames behind it are reported |
| `Session.ZmtpSession.Turn` | monocoque-zmtp/src/session.rs:199-323 | each continuing turn strictly shrinks the unconsumed bytes and emits the next specified event |
| `Session.ZmtpSession.OnBytes` | monocoque-zmtp/src/session.rs:192-325 | the events are those of the whole-input specification, in phase, and unconsumed bytes are kept |
| `Session.RunSession` | monocoque-zmtp/src/session.rs:109-325 | for every chunking the events up to the first error depend only on the total bytes, and are the handshake and the frames of a well-formed greeting, READY and what follows; in every run one handshake at most, before any frame |
| `Subscriptions.SubscriptionUnion.Subscribe` | monocoque-zmtp/src/publisher.rs:102-111 | one more holder of the prefix; distinct entries with exact positive counts |
| `Subscriptions.SubscriptionUnion.Unsubscribe` | monocoque-zmtp/src/publisher.rs:115-125 | one holder less, the entry gone at zero, the others intact under `swap_remove` |
| `Subscriptions.SubscriptionUnion.Matches` | monocoque-zmtp/src/publisher.rs:129-135 | true iff someone matches all or a held prefix starts the topic |
| `ByteStrings.PrefixRule` | monocoque-zmtp/src/publisher.rs:129-135 | `starts_with`: a prefix starts a topic iff the topic is that prefix and something after it |
| `Subscriptions.ApplyEvent` | monocoque-zmtp/src/publisher.rs:300-327 | a subscribe puts the prefix on the list and in the union, an unsubscribe takes it off both, other prefixes stay; `match_all` moves when the list becomes or stops being empty; an event that changes nothing changes neither |
| `Subscriptions.ExactStep` | monocoque-zmtp/src/publisher.rs:94-136 | every update keeps the union exact, and no counter meets zero on its way down |
| `Subscriptions.UnionExact` | monocoque-zmtp/src/publisher.rs:94-136 | over all runs `match_all` counts the subscribers with an empty list and each refcount its holders |
| `Subscriptions.UnionMatchesExactly` | monocoque-zmtp/src/publisher.rs:203-225 | an exact union matches a topic iff some subscriber's own list does |
| `Subscriptions.ListMatchesRule` | monocoque-zmtp/src/publisher.rs:203-225 | an empty list matches every topic, any other exactly the topics one of its prefixes starts |
| `Prefilter.NextInv` | monocoque-zmtp/src/publisher.rs:160-165 | every atomic step of readers, accepts and the prefilter keeps the invariant |
| `Prefilter.DecisionExact` | monocoque-zmtp/src/publisher.rs:857-867 | the cached answer is the exact one for a point in the history that includes every update bumped before the load |
| `Prefilter.DecisionSafe` | monocoque-zmtp/src/publisher.rs:857-867 | no topic is dropped that an idle subscriber with all its updates bumped wants |
| `Prefilter.SteadySubscriberServed` | monocoque-zmtp/src/publisher.rs:300-327 | in every run with any number of writers, a subscriber not in mid-update from load to decision never loses a message it wants to the prefilter |
| `Workers.InvStep` | monocoque-zmtp/src/publisher.rs:505-512 | counter at least registered plus queued, deferred and arriving subscribers, and whoever was added is held until removed, kept by every step |
| `Workers.SkippedWorkerIsEmpty` | monocoque-zmtp/src/publisher.rs:790-829 | in every run the counter never underflows, and at zero the worker neither holds nor is about to hold a subscriber |
| `Workers.AddedIsCounted` | monocoque-zmtp/src/publisher.rs:790-829 | a subscriber that was added and has not gone keeps its worker's counter above zero |
| `Workers.Publisher.DispatchAll` | monocoque-zmtp/src/publisher.rs:880-904 | with workers draining queues, changing counters and exiting between visits, a worker visited with a counter above zero and an open channel gets the message iff the channel has room, and the drop count rises by the number that had none; nobody else gets anything; the call ends at the first closed channel |
| `Coalesce.DeliverBatch` | monocoque-zmtp/src/publisher.rs:416-503 | writing a batch at once is delivering its messages one by one |
| `Coalesce.DeliverKeeps` | monocoque-zmtp/src/publisher.rs:505-512 | losing some subscribers costs only those |
| `Coalesce.EncodeFor` | monocoque-zmtp/src/publisher.rs:434-469 | with either wire cache in any state, a subscriber gets exactly the messages it wants |
| `Coalesce.Worker.Collect` | monocoque-zmtp/src/publisher.rs:390-414 | batch, deferred command and remaining queue are the old queue in order; at most 4096 messages, and all but the last shorter on the wire than the byte limit |
| `Coalesce.ApproxWireLenBounds` | monocoque-zmtp/src/publisher.rs:595-597 | the estimate is at least the wire length, and at most seven bytes a frame above it |
| `Coalesce.Worker.WriteBatch` | monocoque-zmtp/src/publisher.rs:432-512 | every subscriber but the failed ones has been served the batch; those removed are exactly those with something to get whose write failed |
| `Coalesce.Worker.Run` | monocoque-zmtp/src/publisher.rs:366-553 | coalesced delivery refines sequential delivery for every command queue, subscriber by subscriber, and nobody is missing but subscribers with a write that fails |
| `Coalesce.SubscriberStream` | monocoque-zmtp/src/publisher.rs:390-541 | a subscriber's bytes are the encoded broadcasts it matches that were queued after it was added and before the shutdown |
| `Coalesce.SubscriberReceives` | monocoque-zmtp/src/publisher.rs:203-225 | decoding that stream gives exactly those messages |
| `Fanout.WantsItsTopic` | monocoque-zmtp/src/publisher.rs:203-225 | the worker's test of a message is the test of its topic that the union is exact for |
| `Fanout.OneMoreMessage` | monocoque-zmtp/src/publisher.rs:390-541 | one more wanted broadcast is one more message at the end of the subscriber's stream |
| `Fanout.Publish` | monocoque-zmtp/src/publisher.rs:912-926 | an empty message is an error, one nobody could want reaches no worker and is no error, any other visits them all or stops at the closed channel the error names |
| `PubSystem.NextInv` | monocoque-zmtp/src/publisher.rs:366-553 | every step of readers, publisher and worker keeps the counter sound, the batch the last commands taken, and writes to registered subscribers only |
| `PubSystem.GrowsByStep` | monocoque-zmtp/src/publisher.rs:434-503 | any single step by anybody grows a steady subscriber's stream by what its list wants of the commands it was served for |
| `PubSystem.StreamExact` | monocoque-zmtp/src/publisher.rs:366-553 | in every run, over a stretch without updates or failed writes, a subscriber's stream grows by exactly the broadcasts its list wants, in the order taken |
| `PubSystem.OnStream` | monocoque-zmtp/src/publisher.rs:434-503 | a wanted message the worker took and served is on the stream, right behind the wanted ones taken before it |
| `PubSystem.HandedOn` | monocoque-zmtp/src/publisher.rs:880-904 | a message in hand is given up only with the counter at zero, the channel full, or the message queued last |
| `PubSystem.WantedMessageQueued` | monocoque-zmtp/src/publisher.rs:857-904 | a message a steady subscriber wants passes the prefilter, its worker is not skipped, and unless the channel is full it is queued behind everything the worker was given |
| `PubSystem.WantedMessageDelivered` | monocoque-zmtp/src/publisher.rs:857-904 | in every run, from the load of the generation on, a message a steady subscriber wants meets a full channel, or is not served yet, or is on its stream in its exact place |
| `Semaphore.ConservedStep` | monocoque-core/src/backpressure.rs:144-192 | available, held and leaked bytes add up to the capacity after every step |
| `Semaphore.ClaimsWhatIsAsked` | monocoque-core/src/backpressure.rs:144-192 | a claim takes exactly the bytes asked for, or the whole capacity if that is less, from nobody else |
| `Semaphore.GrantedWhenItFits` | monocoque-core/src/backpressure.rs:144-192 | in every run a request can be granted iff it fits the capacity beside the bytes held and leaked, one for more than the capacity iff there are none |
| `Semaphore.NoLostWakeupStep` | monocoque-core/src/backpressure.rs:53-66 | a parked waiter whose claim fits has a notification coming |
| `Semaphore.RunInv` | monocoque-core/src/backpressure.rs:144-192 | both, at every state of every run of any number of threads |
| `Semaphore.NoLeakWithoutAbandon` | monocoque-core/src/backpressure.rs:144-192 | without abandoned acquires nothing leaks |
| `Semaphore.WaiterCanProceed` | monocoque-core/src/backpressure.rs:144-192 | with no permit held a waiter can proceed iff its clamped claim fits beside leaked claims, hence always when none was abandoned |
| `Semaphore.BlockedForGood` | monocoque-core/src/backpressure.rs:144-192 | a request that does not fit beside leaked claims is never met again in the run |
| `Semaphore.LeakingRun` | monocoque-core/src/backpressure.rs:144-192 | a run in which an abandoned acquire leaks the whole capacity and the next caller waits with no permit held |
| `Router.RouterHub.HandlePeerEvent` | monocoque-core/src/router.rs:132-162 | a new or replaced peer goes to the end of the rotation, a removed one leaves it, the others keep their order; the cursor stays while it is in range and goes to zero otherwise; the list stays duplicate-free with exactly the table's keys |
| `Router.RouterHub.PickRrPeer` | monocoque-core/src/router.rs:179-206 | from any list and cursor, a live peer iff one is listed; live entries stay in order; a live entry at the cursor is picked and the cursor advances by one |
| `Router.LiveOfExact` | monocoque-core/src/router.rs:179-206 | the live entries of a list are exactly those of its entries that are in the table |
| `Router.RouterHub.RouteOutbound` | monocoque-core/src/router.rs:208-242 | addressed delivery with the delimiter stripped, or the next peer in rotation; nothing on an empty message or unknown peer |
| `Router.AddressedRule` | monocoque-core/src/router.rs:208-242 | delivery to the peer the first frame names, without that frame and an empty delimiter behind it, and to nobody else |
| `Router.RouterHub.ServeSends` | monocoque-core/src/router.rs:231-240 | k churn-free sends go round the list in order, and each of n peers receives the floor or the ceiling of k / n of them |
| `Router.PicksExact` | monocoque-core/src/router.rs:179-206 | the exact number of turns of each peer after k picks |
| `Router.FairShare` | monocoque-core/src/router.rs:179-206 | a list position's share of k picks is the floor or the ceiling of k / n, wherever the cursor stood |
| `Router.ReceivedByTurns` | monocoque-core/src/router.rs:231-240 | a peer receives exactly the messages of the picks that fell on it |
| `Xpub.EventRoundTrip` | monocoque-core/src/subscription.rs:144-169 | messages and subscription events correspond one to one: first byte 1 to subscribe, 0 to unsubscribe, then the prefix; anything else is no event |
| `Xpub.TrieMatches` | monocoque-core/src/subscription.rs:70-76 | true iff some stored prefix starts the topic |
| `Xpub.XPubSocket.UpdateTopics` | monocoque-zmtp/src/xpub.rs:391-434 | the prefix's refcount moves by one, never below zero; keys and `seen_topics` stay equal, all positive; first subscribe and last unsubscribe reported |
| `Xpub.XPubSocket.HandleEvent` | monocoque-zmtp/src/xpub.rs:362-434 | trie, topic table and pending events change together; the table holds the refcounts of every event received; reported events fold to `seen_topics` outside verbose mode |
| `Xpub.XPubSocket.RecvSubscription` | monocoque-zmtp/src/xpub.rs:286-460 | returns the oldest pending event; polling only when none is pending, it returns the first of the events the arrivals report and queues the others in order |
| `Xpub.XPubSocket.Poll` | monocoque-zmtp/src/xpub.rs:300-440 | a round queues exactly the reports of the events read, in order |
| `Xpub.RefcountIsTotal` | monocoque-zmtp/src/xpub.rs:391-434 | in balanced runs a refcount is the total of the subscribers' interest |
| `Xpub.XPubSocket.Remove` | monocoque-zmtp/src/xpub.rs:538-541 | a dead subscriber goes, its refcounts stay, and the invariant holds |
| `Xpub.TotalCovers` | monocoque-zmtp/src/xpub.rs:391-434 | in balanced runs the total for a prefix is at least any one subscriber's interest |
| `Xpub.SubscriberCovered` | monocoque-zmtp/src/xpub.rs:391-434 | in balanced runs every topic a connected subscriber matches is covered by `seen_topics` |
| `Inproc.Channel.Send` | monocoque-zmtp/src/inproc_stream.rs:127-142 | queues the frames unless the receiving end is gone |
| `Inproc.InprocStream.Read` | monocoque-zmtp/src/inproc_stream.rs:51-123 | what was unread is what is returned followed by what is still unread; the exact count; zero with room iff ended or the next message starts empty; position inside the remainder or both reset |
| `Inproc.InprocStream.ReadMessage` | monocoque-zmtp/src/inproc_stream.rs:86-117 | the message is the copied bytes followed by the remainder; copying stops at the first empty frame or a full buffer |
| `Inproc.InprocStream.Write` | monocoque-zmtp/src/inproc_stream.rs:127-142 | the whole buffer as one frame, or broken pipe with nothing sent |
| `Inproc.ZeroRun` | monocoque-zmtp/src/inproc_stream.rs:86-117 | a read of zero bytes with all the data still to come |
| `Inproc.AnyRun` | monocoque-zmtp/src/inproc_stream.rs:51-142 | for every run of sends and reads of any capacities, received, remainder and queue are the bytes sent, in order |
| `Reconnect.DelayMonotone` | monocoque-core/src/reconnect.rs:70-98 | backoff never shrinks, starts at the base, and stays between base and the larger of base and maximum |
| `Reconnect.ReconnectState.NextDelay` | monocoque-core/src/reconnect.rs:70-90 | the incremental form returns the closed form for its counter |
| `Reconnect.ReconnectState.Reset` | monocoque-core/src/reconnect.rs:95-98 | back to the first delay |
| `Reconnect.AnyRun` | monocoque-core/src/reconnect.rs:50-98 | in any run each delay is the closed form of the attempts since the last reset |
| `Reconnect.BackoffFormsAgree` | monocoque-core/src/options.rs:1285-1298 | equals the options' interval iff backoff is off, or max >= base with k <= 10, 1024 * base >= max or base = 0 |
| `Reconnect.JitterRange` | monocoque-zmtp/src/base.rs:202-211 | every sleep is within half the delay and the delay iff the delay fits 64 bits of nanoseconds |
| `Reconnect.JitteredBackoff` | monocoque-zmtp/src/base.rs:202-211 | the sleep is one of those values |

## Left out

- CURVE, PLAIN and ZAP security: connections are plaintext and `curve_cipher` is absent.
- The publish-subscribe hub and index of the core crate are not part of this model.
- Clocks, the runtime, TCP, IPC and file descriptors: timeouts, partial writes, chunk sizes and failures are arbitrary outcomes.
- Memory ordering: atomics and locks are sequentially consistent steps; the generation counter is unbounded.
- Frames across a reconnect: stream properties are per connection, beyond `Codec.AlignedIffNothingStaged`; a PULL socket's partly assembled message also survives a reconnect and no claim is made about it.
- Changes of the frame limit in the middle of a connection (`set_options` also sets it); other options may change between calls.
- Behaviour after the first protocol error: chunking results stop there, since neither session nor decoder latches an error.
- Session.RunSession: the order of handshake and frames is proved for every run, but which events follow a first error is not specified.
- EndToEnd.Pipeline: messages of no frames put nothing on the wire, so they are not among the messages sent.
- Workers.Publisher.DispatchAll: a channel bound of zero is a channel that is always full; what the workers do between visits is arbitrary, and tied to the counters' invariant in `PubSystem`.
- Fanout.Publish: the poison flag of the publisher, which nothing sets, and the refresh of its copy of the union, which `Prefilter` models.
- Coalesce.Worker.Run: subscriptions are held fixed; `PubSystem` reads them when it writes. Order among subscribers is arbitrary. A write's outcome is a function of subscriber and stream position.
- PubSystem.WantedMessageDelivered: one worker, the one the subscriber was assigned to; other workers share nothing with its stream.
- Union entries of subscribers that disconnected or whose hand-off failed: the union keeps them, which only lets more through.
- `invert_matching`, which switches the prefilter off.
- XPUB: in verbose mode the reported events are not folded, and refcounts are not an exact subscriber count, since they count messages. Manual mode and upstream forwarding are not modelled.
- Xpub.XPubSocket.RecvSubscription: the poll's outcome is the list of events that arrived; reading and decoding them is the decoder's part.
- SUB, XSUB and XPUB writes that go to the stream directly, without the poison guard.
- DEALER's separate send buffer, REQ/REP state flags, proxies, STREAM, close and linger, endpoint parsing, monitors, builders and option setters: easy members or plumbing.
- Inproc.InprocStream.Read: the caller's raw pointer across the suspension point is an array here; its memory safety is not modelled.
- Reconnect.ReconnectState.NextDelay: the 32-bit attempt counter wraps, as in builds without overflow checks; with them the call would panic there.
- Reconnect.Jittered: the 64-bit addition wraps, as in builds without overflow checks.
