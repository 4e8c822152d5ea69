# Verified model of the WebSocket client, the LRU cache and the path normaliser

A Dafny model of three C components and proofs about them.

* **WebSocket client** (`src/websocket/websocket.c`). `Protocol` is a state machine whose steps are the critical
  sections of the worker thread and of the API calls; `ProtocolSafety` proves what every reachable state satisfies and
  what every run does, `ProtocolRuns` what runs lead to, told by the calls made and the octets received alone.
  `Websocket` is the same client on shared memory: each method that takes the mutex is proved to be one step of the
  machine, and the worker is a loop of such methods between which any number of other calls happen. `Frames` is the codec
  of sections 5.2 and 5.3 of RFC 6455, with the examples of section 5.7 in `FrameExamples`, `SocketIO` the loops that
  send and receive frames over a socket with arbitrary short reads and writes, `Reassembly` and `Reassembler` the
  fragment buffer, `Events` and `EventQueue` the events and their linked list, `Sha1Spec`, `Sha1` and `Sha1Stream` the
  digest of FIPS 180-4, with a published example in `Sha1Abc` and its computation with literal words in `Sha1Machine`,
  `Base64` the encoder of section 4 of RFC 4648, and `Handshake` the use of both, with the example of RFC 6455 in
  `HandshakeExample`.
* **LRU cache** (`src/lru_cache/lru_cache.c`). `LruSpec` is a most-recent-first list, `LruRuns` and `LruInclusion` the
  theorems about whole runs of it, when a key is retained and when a smaller cache is included in a larger one, and
  `LruCache` the doubly linked heap structure that refines it.
* **Relative-path normaliser** (`src/fileio/fileio_common.c`). `PathSpec` is split, reduce and join; `PathLaws` what that
  does to the text of a path, and `PathNormalizer` is the one-pass algorithm over the arrays, proved equal to it.

`Bytes` holds octets, big-endian numbers, C strings and `memcpy`.

The environment appears as nondeterministic choices: how many bytes a read or write moves, when `select` is interrupted
or fails, mask keys, the calls of other threads and their order. A send that fails midway leaves a partial frame; the
state records that it happened, and the theorems about the decoded wire hold as long as it has not.

Three things the code does that a reader may not expect, all modelled as they are: several Close frames may be sent and
data frames may follow one (`ProtocolSafety.CloseAfterClose`, `DataAfterClose` and `FramesAfterClose`); a continuation
frame without a start is accepted and appended (`Reassembly.StrayContinuation`); and a message of more than `INT_MAX`
bytes is reported with a cast length (`Events.DeliveredWhole`).

## Model

| member | source | states |
|---|---|---|
| ProtocolSafety.EventTheorem | src/websocket/websocket.c:188-217 | in every reachable state the events enqueued are none, `OPEN MESSAGE*`, or a complete `ERROR CLOSE` / `OPEN MESSAGE* [ERROR] CLOSE`; the connection is up exactly in the second case; an exited worker has completed the sequence; polled events followed by queued ones are the enqueued ones, in order, until destroy discards the queue |
| ProtocolSafety.PeerCloseTheorem | src/websocket/websocket.c:289-300 | end to end: a Close frame built as the client builds its own, for any code from 1 to 65535 and NUL-free reason, at the head of the stream read next leads, in every run and interleaving, to exactly one more event, CLOSE with that code and the reason cut to 123 octets |
| ProtocolSafety.CloseFrameTheorem | src/websocket/websocket.c:489-505 | in every run and interleaving from a Close frame in hand, nothing is enqueued until one CLOSE is, and nothing after it; it carries the frame's code and reason if the frame has two octets or more, else those requested at the step that dispatched it, else 1000 and no text |
| ProtocolSafety.FailureTheorem | src/websocket/websocket.c:434-454 | in every run and interleaving from a failed select or reception the remaining events are ERROR and CLOSE 1006 with the matching text; from a stream that ended between frames CLOSE alone, with the code and reason in force at the step that takes the mutex to report, even if the close was requested after the reception failed, and 1006 if none was |
| ProtocolRuns.EndOfStream | src/websocket/websocket.c:446-454 | when fewer than two octets are left, every run that leaves the loop has added exactly one event, CLOSE, with the code and text of the last close call by the time of the report, or 1006 `connection closed` if there was none |
| ProtocolRuns.BrokenStream | src/websocket/websocket.c:461-477 | a stream that ends inside a frame after two octets or more, or holds a frame above 16 MiB, is told as exactly ERROR and CLOSE 1006 `receive failed`, in every run |
| ProtocolRuns.FailedSelect | src/websocket/websocket.c:436-443 | a failed select is told as exactly ERROR and CLOSE 1006 `select failed`, in every run |
| ProtocolRuns.InterruptedSelect | src/websocket/websocket.c:437-438 | an interrupted select and the next check of `destroy_requested` lead back to the same state unless destroy was asked for |
| ProtocolRuns.LeavesOnlyIf | src/websocket/websocket.c:426-453 | the worker has left its loop only if destroy was asked for, the connection failed, or a failure or a Close frame was reported |
| ProtocolRuns.AllDispatched | src/websocket/websocket.c:426-530 | for every stream of readable frames without a Close frame there is a run that dispatches all of them |
| ProtocolRuns.WholeSession | src/websocket/websocket.c:359-548 | for every sequence of messages, in any fragments and with other frames in between, there is a run to the worker's exit that tells OPEN, each message and CLOSE 1006, and nothing else |
| ProtocolRuns.FailedConnection | src/websocket/websocket.c:367-413 | a connection that fails is told as exactly ERROR and CLOSE 1006 with its text, in every run |
| ProtocolRuns.DestroyedLoop | src/websocket/websocket.c:429-430 | a worker that finds destroy asked for adds exactly CLOSE 1006 `connection closed`, in every run |
| ProtocolRuns.EchoTheorem | src/websocket/websocket.c:499-502 | once the worker has left the loop on a peer's Close frame, the last frame on the decoded wire is an empty Close frame |
| ProtocolRuns.PollTheorem | src/websocket/websocket.c:579-602 | n polls take the next n events in the order in which they were enqueued, or all that are left |
| ProtocolSafety.SafeOn | src/websocket/websocket.c:359-548 | every run that continues from a reached state ends in a state with all invariants |
| ProtocolSafety.RunInduction | src/websocket/websocket.c:359-548 | a property of a run and its end that the empty run has and every continuing step keeps holds of every run |
| ProtocolSafety.SafeReached | src/websocket/websocket.c:359-548 | all eleven invariants together hold in every reachable state, with worker steps and client calls interleaved in any order |
| ProtocolSafety.SafeStep | src/websocket/websocket.c:579-651 | each single critical section of the worker or of a client keeps all invariants |
| ProtocolSafety.WireTheorem | src/websocket/websocket.c:253-286 | as long as no send failed midway, parsing all bytes ever sent gives exactly the frames sent, in mutex order, and leaves nothing over, whatever mix of data, PONG and Close frames it is |
| ProtocolSafety.PongTheorem | src/websocket/websocket.c:481-487 | the worker dispatches a prefix of the incoming frames, and the PONG payloads on the decoded wire are the payloads of the PINGs dispatched so far, one each, in order |
| ProtocolSafety.MessageTheorem | src/websocket/websocket.c:507-527 | the MESSAGE events are the reassembled messages of the frames dispatched so far, which are a prefix of the frames in the incoming stream |
| ProtocolSafety.StreamTheorem | src/websocket/websocket.c:446-527 | end to end: when the peer writes well-formed frames within the cap, the frames dispatched are a prefix of the ones written and the MESSAGE events are the messages in that prefix |
| ProtocolSafety.TranscriptTheorem | src/websocket/websocket.c:446-527 | end to end: when those frames are messages one after the other, each cut into any fragments with other frames in between, the MESSAGE events are the first of exactly those messages in order, and all of them once all frames are dispatched |
| ProtocolSafety.RequestTheorem | src/websocket/websocket.c:640-650 | in every reached state the code and text held are those of the last close call of the run, read off the list of calls alone (1000 for a code that is not positive, the text up to its NUL and to 127 octets; 1000 and `client closing` before any), and the two request flags are set exactly when such calls were made |
| ProtocolSafety.CloseTheorem | src/websocket/websocket.c:640-651 | while the connection is up and a close call was made, even before it came up, the last Close frame on the decoded wire carries the code and text of the last such call |
| ProtocolSafety.SendResult | src/websocket/websocket.c:622-638 | a send succeeds exactly when its frame then stands last on the decoded wire |
| ProtocolSafety.DataAfterClose | src/websocket/websocket.c:253-259 | in every reached state without a failed send, sending puts the frame on the decoded wire if and only if it is not an empty binary one, the connection is up and the socket takes all of it, whether or not a Close frame is on the wire already, as it is once a close was requested on an open connection |
| ProtocolSafety.CloseAfterClose | src/websocket/websocket.c:640-651 | likewise another requested close appends another Close frame with the new code and reason if and only if the connection is up and the socket takes all of it |
| ProtocolSafety.FramesAfterClose | src/websocket/websocket.c:622-651 | a run for any incoming stream and key whose decoded wire is a Close frame, an empty text frame and a Close frame |
| ProtocolSafety.SilenceTheorem | src/websocket/websocket.c:212-217 | from a state in which CLOSE is enqueued no run adds a byte to the wire or an event to the log |
| ProtocolSafety.ShutdownTheorem | src/websocket/websocket.c:604-620 | no lost shutdown: a worker that may block in select or recv after a destroy request finds the socket already shut down; an open `sockfd` names a live descriptor; nothing is freed while the worker can still step |
| ProtocolSafety.ExitTheorem | src/websocket/websocket.c:426-453 | once destroy is requested, every run contains at most five more worker steps, at most the rank of the position where the request found it |
| ProtocolSafety.StuckMeans | src/websocket/websocket.c:426-479 | the worker has no step that it can take without waiting if and only if it has exited, is still connecting, or waits for data on a socket that is not shut down |
| ProtocolSafety.WorkerProgress | src/websocket/websocket.c:604-613 | given that a shutdown unblocks select and recv: once destroy is requested, a worker past the connection attempt has a step to take without waiting unless it has exited; with the bound above it does reach its exit |
| ProtocolSafety.ControlStep | src/websocket/websocket.c:415-420 | every step keeps the flags consistent with the worker's position: inside the loop the connection is up and `sockfd` open, after it `sockfd` is invalid and CLOSE emitted |
| ProtocolSafety.OrderedStep | src/websocket/websocket.c:188-217 | every step keeps the automaton phase of the enqueued events equal to the phase that `connected` and `close_emitted` stand for |
| ProtocolSafety.DeliveredStep | src/websocket/websocket.c:579-602 | every step keeps taken ++ queued equal to enqueued until the queue is discarded |
| ProtocolSafety.LifetimeStep | src/websocket/websocket.c:613-619 | the queue is discarded only after the worker has exited and destroy was requested, and the storage freed only after that |
| ProtocolSafety.OutOfStep | src/websocket/websocket.c:253-300 | a step changes the outgoing stream only by transmitting its own frame, and only while the connection is up or comes up |
| ProtocolSafety.AnnouncedStep | src/websocket/websocket.c:640-650 | every step keeps: a requested close on an open connection is announced by the last Close frame sent |
| ProtocolSafety.RequestsOfWorker | src/websocket/websocket.c:359-548 | no worker step changes `close_requested`, `destroy_requested` or the requested code and reason |
| ProtocolSafety.ConsumedStep | src/websocket/websocket.c:446-479 | frames dispatched, being dispatched and still to arrive always add up to the frames of the whole incoming stream |
| ProtocolSafety.ShutDownStep | src/websocket/websocket.c:604-612 | every step keeps: past the check of `destroy_requested`, a requested destroy has shut the socket down |
| Events.EventGrammar | src/websocket/websocket.c:188-217 | the phase automaton accepts exactly the sequences written out as ERROR CLOSE, OPEN MESSAGE* [ERROR] CLOSE and their stages |
| Events.OneClose | src/websocket/websocket.c:212-217 | a complete sequence has exactly one CLOSE, its last event |
| Events.DeliveredWhole | src/websocket/websocket.c:519-524 | a message event carries all its bytes and its true length if and only if the size fits an int, for the cast `(int)frag_len` |
| Events.WrappedLength | src/websocket/websocket.c:521-522 | in any case the length reported differs from the true one by a multiple of 2^32, and nothing is copied if it is not positive |
| Frames.ParseOctets | src/websocket/websocket.c:456-479 | every frame laid out as in section 5.2 of RFC 6455, final or not, masked or not, in each of the three length forms, is read back with its payload and length, whatever follows |
| Frames.ParseEncode | src/websocket/websocket.c:253-286 | what the client's encoder writes is read back with opcode, FIN bit and unmasked payload, for every payload length |
| Frames.ParseAllEncodeAll | src/websocket/websocket.c:253-286 | a wire of whole client frames decodes into exactly those frames with nothing left over |
| Frames.ParseStream | src/websocket/websocket.c:446-479 | a stream of a peer's frames, each masked or not, decodes into exactly those frames |
| Frames.ParseLocal | src/websocket/websocket.c:446-479 | a frame found at the head of a stream depends on its own octets only, whatever comes after them |
| Frames.ParseCut | src/websocket/websocket.c:461-477 | two octets or more that are a proper start of a frame are reported as damaged |
| Frames.ParseTooLong | src/websocket/websocket.c:474-474 | a frame above the cap is reported as damaged, whatever follows |
| Frames.ParseIgnoresReserved | src/websocket/websocket.c:456-457 | the three reserved bits of the first octet make no difference |
| FrameExamples.MaskLaws | src/websocket/websocket.c:282-282 | masking zeros shows the key over and over, and masking keeps the differences of payloads (section 5.3 of RFC 6455) |
| FrameExamples.ShortestForm | src/websocket/websocket.c:262-270 | no length field that is read as the same length is shorter than the one written |
| FrameExamples.MaskedText | src/websocket/websocket.c:253-286 | the client's encoding of the masked example of section 5.7 of RFC 6455, octet for octet |
| FrameExamples.UnmaskedText | src/websocket/websocket.c:456-479 | the unmasked text example of section 5.7, octet for octet |
| FrameExamples.FragmentedText | src/websocket/websocket.c:456-479 | the fragmented text example of section 5.7, octet for octet |
| FrameExamples.PingAndPong | src/websocket/websocket.c:482-486 | the Ping and Pong examples of section 5.7, octet for octet |
| FrameExamples.Binary256 | src/websocket/websocket.c:265-266 | the example of section 5.7 with 256 octets of data |
| FrameExamples.Binary64K | src/websocket/websocket.c:267-269 | the example of section 5.7 with 64 KiB of data |
| FrameExamples.CloseFrames | src/websocket/websocket.c:289-300 | the payload of a Close with status 1000, and the empty masked Close frame, octet for octet |
| Frames.MaskTwice | src/websocket/websocket.c:282-282 | masking with the same key twice gives the payload back |
| Frames.CloseCodeTrip | src/websocket/websocket.c:289-293 | the status code that arrives is the one passed in if and only if it is between 1 and 65535; a code that is not positive arrives as 1000 |
| Frames.CloseReasonTrip | src/websocket/websocket.c:289-299 | a NUL-free reason arrives, in the receiver's 128-byte buffer, as its first 123 octets |
| Frames.CloseFrameTrip | src/websocket/websocket.c:289-300 | the Close frame has at most 125 octets of payload and is read intact off any stream it heads |
| SocketIO.SendAll | src/websocket/websocket.c:232-241 | with any pattern of short writes the whole buffer goes out, or a proper prefix of it and -1 |
| SocketIO.RecvAll | src/websocket/websocket.c:221-230 | with any pattern of short reads the next n bytes of the stream arrive, and it fails exactly when the stream ends before them |
| SocketIO.FillLength | src/websocket/websocket.c:261-270 | the header octets written in place are the length field of the chosen form |
| SocketIO.FillHeader | src/websocket/websocket.c:256-275 | the 14-byte header array holds the frame header, never more than 14 octets |
| SocketIO.MaskInto | src/websocket/websocket.c:280-282 | the masking loop computes the masked payload |
| SocketIO.SendFrame | src/websocket/websocket.c:253-286 | the bytes added to the stream are the encoded frame, or a proper prefix of it and -1 |
| SocketIO.FoldLength | src/websocket/websocket.c:461-467 | the octet loop computes the big-endian value of the extended length |
| SocketIO.Unmask | src/websocket/websocket.c:478-478 | the in-place loop unmasks the payload |
| SocketIO.ReceiveFrame | src/websocket/websocket.c:446-479 | for every way the stream is chopped into reads, the receiver delivers the frame the parser finds and consumes exactly its octets, reports a missing header when the stream ends before it, and a damaged frame otherwise |
| Reassembly.FragmentationTransparent | src/websocket/websocket.c:507-527 | a message cut into any fragments, with PING, PONG or unknown frames in between and any leftover from before, produces the one event of the same bytes in a single frame, complete if they fit an int |
| Reassembly.OpcodesOfData | src/websocket/websocket.c:508-517 | opcodes 0, 1 and 2 are data, 1 and 2 start a message, 1 a text; any other opcode leaves no trace |
| Reassembly.StrayContinuation | src/websocket/websocket.c:508-525 | a final continuation without a start is accepted: it yields a message of the bytes left over and its own, with the type last begun |
| Reassembly.MessagesInOrder | src/websocket/websocket.c:507-527 | any sequence of messages, each fragmented and interleaved in any way, produces exactly one event for each, in order, from any buffer state |
| Reassembly.ProducedPrefix | src/websocket/websocket.c:507-527 | a sequence of frames cut short has produced the start of what the whole produces |
| Reassembly.OnlyDataCounts | src/websocket/websocket.c:481-530 | frames that are not text, binary or continuation change neither the buffer nor the events |
| Reassembly.MessageState | src/websocket/websocket.c:507-527 | a fragmented message yields one event with its type and concatenated bytes and leaves the buffer empty |
| Reassembler.Reassembler.Grow | src/websocket/websocket.c:510-516 | growing the buffer to new_len + 4096 keeps every accumulated byte and makes the new length fit |
| Reassembler.Reassembler.Append | src/websocket/websocket.c:508-518 | a start frame drops what was kept, and the payload is appended in place |
| Reassembler.Reassembler.Take | src/websocket/websocket.c:507-530 | the buffer follows the reassembly function for every frame and produces its event |
| EventQueue.EventQueue.Enqueue | src/websocket/websocket.c:188-203 | the linked list gains the event at its end |
| EventQueue.EventQueue.Dequeue | src/websocket/websocket.c:583-588 | the oldest event is taken off, or none from an empty list |
| Websocket.Session | src/websocket/websocket.c:555-577 | a client on shared memory up to its worker's exit: created and run with other threads calling in between, it ends in a state reached by a run of the state machine, with a complete event sequence and a closed socket |
| Websocket.Lifetime | src/websocket/websocket.c:555-620 | the whole life of a client, with calls such as poll between the worker's exit and destroy: at the end it is freed, its queue empty, its event sequence complete, and what was polled is the start of that sequence |
| Websocket.Websocket.Destroy | src/websocket/websocket.c:604-620 | the rest of destroy after the join, with its first two critical sections before or after the worker's exit, enqueues nothing, empties the queue and frees |
| Websocket.ReachableInductive | src/websocket/websocket.c:359-548 | being reachable holds initially, is kept by every step and implies all invariants, so the memory-level client always shows a reachable state |
| Websocket.Websocket.WorkerMain | src/websocket/websocket.c:359-548 | from its start the worker ends at its exit whatever the network and other threads do, each critical section being one step of the state machine |
| Websocket.Websocket.LoopRound | src/websocket/websocket.c:426-538 | one round of the loop ends at the top with less left to read or to be interrupted, or has left the loop after reporting why |
| Websocket.Websocket.SendFrameLocked | src/websocket/websocket.c:253-286 | the critical section's send changes the state as the state machine's send does, and returns 0 exactly when the whole frame went out |
| Websocket.Websocket.Publish | src/websocket/websocket.c:415-420 | opening sets the flags, enqueues OPEN and announces a close requested before, in one step |
| Websocket.Websocket.ReportEnd | src/websocket/websocket.c:446-454 | a stream that ends between frames enqueues only CLOSE, with the requested code and reason if a close was requested, else 1006 |
| Websocket.Websocket.ReportError | src/websocket/websocket.c:532-537 | a failed select or reception enqueues ERROR and CLOSE 1006 in one step |
| Websocket.Websocket.AnswerPing | src/websocket/websocket.c:482-487 | a PING is answered by one PONG frame with its payload in one step |
| Websocket.Websocket.DeliverMessage | src/websocket/websocket.c:519-530 | a finished message is enqueued in one step, other frames change nothing shared |
| Websocket.Websocket.ReadCloseInfo | src/websocket/websocket.c:489-498 | code and reason come from the Close frame if it carries them, else from the request, else the defaults |
| Websocket.Websocket.ReportClose | src/websocket/websocket.c:499-502 | the Close frame is echoed and CLOSE enqueued in one step |
| Websocket.Websocket.Leave | src/websocket/websocket.c:540-545 | the connection is marked down, CLOSE enqueued if none was, and sockfd invalidated in one step |
| Websocket.Websocket.FailConnect | src/websocket/websocket.c:367-413 | an early failure closes the descriptor and enqueues ERROR and CLOSE 1006 |
| Websocket.Websocket.CheckDestroyed | src/websocket/websocket.c:429-431 | the loop is left exactly if destroy has been asked for |
| Websocket.Websocket.SendText | src/websocket/websocket.c:622-629 | one step that sends the text up to its NUL; 0 exactly when the frame then stands last on the decoded wire |
| Websocket.Websocket.SendBinary | src/websocket/websocket.c:631-638 | one step that sends the data; -1 for empty data, and 0 exactly when the frame then stands last on the decoded wire |
| Websocket.Websocket.Close | src/websocket/websocket.c:640-651 | one step that records code and reason and sends a Close frame if connected |
| Websocket.Websocket.PollOne | src/websocket/websocket.c:579-588 | one step that takes the oldest event, if there is one |
| Websocket.Websocket.RequestDestroy | src/websocket/websocket.c:609-612 | one step that sets destroy_requested and shuts an open socket down |
| Websocket.Websocket.Discard | src/websocket/websocket.c:613-617 | after the worker's exit, one step that empties the queue |
| Sha1.Transform | src/websocket/websocket.c:56-69 | the in-place transform is the compression function of section 6.1.2 of FIPS 180-4 for every state and block |
| Sha1.FillSchedule | src/websocket/websocket.c:58-62 | the 80-word array holds the message schedule of the standard |
| Sha1.EightyRounds | src/websocket/websocket.c:63-67 | the four round loops over the rotating variables compute the eighty rounds of the standard |
| Sha1Spec.OrForms | src/websocket/websocket.c:64-66 | the OR forms of the code equal the XOR forms of Ch and Maj for all words |
| Sha1Abc.AbcDigest | src/websocket/websocket.c:54-91 | the digest of `abc` as defined is the published one, octet for octet |
| Sha1Spec.KIsRoot | src/websocket/websocket.c:64-67 | the four constants are the integer parts of 2^30 times the roots of 2, 3, 5 and 10 |
| Sha1Spec.ChainPrefix | src/websocket/websocket.c:79-80 | the hash value after n blocks depends on those blocks only |
| Sha1Spec.PadIsWhole | src/websocket/websocket.c:87-89 | the padded message is a whole number of blocks, and no shorter padding is |
| Sha1Stream.AddWithCarry | src/websocket/websocket.c:77-78 | the two-word addition with carry adds 8n to the 64-bit counter |
| Sha1Stream.Position | src/websocket/websocket.c:76-76 | bits 3 to 8 of the low word give the place in the block, whatever the high word is |
| Sha1Stream.Sha1Ctx.Update | src/websocket/websocket.c:74-82 | absorbing a piece extends the message by it: counter, state and carry-over buffer are exactly those of the longer message, wherever the cut falls |
| Sha1Stream.Sha1Ctx.Final | src/websocket/websocket.c:83-91 | the 20 octets are the digest of everything absorbed, for messages below 2^61 octets |
| Sha1Stream.DigestOfPieces | src/websocket/websocket.c:70-91 | init, one update for each piece of any cutting, and final give the digest of the whole message |
| Base64.DecodeEncode | src/websocket/websocket.c:95-111 | decoding recovers every byte string from its encoding |
| Base64.EncodeDecode | src/websocket/websocket.c:95-111 | whatever decodes is what the encoder writes for the result |
| Base64.Bijection | src/websocket/websocket.c:95-111 | a string decodes to s if and only if it is the encoding of s, so encoding is injective |
| Base64.EncodeSpellsTheBits | src/websocket/websocket.c:95-111 | the letters spell the bits of the input, six at a time, followed by zeros only (section 4 of RFC 4648) |
| Base64.LettersThenPadding | src/websocket/websocket.c:95-111 | alphabet letters everywhere except 0 to 2 pad characters at the end, as many as the length modulo 3 asks for |
| Base64.AlphabetCodes | src/websocket/websocket.c:95-95 | the alphabet is A-Z, a-z, 0-9, + and / at their places |
| Base64.EncodeInto | src/websocket/websocket.c:97-111 | the loop writes the encoding, 4*ceil(n/3) characters, and a NUL, and nothing beyond |
| Handshake.KeyAndAccept | src/websocket/websocket.c:304-321 | within the source's buffer sizes, the key decodes to the 16 raw octets and the expected answer is the base64 of the SHA-1 of key and GUID (section 4.1 of RFC 6455) |
| HandshakeExample.AcceptExample | src/websocket/websocket.c:309-321 | the answer to the key of section 1.3 of RFC 6455 as defined is the published one, which pins the GUID, two blocks of SHA-1 and base64 |
| LruCache.LruCache.Find | src/lru_cache/lru_cache.c:25-42 | the search finds the entry of the key if there is one, and null otherwise |
| LruCache.LruCache.RemoveEntry | src/lru_cache/lru_cache.c:44-75 | the entry leaves the list, which stays one duplicate-free doubly linked list, and both counters stay exact |
| LruCache.LruCache.TouchFront | src/lru_cache/lru_cache.c:77-101 | the entry moves to the front and nothing else changes place |
| LruCache.LruCache.EvictIfNeeded | src/lru_cache/lru_cache.c:103-114 | the loop terminates with the evicted list of the specification |
| LruCache.Create | src/lru_cache/lru_cache.c:116-131 | a new cache is empty and valid; zero limits give null |
| LruCache.LruCache.Clear | src/lru_cache/lru_cache.c:143-166 | everything is forgotten |
| LruCache.LruCache.GetCopy | src/lru_cache/lru_cache.c:168-195 | a hit returns the data and is the get of the specification; a miss or a failed allocation changes nothing |
| LruCache.LruCache.Replace | src/lru_cache/lru_cache.c:207-230 | the update branch puts the new payload in front with exact counters |
| LruCache.LruCache.Insert | src/lru_cache/lru_cache.c:235-270 | the insert branch puts the new entry in front with exact counters |
| LruCache.LruCache.PutCopy | src/lru_cache/lru_cache.c:197-274 | 0 exactly for a storable payload that can be allocated, and then the put of the specification; otherwise -1 and no change |
| LruCache.Perform | src/lru_cache/lru_cache.c:168-274 | any run of calls on the heap structure is the same run on the most-recent-first list, as long as memory holds the resident payloads and the one being put |
| LruCache.PerformThenGet | src/lru_cache/lru_cache.c:168-195 | after any run on the structure a get returns nothing or the bytes last put under the key |
| LruCache.AlwaysAffordable | src/lru_cache/lru_cache.c:203-210 | it does in every run when twice the byte limit fits a size_t |
| LruCache.PerformAndGet | src/lru_cache/lru_cache.c:168-195 | after any run a get on the structure returns the data of a key's last touch if its working set has always fitted since, and nothing otherwise |
| LruSpec.EvictLongest | src/lru_cache/lru_cache.c:103-114 | eviction keeps the longest most-recent-first prefix within both limits, no more and no less |
| LruSpec.ApplyKeeps | src/lru_cache/lru_cache.c:168-274 | every operation keeps keys unique and both limits, and a successful put or a hit is resident, in front |
| LruSpec.HitReorders | src/lru_cache/lru_cache.c:180-194 | a hit only reorders: nothing is evicted |
| LruRuns.RunKeeps | src/lru_cache/lru_cache.c:168-274 | both limits, unique keys and non-empty payloads hold after every run |
| LruRuns.PutThenFound | src/lru_cache/lru_cache.c:203-273 | after a put of 1 to max_bytes bytes the key is found with exactly those bytes; any other put changes nothing |
| LruRuns.FoundAfter | src/lru_cache/lru_cache.c:168-274 | what is touched is found as touched, and any other key as before or not at all |
| LruRuns.FoundIsLastPut | src/lru_cache/lru_cache.c:168-274 | over every run from empty a key is found with the bytes of its last put, read off the list of operations alone |
| LruRuns.Retention | src/lru_cache/lru_cache.c:103-114 | as long as the distinct keys touched since a moment have fitted both limits, they are the head of the list, in order of last use, with their last data |
| LruRuns.KeyRetained | src/lru_cache/lru_cache.c:168-274 | after its last put or hit a key is present if and only if it and the distinct keys touched since have always fitted both limits together, and then with the data of that touch, which a get returns |
| LruInclusion.IncludedStep | src/lru_cache/lru_cache.c:77-114 | one operation on a small and a large cache keeps the small list a subsequence of the large one, even when a get hits only in the large one |
| LruInclusion.InclusionExactly | src/lru_cache/lru_cache.c:103-114 | for any limits and payload bound: in every run from empty the first cache's list is a subsequence of the second's, with equal data, if and only if the bound is 0, or both store the same payloads, the first allows no more entries (an entry takes at least a byte), and the first allows one entry, or the limits are the same, or no byte budget can bind |
| LruInclusion.Inclusion | src/lru_cache/lru_cache.c:168-274 | when no byte budget can bind, moreover a get that hits in the small cache returns the same data in the large one |
| LruInclusion.Overtaken | src/lru_cache/lru_cache.c:77-114 | a run of puts, gets that hit in the large cache only, and one more put leaves an item in the small cache that the large one has lost |
| LruInclusion.RunNormal | src/lru_cache/lru_cache.c:103-114 | an entry limit above the byte limit is never felt |
| LruInclusion.InclusionNeedsRoom | src/lru_cache/lru_cache.c:207-210 | the failing run when the small cache refuses payloads that the large one stores |
| PathNormalizer.NormalizeRelpath | src/fileio/fileio_common.c:18-133 | the in-place pass returns 0 exactly when the specification yields a result, and then the output holds it and a NUL, for every output size |
| PathNormalizer.NormalizeForMount | src/fileio/fileio_common.c:135-143 | with the caller's 512-byte buffer it is split, reduce, join, for every input |
| PathNormalizer.ReduceInto | src/fileio/fileio_common.c:59-125 | the loop with marks, depth and out_len computes the reduction of the segments, or fails exactly when that pops below the root or a guard fires |
| PathNormalizer.Pop | src/fileio/fileio_common.c:88-98 | `..` cuts the output back to the joined stack without its last segment |
| PathNormalizer.Append | src/fileio/fileio_common.c:100-124 | a segment is pushed if it fits, and the output holds the joined longer stack |
| PathNormalizer.NextSegment | src/fileio/fileio_common.c:67-81 | the two scans find the first of the remaining segments, or that there is none |
| PathNormalizer.FlipSlashes | src/fileio/fileio_common.c:51-57 | every backslash becomes a slash in place |
| PathSpec.GuardsNeverFire | src/fileio/fileio_common.c:100-120 | with a 512-byte output neither the depth guard nor the capacity guard can fire, for any input |
| PathSpec.NormalizeSucceeds | src/fileio/fileio_common.c:31-132 | success if and only if the input is below 512 characters, relative, colon-free, no prefix of its segments goes up more often than down, and something is left unless empty is allowed |
| PathSpec.Reduced | src/fileio/fileio_common.c:59-125 | a result is the join of a stack of plain segments, no longer than the input |
| PathSpec.SegmentsOfJoin | src/fileio/fileio_common.c:62-125 | splitting a joined stack gives the stack back |
| PathSpec.Idempotent | src/fileio/fileio_common.c:18-133 | normalising a result returns it unchanged |
| PathSpec.Compositional | src/fileio/fileio_common.c:50-132 | a/b and A/b, where A is the non-empty result for a, give the same result or both fail |
| PathLaws.BackslashIsSlash | src/fileio/fileio_common.c:51-57 | for all a and b, a\\b and a/b give the same result, for every output size |
| PathLaws.BackslashParts | src/fileio/fileio_common.c:51-57 | the segments of a\\b are those of a and then those of b |
| PathLaws.EmptySegment | src/fileio/fileio_common.c:67-70 | a//b gives the result of a/b |
| PathLaws.DotSegment | src/fileio/fileio_common.c:83-86 | a/./b gives the result of a/b |
| PathLaws.UpSegment | src/fileio/fileio_common.c:88-98 | a/x/../b gives the result of a/b for every name x |
| PathLaws.OneName | src/fileio/fileio_common.c:105-124 | a name is its own result |
| PathLaws.OneMoreName | src/fileio/fileio_common.c:105-124 | if a gives a non-empty A then a/x gives A/x for every name x |
| PathLaws.NoName | src/fileio/fileio_common.c:88-130 | the empty path gives the empty result if that is allowed, and `..` fails |
| PathLaws.Refused | src/fileio/fileio_common.c:31-48 | 512 characters or more, a leading slash or backslash, or a colon anywhere, fail |
| PathLaws.WithinReduces | src/fileio/fileio_common.c:100-120 | for an output of any size the reduction succeeds exactly if after every segment the stack has at most 256 entries and its text and a NUL fit |

## Left out

- Real sockets, DNS, `connect`, pthread primitives and the Windows shims: a socket is two byte streams, the mutex is the atomicity of steps, and everything before the socket is published is one step that succeeds or fails.
- The handshake request, `ws_parse_url`, and the `101` and Accept-header matching: mostly C library string calls; the key and the expected answer are modelled.
- `ws_xorshift` and the seeding by time: mask keys and the raw handshake key are arbitrary.
- Allocation failure, except for payload copies in the cache, where `malloc` has a given amount of room: a failed `calloc` drops an event, a failed `malloc` of the masked copy leaves a lone header on the wire.
- The unlocked reads of `websocket_is_connected` and `websocket_get_url`, and NULL arguments.
- Websocket.Websocket.ReadCloseInfo: reads the requested code and reason in one atomic step; the source reads them without the lock, so a torn text is not modelled.
- Websocket.Websocket.SendBinary: data is at most `INT_MAX` bytes; for more, the source's casts to `int` in `send` are not modelled.
- Websocket.Websocket.SendText: the same bound on the text.
- Websocket.Websocket.SendFrameLocked: the same bound on the payload.
- SocketIO.SendFrame: the same bound on the payload.
- Reassembler.Reassembler.Append: lengths are unbounded; wrap-around of `size_t` in `frag_len + plen` is not modelled, since memory ends first.
- Websocket.Websocket.PollOne: one round of the loop in `websocket_poll`; the callbacks are left out, a callback may itself make any of the modelled calls.
- `websocket_destroy` is the sequence Close, RequestDestroy, Discard and a step that frees; `pthread_join` is the guard that the worker has exited.
- ProtocolSafety.WorkerProgress: leaves out a worker that is still connecting; the source does not shut its socket down, so destroy waits for the connection attempt to end.
- Websocket.Websocket.WorkerMain: terminates for a finite incoming stream and finitely many interruptions of `select`; blocking is not modelled.
- Base64.EncodeInto: source and destination are distinct buffers, as at both call sites.
- Sha1Stream.Sha1Ctx.Update: the data is not the context's own buffer.
- LruCache.Perform: every put finds the memory it needs; a put that does not is modelled by `PutCopy` alone, which leaves the cache as it was.
- `lru_cache_destroy` and the two size getters: a clear and two field reads.
- File opens, reads, writes, stat, mkdir and rmdir in `fileio_common.c`, and the truncation of the joined full path: calls of the operating system.
- `src/event`, `src/uri`, `src/path`, `src/json`, `src/logger`, `src/fetch_url`, `src/async`, `src/vec` and the `*.wasm.c` files: thin layers over libraries that are not part of this model.
