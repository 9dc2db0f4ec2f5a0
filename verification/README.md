# Verified models of the channel broker, the WebSocket codec, the session store and the route harvester

Four parts of the repository carry shared state or scanning loops whose correctness does not show from reading one
function. Each has its own group of modules.

- **Channel broker** (`Broker*.dfy`, from `cmd/channel/main.go`). One reader goroutine, any number of command
  handlers and any number of subscriber handlers share the `pending` and `subs` tables. `BrokerHub` holds the hub as
  a class with one method per lock region or atomic operation, each proved to be an operation of `BrokerState` on
  the tables and the Go channels. `BrokerSteps` is the step machine over these operations: every lock region, atomic
  operation and channel operation is one step, and any enabled step of any goroutine may come next. A blocking channel
  operation is a step that is enabled only when it would not block; a send on a closed channel, a second close, or two
  table entries that are the same channel set a `panicked` flag. The invariant in `BrokerInvariant` is kept by every
  step; `BrokerTheorems` and `BrokerCounts` draw the guarantees from it.
- **Frame codec** (`Wire*.dfy`, from `internal/wsx/wsx.go`, RFC 6455 sections 5.2, 5.3 and 5.5). `Serialize` is what a
  frame is and `Decode` is one call of the frame reader, error cases included; each is proved the exact inverse
  of the other. `WireStream` specifies the text reader's loop for every byte stream, `WireConn` is the connection as a class
  whose methods are the loops of the source, and `WireLock` is the write lock at the level of single bytes. The
  length at which the platform can no longer allocate a slice is a parameter of the reader.
- **Session store** (`Store*.dfy`, from `internal/session/store.go`). `StoreObject` is the table of session objects as
  classes, `StoreSteps` the step machine of `Add`, `Delete` and one supervisor per added session, whose probe may be out
  while anything else happens. Objects are named by address, so that repeated ids are covered.
- **Route harvester** (`Route*.dfy`, from `cmd/harvest/main.go`). `Declares` says, with brace balance and the two
  patterns as plain predicates on text, which routes a text declares; the extractor's scan, depth filter, set and sort are methods proved
  against it, and the newline-joined concatenation of files is proved to be the union of the files.

## What the source does that its comments do not say

- `ReadText` is documented to return `io.EOF` on a close frame. It returns the same error when the stream ends
  where a part of a frame (header, extended length, mask, payload) was to start, so `io.EOF` does not tell a close from a
  cut connection. `WireStream.EOFOnNothing` and `WireStream.EOFBehindHeader` are such streams, and
  `WireStream.EOFWithoutClose` says, for every stream, exactly when the reader ends with it.
- `readFrame` panics on `make([]byte, n)` exactly when the announced length is at least what the platform can
  allocate and everything before the payload has arrived: `WireFrames.PanicsExactly`, with inputs in
  `WireFrames.PanicsOnTenBytes`. On a 64-bit platform that limit is far below 2^63. With no limit but the range of a Go
  `int`, the top bit of the 64-bit length would decide: `WireFrames.PanicsOnTopBit`.
- A write that fails part-way leaves the start of a frame on the socket, and nothing stops a later write. The socket's bytes are
  whole frames if and only if no write was cut: `WireLock.PeerReadsWholeFrames`. In
  `WireLock.PeerReadsWhatNobodySent` a peer reads a text that no writer sent; `WireLock.CutFrameReadsOn` says in
  general what a cut frame is read as.
- An `Add` under an id that is already tracked replaces the entry without cancelling the old supervisor, and
  `mark` and `reap` look sessions up by id alone. With repeated ids an old probe can therefore reap a new session:
  `StoreTheorems.OldProbeReapsNewSession` is such a run, `StoreTheorems.LateProbeExactly` says when it happens, and the theorems that
  need it take unique ids as a hypothesis on the run.
- The harvester joins files before it scans them, so a file cut in a path key, or ending in an open block, takes what follows
  it. `RouteExact.OpenBlockBreaksUnion` is an input on which the joined text declares a route that no file
  does, and `RouteExact.UnionExactly` is the exact condition on a file under which this never happens, whatever the other files are.

## Model

| member | source | states |
|---|---|---|
| `BrokerHub.Hub.constructor` | cmd/channel/main.go:69-76 | A new hub has empty tables and zero counters. |
| `BrokerHub.Hub.AllocCommand` | cmd/channel/main.go:166-169 | The next id, with a fresh open channel of capacity 1 owned by that id; nothing else changes. |
| `BrokerHub.Hub.AllocSubscriber` | cmd/channel/main.go:238-239 | The next subscriber id, with a fresh open channel of capacity 256; nothing else changes. |
| `BrokerHub.Hub.Register` | cmd/channel/main.go:170-172 | The pending table gains exactly this id and channel, and stays a table of open channels under their makers' ids. |
| `BrokerHub.Hub.Withdraw` | cmd/channel/main.go:175-177 | The id leaves the pending table, or nothing changes if it was not there. |
| `BrokerHub.Hub.TakePending` | cmd/channel/main.go:94-98 | One region looks the id up and removes it; an unknown id yields no channel. |
| `BrokerHub.Hub.Deliver` | cmd/channel/main.go:99-101 | The reader's send outside the lock appends the frame to that channel and changes nothing else. |
| `BrokerHub.Hub.Receive` | cmd/channel/main.go:211-216 | A handler's receive takes the oldest frame of its channel and changes nothing else. |
| `BrokerHub.Hub.Subscribe` | cmd/channel/main.go:240-242 | The subscriber table gains exactly this id and channel. |
| `BrokerHub.Hub.Unsubscribe` | cmd/channel/main.go:243-247 | The id leaves the subscriber table; other entries and all channels are untouched. |
| `BrokerHub.Hub.CountCommand` | cmd/channel/main.go:181 | One more command counted, nothing else. |
| `BrokerHub.Hub.CountEvent` | cmd/channel/main.go:105 | One more event counted, nothing else. |
| `BrokerHub.Hub.Fanout` | cmd/channel/main.go:113-122 | In whatever order the map is ranged over, every subscriber with room gets the frame at its end, every full one is unchanged, and no other channel is touched. |
| `BrokerHub.Hub.Shutdown` | cmd/channel/main.go:124-135 | Exactly the listed channels are closed, each once, buffered frames stay, and both tables are empty. |
| `BrokerHub.Hub.InFlight` | cmd/channel/main.go:312-314 | The two sizes reported are those of the tables in one state. |
| `BrokerHub.Hub.ValidIsConsistent` | cmd/channel/main.go:57-59 | The class invariant rules out a channel listed twice and a closed channel in a table, whatever the ids. |
| `BrokerInvariant.StepKeeps` | cmd/channel/main.go:79-309 | Every step of the reader, of a command handler and of a subscriber handler keeps the invariant. |
| `BrokerTheorems.NothingPanicsNothingBlocks` | cmd/channel/main.go:78-135 | In every run no send or close hits a closed channel, every pending channel is open and empty, every listed subscriber channel is open, no channel is listed twice, and a reader that has left the socket read can always take its next step. |
| `BrokerTheorems.ReplyIsFirstOwnFrame` | cmd/channel/main.go:94-216 | The body returned to a command is a frame read from the socket with that command's id, and the first such frame looked up since it registered. |
| `BrokerTheorems.RepliesAreDistinct` | cmd/channel/main.go:150-216 | No two commands get the same frame. |
| `BrokerTheorems.FirstReplyReaches` | cmd/channel/main.go:94-216 | The first frame with a registered command's id that the reader looks up is that command's reply, about to be sent on its empty channel, in it, or returned, unless the handler had withdrawn the command before that lookup after a timeout or a failed write; a shutdown cannot lose it. |
| `BrokerTheorems.OneLifecycle` | cmd/channel/main.go:166-222 | A command is pending from its registration until exactly one of routing, shutdown or withdrawal, and is gone from the table when its handler returns; what it returns agrees with how it left. |
| `BrokerTheorems.ExitsAndOutcomesAreFinal` | cmd/channel/main.go:166-222 | How a command left the table and what its handler returned never change in any later state, and it never comes back. |
| `BrokerTheorems.IdsAreNeverReused` | cmd/channel/main.go:166-172 | An allocated id is new, is never handed out again, and its channel is never shared with another command or subscriber. |
| `BrokerTheorems.SubscriberIdsAreNeverReused` | cmd/channel/main.go:238-242 | An allocated subscriber id is new, is never handed out again, and its channel is no other subscriber's. |
| `BrokerTheorems.TablesAreBounded` | cmd/channel/main.go:166-247 | The tables hold running handlers only, so with none running they are empty. |
| `BrokerTheorems.ShutdownWakesEveryone` | cmd/channel/main.go:124-135 | In every later state, each command pending at the shutdown can return if it waits, each subscriber listed then can drain its queue or end, and no frame is read again. |
| `BrokerTheorems.SubscriberAccount` | cmd/channel/main.go:113-122 | Received and queued frames are, in order, a selection of the frames fanned out while the subscriber was listed; received + queued + dropped is their number; the queue never exceeds 256. |
| `BrokerTheorems.NothingDroppedIsContiguous` | cmd/channel/main.go:113-122 | With nothing dropped, received and queued together are exactly that stretch of the fan-out log. |
| `BrokerTheorems.DropsExactly` | cmd/channel/main.go:113-122 | In every run, the frames a subscriber lost are exactly as many as the fan-outs that found it listed and full, so none if and only if it had room at each of them. |
| `BrokerTheorems.NeverFullGetsEverything` | cmd/channel/main.go:113-262 | A subscriber with room at every fan-out while it is listed, however full its queue is in between, has the exact stretch of the fan-out log. |
| `BrokerTheorems.AwaitReturnsFirstMatch` | cmd/channel/main.go:270-308 | The frame `/await` returns has the text asked for somewhere in it, no frame it received before does, and with nothing dropped it is the first such frame fanned out since it subscribed; without an answer nothing it received has it, and an event stream never answers. |
| `BrokerTheorems.AnswersExactly` | cmd/channel/main.go:303-306 | A handler answers with a frame if and only if it awaits one and the frame's text is something, the text asked for, and something more; no text asked for is in every frame. |
| `BrokerProtocol.CommandFollowsTheCode` | cmd/channel/main.go:166-222 | In every run what a command handler may do next follows from its own last step: register, write, count, echo, then wait; a wait can always end by timeout, by a frame in its channel, or by a closed empty channel; a failed write or a timeout leads to the withdrawal. |
| `BrokerProtocol.OutcomeIsTheCause` | cmd/channel/main.go:174-222 | A handler returns a reply, channel closed, timed out or write failed if and only if that is what happened to it. |
| `BrokerProtocol.ReaderFollowsTheCode` | cmd/channel/main.go:79-108 | In every run the reader routes after reading a frame with an id, counts and then fans out after one without, sends after a lookup that found a channel, shuts down after a read error, and reads again only when done. |
| `BrokerProtocol.LogsAreTheSteps` | cmd/channel/main.go:81-201 | The read log is the frames the socket gave, the command count is the number of counting steps, and each echo in the fan-out log is the frame shown by that command's echo step. |
| `BrokerProtocol.LookedIsRead` | cmd/channel/main.go:81-105 | The reader has looked at every frame read, except at one that it has yet to route or count. |
| `BrokerProtocol.SubscriberFollowsTheCode` | cmd/channel/main.go:238-308 | In every run a subscriber handler listens from its subscription until it takes an answering frame, finds its channel closed and empty, or gives up, and unsubscribes exactly then. |
| `BrokerCounts.HealthCounts` | cmd/channel/main.go:311-333 | `commands` is the number of commands whose write succeeded and was counted, `events` the number of id-less frames looked at, and neither table is larger than the ids handed out. |
| `BrokerCounts.EveryEventFannedOnceInOrder` | cmd/channel/main.go:94-107 | Without the command echoes, the fan-out log is exactly the id-less frames off the socket, each once, in reading order, at most one behind. |
| `BrokerCounts.EchoedOnceAfterWrite` | cmd/channel/main.go:174-201 | A command's echo is fanned out at most once, exactly when its handler takes the echo step, and only after its write succeeded. |
| `WireBytes.MaskedTwice` | internal/wsx/wsx.go:288-292 | Masking with the same mask again gives the payload back. |
| `WireBytes.XorIsExclusiveOr` | internal/wsx/wsx.go:230-290 | Of the eight bits, by weight, each is set in the result if and only if exactly one operand has it. |
| `WireBytes.MaskedBits` | internal/wsx/wsx.go:229-231 | Byte j of a masked payload differs from the payload's in exactly the bits of mask byte j mod 4. |
| `WireBytes.ValueFromFront` | internal/wsx/wsx.go:270-276 | The first byte of a number is its most significant. |
| `WireBytes.ValueOfBigEndian` | internal/wsx/wsx.go:222-222 | Big-endian bytes of a number in range have that number as their value. |
| `WireBytes.BigEndianOfValue` | internal/wsx/wsx.go:270-276 | Conversely, the value of any bytes written back in that width is those bytes. |
| `WireFrames.LengthRoundTrip` | internal/wsx/wsx.go:210-277 | The 7-bit, 16-bit and 64-bit length headers decode to the form, mask bit and length they were made from. |
| `WireFrames.DecodeSerialized` | internal/wsx/wsx.go:256-294 | A frame in front of any bytes is read back with its opcode and unmasked payload, and not one byte more is consumed; if the payload cannot be allocated the reader panics. |
| `WireFrames.DecodedIsSerialized` | internal/wsx/wsx.go:256-294 | Whatever the reader accepts is the bytes of a well-formed frame with that opcode and payload, followed by what it left. |
| `WireFrames.PrefixFree` | internal/wsx/wsx.go:210-232 | A frame is determined by its bytes, and no frame is a proper prefix of another. |
| `WireFrames.TruncatedFails` | internal/wsx/wsx.go:256-287 | A frame cut anywhere yields no payload: the reader panics if only payload is missing and its length cannot be allocated, else the error is `io.EOF` exactly at a cut where a part of the frame starts, and `io.ErrUnexpectedEOF` otherwise. |
| `WireFrames.PanicsExactly` | internal/wsx/wsx.go:263-284 | On every stream and for every allocation limit, the frame reader panics if and only if the announced length reaches the limit and everything before the payload is there. |
| `WireFrames.PanicsOnTopBit` | internal/wsx/wsx.go:271-284 | If every length in the range of an `int` could be allocated, the panic would be exactly a 64-bit length with its top bit set, with the announced mask there. |
| `WireFrames.PanicsOnTenBytes` | internal/wsx/wsx.go:271-284 | A ten-byte stream announcing 2^63 panics whatever the limit, and one announcing 2^62 panics if and only if the limit is no higher. |
| `WireFrames.EOFExactly` | internal/wsx/wsx.go:256-287 | On any bytes that hold no whole frame the error is `io.EOF` if and only if they stop where a part of a frame starts and do not announce too much, and `io.ErrUnexpectedEOF` if and only if they stop elsewhere. |
| `WireFrames.DecodeProgress` | internal/wsx/wsx.go:256-261 | Every frame read consumes at least two bytes. |
| `WireStream.DecodeAllStream` | internal/wsx/wsx.go:256-294 | Reading a stream of any frames gives exactly their opcodes and payloads in order and stops exactly behind them. |
| `WireStream.DecodesFirst` | internal/wsx/wsx.go:256-294 | Whatever follows a list of frames, reading gives exactly those frames and then what the rest alone would give. |
| `WireStream.EveryStreamParses` | internal/wsx/wsx.go:256-294 | Every byte stream is a list of frames followed by bytes the reader rejects, so the loop theorem covers every input. |
| `WireStream.ParseIsUnique` | internal/wsx/wsx.go:256-294 | A byte stream is a list of accepted frames followed by rejected bytes in one way only. |
| `WireStream.TextRoundTrip` | internal/wsx/wsx.go:209-294 | Texts that the reader can allocate, written one after another under any masks, are read back as opcode 1 with exactly those payloads, and the stream is consumed. |
| `WireStream.ShortestIsShortest` | internal/wsx/wsx.go:213-223 | The form chosen fits the payload and no fitting form makes a shorter frame. |
| `WireStream.OutgoingBytes` | internal/wsx/wsx.go:210-231 | An outgoing frame byte by byte: first byte, mask bit with a 7-bit length up to 125, with 126 and two bytes up to 65535, else with 127 and eight; then the mask and the masked payload. |
| `WireExamples.MaskedHello` | internal/wsx/wsx.go:210-309 | The masked text and pong of section 5.7 of RFC 6455, in bytes. |
| `WireExamples.PlainHello` | internal/wsx/wsx.go:256-294 | The unmasked text and ping of section 5.7, in bytes. |
| `WireExamples.LongHeaders` | internal/wsx/wsx.go:263-277 | The headers of section 5.7 for 256 bytes and 64 KiB, in bytes. |
| `WireExamples.HalfHeader` | internal/wsx/wsx.go:257-260 | One byte of a header is an unexpected end, no byte a plain one. |
| `WireExamples.ConversationIsRead` | internal/wsx/wsx.go:235-309 | On a stream with a ping, a binary, a text, a pong, a continuation, a close and one more text frame the reader returns the first text and `io.EOF`, has written the pong with the ping's payload in exact bytes, and leaves the last frame. |
| `WireStream.ReadLoop` | internal/wsx/wsx.go:235-254 | On every stream the repeated reader returns exactly the texts before the first close, in order, then its error, having written one pong per ping before that point, in order, if the socket takes them all; else it ends with a write error where `ReadLoopStops` says. |
| `WireStream.ReadLoopStops` | internal/wsx/wsx.go:235-254 | If the socket has no room for all the pongs, the loop stops at the first ping whose pong does not fit: it has returned exactly the texts before that ping, written what fits of the pongs, drawn one mask more than the pings before, and left exactly what is behind the ping unread. |
| `WireStream.PongsEchoPings` | internal/wsx/wsx.go:248-309 | The bytes written decode to one pong per ping before the close, in order; each has the whole payload of its ping, or the first 125 bytes of a longer one. |
| `WireStream.PayloadsExactly` | internal/wsx/wsx.go:243-252 | The texts and pings the loop is about are the frames of that opcode with no close frame before them, each once, in order. |
| `WireStream.ClipKeeps` | internal/wsx/wsx.go:297-299 | A control payload is cut to a prefix, of 125 bytes if it is longer and whole otherwise. |
| `WireStream.EOFWithoutClose` | internal/wsx/wsx.go:235-254 | On every stream the reader ends with `io.EOF` if and only if its pongs went out and there is a close frame, or the stream stops where a part of a frame starts without announcing too much. |
| `WireStream.EOFOnNothing` | internal/wsx/wsx.go:235-247 | On an empty stream, with no close frame, the reader returns `io.EOF`. |
| `WireStream.EOFBehindHeader` | internal/wsx/wsx.go:235-247 | On a text frame cut behind its two-byte header, with no close frame, the reader returns `io.EOF`. |
| `WireConn.Conn.Write` | internal/wsx/wsx.go:46-54 | The socket takes the whole buffer, or its start and an error. |
| `WireConn.Conn.AppendMasked` | internal/wsx/wsx.go:226-231 | The append loop adds exactly the masked payload. |
| `WireConn.Conn.WriteText` | internal/wsx/wsx.go:209-233 | What goes out is byte 0x81, the length in the shortest form, the mask drawn and the payload under it, and nothing else. |
| `WireConn.Conn.WriteControl` | internal/wsx/wsx.go:296-309 | What goes out is the opcode with the final bit, the length, the mask drawn, and the payload's first 125 bytes, or all of it, under that mask. |
| `WireConn.Conn.Unmask` | internal/wsx/wsx.go:288-292 | The in-place loop leaves the masked form of the old contents in the array. |
| `WireConn.Conn.ReadFrame` | internal/wsx/wsx.go:256-294 | The reader's result and the input it leaves are those of `Decode`, on every input. |
| `WireConn.Conn.ReadText` | internal/wsx/wsx.go:235-254 | The loop ends, and its result, the input left and the bytes written are those of the specification that `ReadLoop` is about. |
| `WireConn.Conn.ReadUntilError` | cmd/channel/main.go:79-86 | Calling the text reader until it fails collects exactly the texts of `ReadLoop`, in order. |
| `WireLock.WritesNeverInterleave` | internal/wsx/wsx.go:46-54 | However many writers interleave, and between any two bytes, the socket has received, one write after another, what it took of each buffer, and then the start of the one being written; every writer's buffers are there in its own order, none twice, none left out, failed writes included. |
| `WireLock.PeerReadsWholeFrames` | internal/wsx/wsx.go:34-54 | What the socket received parses as the frames of the complete writes in their order, followed by the start of the one being written, if and only if no write was cut; and then the peer reads exactly those. |
| `WireLock.CutThenWhole` | internal/wsx/wsx.go:46-54 | A run for any two buffers and any cut inside the first: the socket holds the start of the first followed by the second. |
| `WireLock.PeerReadsWhatNobodySent` | internal/wsx/wsx.go:46-54 | A run with two one-letter texts, the first cut before its letter, after which the first message the peer reads was sent by nobody. |
| `WireLock.PeerReadsUpToFirstCut` | internal/wsx/wsx.go:46-54 | After a first cut write the peer reads exactly the frames completed before it, followed by what the start of the cut frame and the later bytes read as. |
| `WireLock.CutFrameTakesWhatFollows` | internal/wsx/wsx.go:46-54 | A frame cut in its payload takes what it lacks from the bytes that follow, and is read as itself if and only if those are the missing ones. |
| `WireLock.CutFrameReadsOn` | internal/wsx/wsx.go:46-54 | A frame cut anywhere, with any bytes behind it: a frame read there agrees with the cut one in every part written whole, and is the cut one if and only if the missing bytes come next. |
| `StoreObject.Store.Prepare` | internal/session/store.go:69-75 | A fresh object, alive, seen now, not cancelled; the table is unchanged. |
| `StoreObject.Store.Insert` | internal/session/store.go:77-79 | The object is filed under its id, replacing what was there; no session is altered. |
| `StoreObject.Store.Get` | internal/session/store.go:85-93 | A snapshot of the session tracked under the id, or none, exactly if it is tracked. |
| `StoreObject.Store.List` | internal/session/store.go:96-104 | A snapshot of every tracked session, each exactly once. |
| `StoreObject.Store.Remove` | internal/session/store.go:110-115 | The lock region of a deletion: the id is gone, the others stay, and the old entry is handed over. |
| `StoreObject.Store.Delete` | internal/session/store.go:109-120 | True exactly if the id was tracked; then it is no longer, and the removed session alone is cancelled. |
| `StoreObject.Store.Mark` | internal/session/store.go:164-171 | Only the session tracked under the id changes, and only in liveness and last-seen time. |
| `StoreObject.Store.Reap` | internal/session/store.go:173-181 | The id is gone, and death is to be announced exactly if it was there. |
| `StoreInvariant.StepKeeps` | internal/session/store.go:67-181 | Every step of every `Add`, `Delete` and supervisor keeps the invariant. |
| `StoreTheorems.Conservation` | internal/session/store.go:67-181 | In every run, repeated ids included: adds of a fresh id = deletes that returned true + reaps that found an entry + sessions now. |
| `StoreTheorems.EndsAtMostOnce` | internal/session/store.go:67-181 | Every added session is inserted at most once and leaves at most once, and is tracked exactly in between, whatever ids repeat. |
| `StoreTheorems.TrackedIsSupervised` | internal/session/store.go:67-147 | A tracked session has a live context and its own supervisor, able to take its next step or about to be started. |
| `StoreTheorems.CancelledExactlyIfDeleted` | internal/session/store.go:109-136 | A context is cancelled, or about to be, if and only if a deletion removed its session; a supervisor stops only then. |
| `StoreTheorems.ReplacedIsNeverCancelled` | internal/session/store.go:74-81 | A session replaced by another `Add` of its id is never cancelled and its supervisor never stops on its own. |
| `StoreTheorems.EndsByDeleteOrOwnDeath` | internal/session/store.go:109-181 | With unique ids each session ends at most once, by a true `Delete` or by its own supervisor's reap and never both, and `OnDeath` is called at most once and only after that reap. |
| `StoreTheorems.LateProbeExactly` | internal/session/store.go:137-181 | For a probe outliving its session: a reap changes the store, or the log, if and only if the id is tracked again; a mark changes it if and only if the id is tracked again and that session was not seen at this very moment; in both cases it is another session. |
| `StoreTheorems.DeletedProbeIsHarmless` | internal/session/store.go:109-181 | With unique ids, once a `Delete` has removed a session its in-flight probe never changes the store and never leads to `OnDeath`, in any later state. |
| `StoreTheorems.OldProbeReapsNewSession` | internal/session/store.go:126-181 | A run with a repeated id in which the old session's probe reaps the new one, which shows that unique ids are needed. |
| `StoreProtocol.StaysTrackedExactly` | internal/session/store.go:122-181 | Through any run a tracked session stays tracked, and alive, if and only if no step is a `Delete` of its id, an `Add` of its id, or a reap by a supervisor of its id whose last probe failed; its last-seen time never decreases. |
| `StoreTheorems.LastSeenIsLastMark` | internal/session/store.go:164-171 | While a session stays tracked its last-seen time is that of the last mark of its id. |
| `StoreProtocol.LastSeenIsLastSuccess` | internal/session/store.go:134-171 | By the steps alone: that time is the clock told last before the last mark of its id, and the marking supervisor's last probe had answered. |
| `StoreProtocol.SupervisorFollowsTheWire` | internal/session/store.go:126-147 | In every run what a supervisor may do next follows from its own last step: it probes after a tick, marks if and only if its probe answered, reaps if and only if its probe failed, waits after a start or a mark, and stops only while waiting with a cancelled context. |
| `StoreProtocol.AnswerIsFollowed` | internal/session/store.go:138-144 | Right after a probe's answer the mark is due if it answered and the reap if it failed, and never the other. |
| `StoreProtocol.DeathNeedsFailedProbe` | internal/session/store.go:142-181 | Every reap and every announced death follows a failed probe of that supervisor. |
| `StoreProtocol.DeathNamesTheId` | internal/session/store.go:143-180 | A death is announced under the supervisor's own id, and what was reaped had that id. |
| `StoreProtocol.RegionsDo` | internal/session/store.go:77-179 | After an `Add`'s region its object is tracked; after a `Delete` or a reap the id is not, and the deletion or the announcement is due exactly if it was. |
| `StoreProtocol.DeletedCanStop` | internal/session/store.go:116-136 | A deleted session's supervisor that waits can stop once its context is cancelled, which its `Delete` is about to do. |
| `StoreProtocol.AddIsSeenNow` | internal/session/store.go:69-75 | An added object is alive, not cancelled, and last seen at the time of that `Add`. |
| `StoreTheorems.OtherIdsLeaveItAlone` | internal/session/store.go:126-181 | No step of a supervisor of another id alters a session or its entry. |
| `RouteText.KeyAtIsThePattern` | cmd/harvest/main.go:94-94 | The key matcher succeeds with a match if and only if the text there has the shape of the key pattern. |
| `RouteText.VerbEndIsThePattern` | cmd/harvest/main.go:95-95 | The method matcher succeeds with a match if and only if the text there has the shape of the method pattern. |
| `RouteText.FindKeysFindsAll` | cmd/harvest/main.go:100-100 | Leftmost non-overlapping matching finds every place the key pattern matches, nested blocks included. |
| `RouteBlocks.ScanBlock` | cmd/harvest/main.go:102-111 | The scan stops just past the first brace at which the block's balance falls below zero, or at the end of the text if there is none. |
| `RouteBlocks.BlockEndIsUnique` | cmd/harvest/main.go:102-111 | There is only one such place. |
| `RouteBlocks.DirectVerbs` | cmd/harvest/main.go:112-125 | The depth filter yields exactly the methods that stand at raw brace balance zero of the block. |
| `RouteExtract.FilteredDepthAgrees` | cmd/harvest/main.go:103-125 | At every token the depth counted over the filtered tokens equals the raw balance since the block began, and is not negative. |
| `RouteExtract.BlockDirect` | cmd/harvest/main.go:103-125 | What the filter finds in the cut-out block is what is directly inside the block in the whole text, nothing from a nested block or from behind its end. |
| `RouteExtract.BlockRoutes` | cmd/harvest/main.go:101-125 | One key contributes exactly its path with the methods directly inside its block. |
| `RouteExtract.ExtractRoutes` | cmd/harvest/main.go:98-138 | The list is strictly increasing by method and path and contains exactly the routes the text declares. |
| `RouteWords.DeclaresInWords` | cmd/harvest/main.go:93-125 | A text declares a route if and only if it reads, somewhere: a quote, a path with a slash first and no quote, a quote and a colon, white space, a brace, text whose braces nest, one of the five methods at a word's start, white space and a colon. |
| `RouteWords.BalanceIsCount` | cmd/harvest/main.go:103-111 | The balance of a stretch is the number of its opening braces less that of its closing ones. |
| `RouteExtract.SortedList` | cmd/harvest/main.go:127-137 | Whatever order the set is ranged over, the list holds each of its routes once, strictly increasing. |
| `RouteOrder.LessIsStrictTotal` | cmd/harvest/main.go:131-136 | The comparison is a strict total order on routes. |
| `RouteWords.LessInWords` | cmd/harvest/main.go:131-136 | Method first, path second, each by the first character that differs, a proper prefix before what it starts. |
| `RouteWords.ListInWords` | cmd/harvest/main.go:131-136 | So the list goes method by method, and path by path within each. |
| `RouteWords.MethodBeforePath` | cmd/harvest/main.go:131-136 | DELETE /z comes before GET /a. |
| `RouteOrder.SortedListIsUnique` | cmd/harvest/main.go:127-137 | Two strictly increasing lists of the same routes are equal, so equal route sets give identical output. |
| `RouteOrder.SortRoutes` | cmd/harvest/main.go:131-136 | In-place sorting of distinct routes leaves a strictly increasing permutation. |
| `RouteHarvest.HarvestAppium` | cmd/harvest/main.go:181-212 | Fails for want of a route file exactly if no entry is named `package/build/lib/protocol/routes.js` or `package/build/lib/protocol/routes/`, something, `.js`; fails for want of routes exactly if the text of those that are, each with a newline, in entry order, declares none; otherwise yields exactly the declared routes in order. |
| `RouteHarvest.RouteFilesAreSource` | cmd/harvest/main.go:191-194 | The prefix and suffix tests accept exactly those names. |
| `RouteHarvest.BothLayouts` | cmd/harvest/main.go:161-166 | Names of both layouts that are accepted, and two that are not. |
| `RouteJoin.JoinIsUnion` | cmd/harvest/main.go:161-208 | If every key's block closes in its own file, or has every method already, and no key straddles a boundary, the joined text declares exactly what its files declare. |
| `RouteJoin.SelfContainedIsSeparate` | cmd/harvest/main.go:161-208 | A condition on each file alone that gives this for any number of such files in any order. |
| `RouteJoin.OpenBlockLeaks` | cmd/harvest/main.go:199-208 | A block left open at the end of a file takes a method at the start of the next text. |
| `RouteExact.OpenBlockBreaksUnion` | cmd/harvest/main.go:199-208 | Two concrete files neither of which declares a route that their join declares. |
| `RouteExact.SelfContainedExactly` | cmd/harvest/main.go:98-208 | A file's own keys declare the same whatever follows it if and only if no path key is cut off by its end and every key's block closes in it or has every method already. |
| `RouteExact.UnionExactly` | cmd/harvest/main.go:98-208 | Joined in front of any files, a file adds exactly its own routes if and only if no path is cut off by its end, and the path of every cut key and every open block has all methods in the file already. |
| `RouteExact.HarmlessJoin` | cmd/harvest/main.go:161-208 | Any number of such files, in any order, declare together exactly what each declares. |
| `RouteHarvest.LayoutsAgree` | cmd/harvest/main.go:161-208 | Two layouts that may be joined, for either reason, and whose files declare the same routes between them give the same list. |

## Left out

- Commands or subscribers that register after the broker's shutdown: they are steps of the machine, but nothing closes their channels, and no liveness is claimed for them.
- Progress under a fair scheduler: what is proved is that the needed step is enabled, not that it is taken.
- The handlers' whole bodies: a handler is a sequence of phases of the machine; only its lock regions and atomic operations are methods of the hub.
- HTTP request parsing, response codes, flushing, witness headers, logging, uptime and the last-frame time: input and output without shared state.
- JSON: a frame is an optional id and its text. That the broker's own echo carries the id, and how a malformed frame loses its id, are not modelled.
- Real time: timeouts, tickers and cancelled requests are steps that may come at any moment; the store's clock is only assumed not to run backwards.
- Random masks and nonces: any mask may be drawn, and the theorems hold for all of them.
- Dialing, TLS, the upgrade handshake, deadlines and `Conn.Close`: foreign calls around the codec.
- Fragmented messages: FIN is ignored and continuation frames are skipped, as in the code; nothing is said about reassembly.
- Text as Unicode: payloads are bytes on the wire and characters in route files; the harvester's offsets are character positions.
- Memory: an allocation below the platform's limit is assumed to succeed, a text to be written is below 2^63 bytes, and the counters do not wrap around.
- StoreTheorems.EndsByDeleteOrOwnDeath: takes unique ids as a hypothesis, because it is false otherwise, as OldProbeReapsNewSession shows; EndsAtMostOnce and Conservation hold without it.
- RouteOrder.SortRoutes: `sort.Slice` leaves its algorithm open; the in-place sort here is by insertion, which gives the same list since that list is unique.
- The Go regular expression engine: the two patterns are deterministic matchers proved equal to what the patterns mean.
- The session fields `CreatedAt`, `Caps` and `HubURL`, and the probe's HTTP request: its answer is an arbitrary boolean.
- Adding one session object twice: each `Add` is of a fresh object.
- Package download, gzip and tar reading, version lookup and writing of snapshots: network and file system.
- The wdio harvester, the other commands, authentication and contract checks: wrappers with no comparable state.
