# A verified model of a FIX session engine

This Dafny project models the engine's protocol core and proves what it is for: the byte-stream parser and its inverse
the serializer, the session layer with its sequence numbers, the message stores that must survive crashes, and the two
queues (audit log, transport) that must not lose what they accept. `dafny verify dfyconfig.toml` checks all of it.

## How it is organised

Code that changes things step by step is modelled by classes and loops (`StreamParser`, `HeaderSeen`,
`MessageBuilder`, `MessageObject`, `Session`, `MemoryStore`, `FileStore`, `FileAuditLog`, `TcpTransport`). Each method is
proved equal to a function on values, and the properties are proved about those functions, over all inputs or all runs.

| file | subject |
|---|---|
| Bytes, Messages, MessageObject | bytes, decimal text, field lists |
| Framing, Headers, StreamParser | framing, resynchronisation, duplicate headers, the parser object |
| Confluence, Cutting | chunking independence and its exact condition |
| Serializing, MessageBuilder, RoundTrip, Streams, StreamViews | the printer and its inverse |
| Protocol, Session | the session operations as functions, and as an object |
| Emitting, Accounting | what a session sends, and how it accounts for what it receives |
| Timers, Liveness | the life of a gap; dead peers |
| Replaying, Recovery, Healing, Handshake, Link | replay, and two sessions facing each other |
| Stores, FileLog, SeqFile, FileStore, Filenames | stores, crashes, file names |
| Numbering, FileSending | outbound numbering across failures, and the send that follows it |
| Audit, Transport | the audit writer protocol, the send queue |

Two sessions exchange `Outgoing` frames; `Meaning` is the message the peer's parser delivers for such a frame, which
`Streams.MessageStreamRoundTrip` ties to the bytes. A session operation is one atomic step. The clock, SendingTime,
TestReqID, whether user callbacks throw, what the kernel and the file system answer, and where a crash falls are all
parameters, so that the theorems quantify over them.

## Where the code falls short of a law

- Chunking independence fails with a bounded `max_msg_len`: the scan for a frame start looks at `max_msg_len` bytes only,
  and passes over a start beyond them that it finds when the same bytes arrive in smaller pieces. `Confluence.Clear` is
  the condition, decided along the stream: at no scan can the first start lie beyond the window with eight bytes of it
  buffered. Under it every cutting reads as one reference reading (`Confluence.ChunkingIndependence`, for every limit);
  and every prefix of a stream is independent of its cutting if and only if it holds (`Cutting.ChunkingIff`, for limits
  of at least 58; below, `Cutting.ShortLimit` is a stream that every cutting reads with the same loss). For garbage before
  a start the threshold is `Cutting.GarbageIff`, for every limit: the start must end within the window. Without a limit
  the law always holds (`Confluence.NoLimitClear`).
- A dead peer is not dropped while the heartbeat-timeout callback throws: the exception leaves the tick before the
  session is closed. With a TestRequest pending, no gap open and nothing arriving, the session is dropped if and only if
  some tick at or after the deadline does not throw (`Liveness.SilenceIff`). An open gap is not retried by such ticks
  either (`Liveness.ThrowingStopsRetries`).
- A reset that the sequence file refuses rewinds the counter in memory only; the next claim then writes it out, and
  numbers already used are given out again (`Numbering.RefusedResetReuses`). It does no harm if and only if nothing was
  sent since the last reset (`Numbering.RefusedResetIff`).
- Only interrupted writes of a persist are repeated: an interrupted fsync makes it fail (`SeqFile.InterruptedSyncFails`),
  and an interruption does no harm if and only if it falls into the writes (`SeqFile.InterruptionIff`).
- A Logon numbered above the expectation moves it forward and nothing is asked for: without any reset, a handshake passes
  over numbers that no message carried if and only if an expectation is below the number of the peer's Logon
  (`Handshake.PassesOverIff`).
- A completed handshake without any reset leaves the counters apart exactly when an expectation exceeds the peer's next
  number by more than one (`Handshake.HandshakeConverges` is an if-and-only-if).
- A stored frame is read back exactly when it holds no newline (`FileLog.ReadBackIff`); field values may hold one.
- The header comment of `file_store.hpp` calls file names injective. They are for components of at most 32 bytes
  (`Filenames.PrefixInjective`), and the inverse of the escaping reads a name back exactly then
  (`Filenames.PrefixDecodesIff`). The fingerprint of a longer component is set off like a component of its own, so a
  session with a longer sender has the name of the session with that fingerprint for target if and only if it has a
  target and no qualifier (`Filenames.LongSenderCollides`), and one with a longer target that of the session with the
  fingerprint for qualifier if and only if it has no qualifier (`Filenames.LongTargetCollides`).
- A strict prefix of a sequence file can still load, and exactly which ones is `SeqFile.TornTextLoads`; crash safety
  comes from the rename alone.

## Model

| member | source | states |
|---|---|---|
| Confluence.ChunkingIndependence | src/parser/parser.cpp:109-278 | for every limit: if no scan along the stream can pass over a frame start, every cutting into feeds delivers the messages and keeps the bytes of one reference reading with an unbounded scan |
| Cutting.ChunkingIff | src/parser/parser.cpp:109-278 | without a limit or with one of at least 58: every prefix of a stream is independent of its cutting if and only if no scan along it can pass over a start |
| Cutting.ShortLimit | src/parser/parser.cpp:359-457 | for every smaller limit that equivalence fails: a stream with a start beyond the window is read alike under every cutting, because the start has arrived before the header in front of it is rejected |
| Cutting.GarbageIff | src/parser/parser.cpp:231-265 | for every limit, garbage of any length before eight bytes of a frame: all cuttings agree if and only if there is no limit, no garbage, or the start ends within max_msg_len bytes |
| Confluence.NoLimitClear | src/parser/parser.cpp:231-265 | without a length limit no stream has a start that is passed over |
| Confluence.DrainFollows | src/parser/parser.cpp:225-278 | draining what has arrived leaves a stream that reads on as the reference does and that meets the condition again |
| Confluence.JudgeExtend | src/parser/parser.cpp:359-553 | a frame that is accepted or rejected is judged the same whatever bytes follow |
| Framing.NeedMoreBelowCap | src/parser/parser.cpp:359-457 | waiting for input only happens below max_msg_len + 4096 bytes |
| Framing.DrainedBelowCap | src/parser/parser.cpp:280-301 | after draining any buffer the backlog is below the cap, so the fatal latch is unreachable |
| Headers.DeliveredMessage | src/parser/parser.cpp:461-553 | every delivered frame: standard-header tags once with their first value, all other tags in wire order, flagged exactly when a header tag repeats |
| Parser.Pigeonhole | src/parser/parser.cpp:73-91 | the table of seen header tags cannot overflow |
| Parser.HeaderSeen.CheckAndMark | src/parser/parser.cpp:73-91 | reports a tag seen before and otherwise records it, without overflow |
| Parser.ReadField | src/parser/parser.cpp:304-335 | the scanning loop finds the field the specification finds, or the same failure |
| Parser.ComputeChecksum | src/parser/parser.cpp:337-342 | the accumulated sum is the checksum of the bytes |
| Parser.ReadBody | src/parser/parser.cpp:461-507 | the body loop with its duplicate tracking equals the specification's body parse |
| Parser.StreamParser.ResyncScan | src/parser/parser.cpp:231-265 | jumps to the next frame start in the window or keeps the seven-byte tail; counts what it drops |
| Parser.StreamParser.SkipFrame | src/parser/parser.cpp:267-278 | drops a rejected frame's bytes and realigns |
| Parser.StreamParser.Compact | src/parser/parser.cpp:187-196 | moves the unread bytes to the front and changes nothing observable |
| Parser.StreamParser.AppendBytes | src/parser/parser.cpp:198-223 | the buffered bytes are the old ones followed by the new ones; a position that would overflow size_t turns the parser unhealthy and changes no byte |
| Parser.StreamParser.TryParseOne | src/parser/parser.cpp:359-553 | one step on the buffer does what the verdict on the buffered bytes says |
| Parser.StreamParser.DrainAll | src/parser/parser.cpp:225-229 | repeats steps until more input is needed and terminates on every buffer |
| Parser.DrainViewIs | src/parser/parser.cpp:225-229 | the object's draining delivers what the specification drains, and every byte fed is consumed or still buffered |
| Parser.StreamParser.Feed | src/parser/parser.cpp:109-161 | feeding an object equals the specification's feed and leaves less than the cap buffered; it turns unhealthy exactly when there is no limit and held and new bytes overflow a size_t, and then takes none of them |
| Parser.StreamParser.Next | src/parser/parser.cpp:163-172 | hands out the pending messages one by one in order |
| RoundTrip.FrameAccepted | src/parser/serializer.cpp:21-57 | a built frame is accepted whole, whatever bytes follow it |
| RoundTrip.FrameAwaited | src/parser/parser.cpp:359-457 | every strict prefix of a built frame is waited for |
| Streams.StreamRoundTrip | src/parser/parser.cpp:109-161 | built frames, concatenated and cut in any way, are delivered exactly, with nothing left |
| StreamViews.StreamUndisturbed | src/parser/parser.cpp:109-278 | on the parser object: every byte is consumed, no resynchronisation is counted, and no error is left unless the last message repeats a header tag |
| Streams.MessageRoundTrip | src/parser/serializer.cpp:63-115 | serializing and parsing keeps the body; the parsed message is flagged exactly when a header tag repeats; serializing it again gives the same bytes |
| Streams.MessageStreamRoundTrip | src/parser/serializer.cpp:63-115 | any list of serialized messages, concatenated and cut in any way, parses back one by one with every tag's value |
| Builder.MessageBuilder.Begin | include/fix/parser/serializer.hpp:58-68 | starts a body with MsgType, clears the sticky error, and fails exactly on unclean values |
| Builder.MessageBuilder.Add | include/fix/parser/serializer.hpp:145-159 | appends one encoded field; the first error sticks and nothing is appended after it |
| Builder.MessageBuilder.Finish | include/fix/parser/serializer.hpp:117-121 | the frame of the fields written, or nothing after an error |
| Builder.MessageBuilder.TrySerialize | src/parser/serializer.cpp:63-115 | the loop over the fields produces the specified frame and fails exactly when some value is unclean |
| MessageObjects.MessageObject.Set | include/fix/core/message.hpp:68-79 | replaces the first occurrence or appends; an unclean value changes nothing |
| MessageObjects.MessageObject.Add | include/fix/core/message.hpp:111-116 | appends an occurrence; an unclean value changes nothing |
| MessageObjects.MessageObject.Remove | include/fix/core/message.hpp:183-187 | takes out every occurrence and keeps the others in order |
| MessageObjects.SetThenRemove | include/fix/core/message.hpp:68-79 | removing a tag undoes setting it, whatever was set |
| MessageObjects.MessageObject.Collect | include/fix/core/message.hpp:149-156 | all occurrences in stored order |
| MessageObjects.MessageObject.GetFirst | include/fix/core/message.hpp:140-146 | the first occurrence wins |
| MessageObjects.HasInvalidWireChars | include/fix/core/message.hpp:31-37 | true exactly when a NUL or SOH occurs |
| Sessions.Session.SendMessage | src/session/session.cpp:1287-1342 | claims a number, serializes, stores and emits, or gives the number back |
| Sessions.Session.Process | src/session/session.cpp:449-569 | one inbound message changes fields, store and output as the protocol function says |
| Sessions.Session.Dispatch | src/session/session.cpp:162-202 | the dispatch loop processes messages in order until the session is torn down |
| Sessions.Session.CheckSeqNum | src/session/session.cpp:1000-1031 | judges MsgSeqNum: missing, gap, too low, stale duplicate or expected |
| Sessions.Session.Consume | src/session/session.cpp:1033-1058 | a message takes its slot and the expectation never moves back |
| Sessions.Session.AskForGap | src/session/session.cpp:1060-1083 | at most one ResendRequest per open gap |
| Sessions.Session.ReplayWindow | src/session/session.cpp:842-919 | the cursor loop emits exactly the specified replay and changes no counter and no stored frame |
| Sessions.Session.OnResend | src/session/session.cpp:781-919 | refuses malformed requests, notifies the application, replays the range |
| Sessions.Session.OnSequenceReset | src/session/session.cpp:921-971 | both modes of SequenceReset with every refusal |
| Sessions.Session.SendLogonMessage | src/session/session.cpp:1088-1183 | publishes the state, resets the store if configured, numbers and sends the Logon, rolls the state back on failure |
| Sessions.Session.OnLogonMessage | src/session/session.cpp:635-721 | the whole treatment of a Logon in every state |
| Sessions.Session.OnLogoutMessage | src/session/session.cpp:723-758 | echoes or completes a Logout, drops, notifies at most once |
| Sessions.Session.OnRejectMessage | src/session/session.cpp:973-995 | a Reject ends a handshake and is otherwise passed on |
| Sessions.Session.OnTimer | src/session/session.cpp:287-389 | heartbeat, TestRequest, gap retry and the two timeouts |
| Sessions.Session.SendApplication | src/session/session.cpp:248-254 | succeeds exactly when Active and the message serializes, and otherwise sends nothing |
| Sessions.Session.StartLogout | src/session/session.cpp:278-285 | succeeds exactly in Active, LogonSent and WaitingLogon, and then enters LogoutSent |
| Sessions.Session.OnTransportConnected | src/session/session.cpp:204-246 | a fresh connection clears timers and gap, and logs on or waits |
| Accounting.InboundAccounting | src/session/session.cpp:449-569 | over every run without reset-mode SequenceReset: the expectation never decreases, delivered numbers strictly increase, every number passed over was carried by the accepted message or covered by an accepted gap-fill, even if callbacks throw |
| Timers.BudgetFollowsGap | include/fix/session/session.hpp:330-348 | in every state of every run of a connection, in every phase, a gap is open exactly when its retry budget is in use, and the budget is never exceeded |
| Timers.GapRetryBudget | src/session/session.cpp:341-357 | for each gap of every run of a connection, while it stays open: at most five ResendRequests, each at least 1.2 intervals after the one before |
| Timers.PatienceIs | src/session/session.cpp:342-342 | the integer arithmetic of the deadline is exactly 1.2 intervals |
| Timers.OpenGapEnds | src/session/session.cpp:341-357 | a gap that is never closed ends in Disconnected, whatever else happens and however the ticks are spaced, once more whole ticks 1.2 intervals apart have passed than attempts were left |
| Liveness.HeartbeatTimeoutSound | src/session/session.cpp:303-330 | in every run of a connection with a monotone clock, a timeout is reported only after 2.2 intervals without a processed message |
| Liveness.SilenceDrops | src/session/session.cpp:303-330 | an Active session that hears nothing is dropped, also while its application keeps sending, once a tick finds it silent for an interval and a tick that does not throw follows 1.2 intervals later |
| Liveness.SilenceIff | src/session/session.cpp:303-330 | with a TestRequest pending, no gap open and nothing arriving, the session is dropped if and only if some tick at or after the deadline does not throw |
| Liveness.ThrowingStopsRetries | src/session/session.cpp:303-357 | while every tick throws, the session stays Active and an open gap is left as it is |
| Replaying.ReplayTiling | src/session/session.cpp:810-919 | for any store contents the emitted frames tile the requested range without hole or overlap, and counters and store stay as they were |
| Recovery.ReplayRecovers | src/session/session.cpp:781-971 | for any store and any Active receiver, the answer to ResendRequest(begin, 0) brings the receiver to the sender's next number with each stored application message delivered exactly once, in order, with its type and body |
| Recovery.ReplayBytesRecover | src/session/session.cpp:162-202 | the same with the answer's bytes cut in any way and read by the receiver's parser |
| Healing.GapHeals | src/session/session.cpp:1000-1083 | a gap is healed by one exchange: detection, one request, any further frames from beyond the gap that were in flight, its answer, full recovery; the gap is closed and the two sides agree on both numbers again |
| Healing.RecoveredIsSent | src/session/session.cpp:880-897 | a recovered message has the type and body the sender's application gave |
| Healing.StoredIsMeaning | src/session/session.cpp:880-884 | the replayer finds in a stored frame the message the peer would have parsed |
| Handshake.HandshakeConverges | src/session/session.cpp:635-721 | for all counters and all four reset combinations both sides become Active with the same interval, and agree on both numbers if and only if some side resets or no expectation exceeds the peer's next number plus one |
| Handshake.HandshakePassesOver | src/session/session.cpp:1033-1058 | for all counters and all four reset combinations, the numbers a handshake passes over uncarried are exactly those from the expectation up to the peer's Logon, and no gap is opened for them |
| Handshake.PassesOverIff | src/session/session.cpp:1033-1058 | without any reset some number is passed over if and only if an expectation is below the peer's Logon number |
| Link.HandshakeAgrees | src/session/session.cpp:1033-1058 | such a handshake starts the link in an agreed state |
| Link.LosslessLink | src/session/session.cpp:449-569 | in every run over a reliable FIFO channel the numbers in flight are exactly those from the receiver's expectation to the sender's next number, in both directions |
| Link.NoRecoveryOnLosslessLink | src/session/session.cpp:1000-1031 | so every frame received carries the expected number, no ResendRequest is ever sent, and a received frame is answered with a Logout only if it is one |
| Stores.MemoryStore.GetMessages | include/fix/store/memory_store.hpp:69-77 | the walk from the lower bound returns the range ascending |
| Stores.MemoryStore.AdvanceTarget | include/fix/store/memory_store.hpp:48-56 | under any interference of other threads the counter ends at the first value seen that is large enough, else at the requested one |
| Stores.SettledMeans | include/fix/store/memory_store.hpp:48-56 | so it ends at least where requested, at a value some thread put there, and without interference at the maximum |
| Stores.MemoryStore.Claim | include/fix/store/memory_store.hpp:43-47 | returns the number before the increment |
| FileLog.FileStoreRefines | src/store/file_store.cpp:430-480 | after any run of appends that succeed, tear or fail to sync, and of crashes that keep any prefix of the file, ranged reads equal those of the map of complete records, and appends start on a record boundary |
| FileLog.CrashesInvisible | src/store/file_store.cpp:578-636 | if crashes lose no written byte, the file store reads as an in-memory store given the acknowledged messages |
| FileLog.CrashRepresents | src/store/file_store.cpp:430-480 | whatever prefix of the log survives, reopening finds exactly the records complete in it |
| FileLog.ReadBackIff | src/store/file_store.cpp:616-636 | a payload is read back unchanged if and only if it holds no newline |
| FileStores.FileStore.StoreOutbound | src/store/file_store.cpp:578-599 | appends and indexes a record; a short write latches the stream and indexes nothing |
| FileStores.FileStore.GetMessages | src/store/file_store.cpp:616-636 | reads the line at each indexed offset of the range, ascending |
| FileStores.FileStore.RebuildIndex | src/store/file_store.cpp:430-480 | the line loop indexes complete records and cuts off an unterminated tail |
| FileStores.FileStore.LoadSeqs | src/store/file_store.cpp:299-366 | commits the counters exactly when the whole file is valid |
| FileStores.FileStore.PersistSeqs | src/store/file_store.cpp:368-428 | takes the given answers one by one through the states of the persist protocol; succeeds exactly when those answers lead to the rename, and else leaves the old file in place |
| FileStores.FileStore.NextSenderIncr | src/store/file_store.cpp:541-557 | claims exactly when the counter is not exhausted and the new one persists; otherwise nothing changes |
| FileStores.FileStore.SetNextSender | src/store/file_store.cpp:485-496 | succeeds exactly when the new pair persists; otherwise nothing changes |
| FileStores.FileStore.AdvanceNextTarget | src/store/file_store.cpp:559-573 | never lowers; succeeds exactly when there is nothing to raise or the raised pair persists; otherwise nothing changes |
| FileStores.FileStore.Reset | src/store/file_store.cpp:638-669 | succeeds exactly when both logs can be cut and the counters persist, whether or not the log can be opened again; a failure leaves the old sequence file, the counters at 1 in memory and the log closed |
| SeqFile.CrashAtomic | src/store/file_store.cpp:368-428 | stopped after any system call with any answers, the sequence file loads to exactly the old or the new pair |
| SeqFile.PersistsIff | src/store/file_store.cpp:368-428 | a persist succeeds if and only if the open succeeds, the writes take every byte with none failing or taking nothing, and fsync, close and rename succeed |
| SeqFile.InterruptionIff | src/store/file_store.cpp:368-428 | one more interruption leaves a persist successful if and only if it falls into the writes or after the rename |
| SeqFile.InterruptedSyncFails | src/store/file_store.cpp:396-397 | an interrupted fsync alone makes a persist fail |
| SeqFile.LoadPrint | src/store/file_store.cpp:299-366 | the printed form of any valid pair loads back to it |
| SeqFile.TornTextLoads | src/store/file_store.cpp:299-366 | a strict prefix of printed text loads if and only if it reaches into the second number, and to what |
| SeqFile.OperationsDurable | src/store/file_store.cpp:485-573 | every counter operation, failed or not, keeps memory equal to what a restart would load |
| Numbering.NoReuse | src/session/session.cpp:1287-1342 | over any run of sends with any failures and crashes in which no reset is refused, the numbers handed to the transport strictly increase and the counter a restart loads exceeds all of them |
| Numbering.RefusedResetReuses | src/store/file_store.cpp:638-669 | a send, a refused reset, one failed send and a crash lead to a restart that numbers from 1 again, at or below a number already sent |
| Numbering.RefusedResetIff | src/store/file_store.cpp:638-669 | at any point of any run, a refused reset keeps that law whatever follows if and only if nothing was sent since the last reset |
| Numbering.ConsecutiveWithoutLoss | src/session/session.cpp:1287-1342 | if no rollback is refused and the process does not die, those numbers are consecutive |
| Numbering.SentOrLost | src/session/session.cpp:1304-1308 | every number below the frontier was sent once or lost, never both |
| FileSending.SendMessage | src/session/session.cpp:1287-1342 | a send over FileStore with failing persists, writes and syncs takes exactly the steps of the numbering machine, and hands over a frame exactly when it was claimed, serialized and stored |
| FileSending.SendLogon | src/session/session.cpp:1088-1183 | a Logon over FileStore with any failure: it goes out exactly when the state allows it, the reset it announces succeeds and the send does, then under number 1 after a reset; otherwise the state is taken back, and the steps of the numbering machine are taken |
| Filenames.SanitizeComponent | src/store/file_store.cpp:106-148 | the escaping loop and the fingerprint loop compute the specified name |
| Filenames.MakePrefix | src/store/file_store.cpp:150-165 | joins the sanitised components |
| Filenames.PrefixInjective | src/store/file_store.cpp:106-165 | distinct sessions with components of at most 32 bytes get distinct prefixes |
| Filenames.PrefixDecodesIff | src/store/file_store.cpp:106-165 | splitting and unescaping a prefix gives back its session if and only if no component is longer |
| Filenames.LongSenderCollides | src/store/file_store.cpp:127-146 | a session with a longer sender shares its prefix with the one that has the fingerprint for target, if and only if it has a target and no qualifier |
| Filenames.LongTargetCollides | src/store/file_store.cpp:127-146 | one with a longer target shares it with the one that has the fingerprint for qualifier, if and only if it has no qualifier |
| Audit.FlushGuarantee | src/log/message_log.cpp:94-169 | in every interleaving, when flush() may return, each entry accepted before its token was drawn was handed to write_entry, in order, and a file flush followed |
| Audit.CallsConserved | src/log/message_log.cpp:80-92 | calls to log() equal written plus failed plus dropped plus queued plus in flight |
| Audit.FlushTerminates | src/log/message_log.cpp:124-169 | left alone, the writer acknowledges every flush request in a bounded number of steps |
| Audit.FileAuditLog.Log | src/log/message_log.cpp:80-92 | queues an entry or counts the drop |
| Audit.FileAuditLog.RequestFlush | src/log/message_log.cpp:94-104 | draws the token that marks everything accepted so far |
| Audit.FileAuditLog.WriteEntry | src/log/message_log.cpp:171-227 | writes one line with SOH shown as a bar, or counts the loss |
| Audit.FileAuditLog.Round | src/log/message_log.cpp:124-169 | drains the queue in order, flushes the file and acknowledges |
| Transport.WireIsPrefix | src/transport/tcp_transport.cpp:762-881 | in every run the bytes the kernel took are a prefix of the payloads accepted for the connection; while it is up the rest is exactly what is queued; what a close loses is exactly the queue |
| Transport.TcpTransport.Send | src/transport/tcp_transport.cpp:798-843 | writes directly what fits, queues the rest, keeps the order |
| Transport.TcpTransport.HandleSend | src/transport/tcp_transport.cpp:762-796 | flushes the queue until it is empty, refused or partly taken |

## Left out

- Cutting.ChunkingIff: for limits from 1 to 57, shorter than one header scan, only the "if" half (Confluence.ChunkingIndependence); the other half is false there (Cutting.ShortLimit), and what takes its place is not stated.
- Replaying.ReplayTiling: CompIDs and SendingTime are taken free of NUL and SOH, as the rest of the engine demands.
- Link.LosslessLink: sequence numbers stay below 2^63, because MsgSeqNum is read as a signed 64-bit number; applications send no administrative message types.
- Timers.GapRetryBudget: applications send no administrative message types, otherwise they could emit ResendRequests of their own; so too in Timers.BudgetFollowsGap and Timers.OpenGapEnds.
- Timers.OpenGapEnds: the clock does not run backwards between events; so too in Liveness.SilenceDrops.
- Healing.GapHeals: no SequenceReset is in flight and no tick falls between the request and its answer.
- Liveness.SilenceIff: stated for no open gap, whose own budget may end the session earlier.
- Parser.StreamParser.constructor: a max_msg_len within 4096 of 2^64, for which the cap wraps around, is excluded.
- Sessions.Session.SendMessage: the session's store does not fail, and requires that the 64-bit sender counter is not exhausted, as do the methods that call it; the same send over a failing store is FileSending.SendMessage.
- Sessions.Session.SendLogonMessage: the session's store does not fail to reset; the same over a failing store is FileSending.SendLogon.
- Numbering.NoReuse: runs with a refused reset are excepted, because the law fails there; Numbering.RefusedResetIff is the exact condition.
- Audit.FlushGuarantee: rotation and shutdown are not steps; a file that is not open counts as flushed.
- Concurrency inside the session: each operation is one step; the atomics on the session state and their memory orders are not modelled.
- handle_heartbeat: at this granularity its match on TestReqID has no effect, because any inbound message has already cleared the pending flag.
- Session over a failing store: the session functions and the Session object run on stores that succeed; failing stores are treated in FileStore, Numbering and FileSending.
- Session's own parser object: Dispatch takes the messages of a feed; the bytes are joined in Recovery.
- Data dictionary validation, business rejects and the dictionary tables: off by default.
- Error buffering, metrics, send_raw and the audit hook of the session.
- enforce_cap: proved unreachable, so its body is not modelled.
- Timestamps and floating-point fields: SendingTime is an opaque byte string.
- FileStore.refresh, close, the inbound log, legacy-file migration and directory fsync.
- Sockets, epoll, DNS, wake pipe and TLS; the engine's lifecycle and threads; audit rotation and retention.
