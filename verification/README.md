# Verified model of the MiniAgentOS runtime and harness

MiniAgentOS is a small bare-metal runtime that fetches web pages over its own virtio
network driver and TCP receiver, hosts an agent, and is driven by a Python harness.
This project models its stateful components in Dafny and proves what they keep over
all inputs and all runs. `dafny verify dfyconfig.toml` checks everything.

Each component has two layers. The imperative layer is a class or method with the
source's own fields, arrays and loops; its postcondition equates the new state with a
function of the old one. The value layer holds that function, and the theorems about
it, over every run.

| component | modules |
|---|---|
| 32-bit words and sequence comparison | `Words`, `Options` |
| TCP receive path with out-of-order reassembly | `Reassembly`, `ReassemblyExact`, `TcpStream`, `TcpBounds`, `TcpTight`, `TlsReceiver` |
| incremental HTTP response decoder and the plain-HTTP path | `HttpDecoding`, `HttpHeaderCut`, `HttpChunks`, `HttpDecoder`, `PlainHttp` |
| patch engine | `PatchHunks`, `PatchInverse`, `PatchUpdate`, `PatchText`, `PatchTextInverse`, `PatchRun`, `PatchWorkspace` |
| text, JSON, session and memory of the agent | `Utf8`, `Json`, `JsonDecoding`, `JsonLookup`, `JsonCodec`, `AgentSession`, `AgentMemory`, `MemoryReply`, `AgentTurns` |
| virtqueues | `RxQueue`, `RxStarves`, `RxDriver`, `TxQueue` |
| checksums and TCP frames | `Checksum`, `TcpFrame` |
| DNS and ARP caches | `TimedCache`, `ResolverCaches` |
| bump allocator under concurrent callers | `Allocator` |
| checkpointed memory of the harness | `Checkpoints`, `CheckpointStore` |
| fetch control | `Fetch`, `FetchTime`, `FetchDecoding`, `FetchMachine` |

Several things one would like to be true of the code are not. For each of these the
project gives a concrete run in which it fails, and says exactly when it holds:

- The receive buffer discards queued bytes on overflow while the acknowledgement still
  advances. `AcceptOverflowsIff` says when; `SmallSegmentFits` gives a safe segment
  size, and `SafeLenIsTight` a run that resets with segments one byte longer.
- The header search of the HTTP decoder looks at one call's bytes only, and the plain
  path cuts segments into 900-byte pieces. `HeaderCutExact` says which cuts matter, and
  `CutLosesHeader` shows one.
- Swapping + and - does not always undo a patch (`InverseCanMiss`). It does exactly when
  the result shows no hunk's new lines too early: `InverseRestoresIff` for lines,
  `SwappedTextIff` for file text.
- A failing patch is not rolled back (`FailureLeavesChanges`): the files and the
  harness's list of file writes are as before exactly when nothing precedes what fails
  (`RolledBackIff`). The files alone can be as before after an update that changes nothing
  (`NoOpLeavesFiles`). Nor is a failing compaction rolled back (`FailureLeavesCompacted`, `CompactStops`).
- A JSON string can decode to bytes that are not well-formed UTF-8.
  `ReadsWellFormedIff` says when for every buffer size. When the string fits, it is
  exactly when an escape names a surrogate (`FittingReadIff`); `CutCharacterRead` shows
  a character cut by the end of the buffer.
- The receive queue loses a buffer each time the used index wraps to 0, because index 0
  is treated as "nothing yet" (`NextConserves`, `RunConserves`), so every queue stops for
  good after at most 65536 entries for each of its buffers (`EveryQueueStarves`);
  `QueueStarves` is a run that does.
- A cache of eight slots is exact for eight keys (`AgreesWithTimedMap`) and not for nine
  (`NineKeysLoseOne`, `NinthKeyEvicts`).
- Two first callers of the allocator can both see it uninitialised and then share
  memory (`ColdStartRace`); `SafeIff` says from which states blocks never overlap.
- A fetch that must resolve its name while the gateway is unknown can connect to the
  previous fetch's address (`ConnectsToOldAddress`, `OwnAddressIff`), and a finished
  fetch whose reply is still pending can be restarted by its deadline
  (`RevivedWhenDone`, `TickWhenDone`).
- A round that a deadline starts over does not reset the decoder: its response is read as
  the rest of the last one (`RestartGarbles`). `RoundDecodesIff` and `FixedRestartIff` say
  when that does no harm.
- An automatic memory id can take over an entry that a caller stored under that name
  (`AutomaticIdTakesOver`); `TakesOverIff` says when it will, and `AutomaticIdsFresh`
  which callers are safe.
- The reply to a memory request fits the tool's buffer (`ReplyFits`), not always the
  console's (`ConsoleReplyCut`).

Reads of device memory become array or sequence reads, and clocks, packets and the
order in which concurrent parties act become parameters and events. Sequence-number
claims assume what TCP assumes: a segment lies within 2^31 bytes of the acknowledgement.

## Model

| member | source | states |
|---|---|---|
| Words.SeqCmpWire | runtime/src/tls.rs:395-397 | the wrapping signed comparison of two sequence numbers is the true distance of the stream bytes they number, whenever that distance is under 2^31 |
| ReassemblyExact.BestIsEarliest | runtime/src/tls.rs:422-436 | the minimum search over parked slots finds the earliest one at or before the acknowledgement, also across sequence wrap |
| ReassemblyExact.ReplayExact | runtime/src/tls.rs:421-456 | the replay loop stops exactly at the first byte that no slot holds, and frees only slots that start at or before it |
| ReassemblyExact.ReplayQueue | runtime/src/tls.rs:337-373 | replayed bytes are appended whole if and only if all of them fit; otherwise an overflow reset is counted |
| ReassemblyExact.AcceptAdvances | runtime/src/tls.rs:418-457 | in-order bytes move the acknowledgement to the first byte missing from the union of those bytes and everything parked |
| ReassemblyExact.AcceptReleases | runtime/src/tls.rs:421-456 | it releases exactly the slots the acknowledgement has reached, keeps all others at their places, and leaves every parked segment beyond the acknowledgement |
| ReassemblyExact.AcceptOverflowsIff | runtime/src/tls.rs:341-364 | the buffer overflows exactly when the gained bytes do not fit beside the bytes still queued, wherever the queue lies in the linear buffer; otherwise they are appended whole |
| ReassemblyExact.PushCases | runtime/src/tls.rs:399-495 | a segment is ignored, refused as old, accepted with its overlap trimmed, or parked, told apart by its distance from the acknowledgement alone |
| TcpStream.ParkFrame | runtime/src/tls.rs:459-494 | parking touches only one slot and the drop count: queue, acknowledgement and reset count stay |
| TcpStream.StepFaithful | runtime/src/tls.rs:399-495 | every segment or read that causes no overflow reset keeps delivered plus queued bytes a prefix of the sender's stream, the acknowledgement in step with it, and every parked slot true to the stream |
| TcpStream.RunFaithful | runtime/src/tls.rs:399-495 | the same for whole runs, in any arrival order, with duplicates and overlaps |
| TcpStream.DeliversStream | runtime/src/tls.rs:202-222 | from a new connection the bytes handed out followed by those queued are the first n bytes of the stream, and the acknowledgement is the initial sequence number plus n modulo 2^32 |
| TcpStream.StopsAtFirstMissing | runtime/src/tls.rs:418-457 | when no segment was refused, the receiver stands at the first byte that no segment carried |
| TcpStream.ArrivalOrderIrrelevant | runtime/src/tls.rs:399-495 | two arrival orders that carry the same bytes leave the same acknowledgement and the same delivered stream |
| TcpBounds.SmallSegmentFits | runtime/src/main.rs:5125-5129 | with fewer than 131072 bytes queued and every segment at most 3971 bytes, one arriving segment with full replay of all 32 slots never overflows |
| TcpTight.SafeLenIsTight | runtime/src/tls.rs:357-364 | 3971 is the largest such size: some run from a new connection keeps to the yield rule, carries segments of at most 3972 bytes, and resets |
| TcpBounds.PacedNeverResets | runtime/src/main.rs:5125-5129 | a run that keeps to the yield rule and the size bound never resets |
| TcpBounds.PacedDeliversStream | runtime/src/tls.rs:399-495 | such runs deliver the stream with no assumption on resets |
| TcpBounds.PlainStepExact | runtime/src/main.rs:5001-5038 | the in-order receiver takes a segment exactly when it contains the next byte, then holds everything up to the segment's end |
| TcpBounds.PlainPushCases | runtime/src/main.rs:5001-5016 | the in-order receiver's three cases, told apart by the distance from its acknowledgement alone: early, stale, or taken with the overlap trimmed |
| TcpBounds.BufferedDominatesInOrder | runtime/src/main.rs:5001-5038 | on the same segments the plain path has fed a prefix of what the TLS path has delivered, and its acknowledgement is never ahead |
| TlsReceiver.Receiver.constructor | runtime/src/tls.rs:250-314 | a configured receiver is the empty value-level receiver |
| TlsReceiver.Receiver.HardReset | runtime/src/tls.rs:316-335 | everything queued and parked is forgotten; acknowledgement and counters stay |
| TlsReceiver.Receiver.Recv | runtime/src/tls.rs:202-222 | hands out the first min(len, queued) bytes in order and removes exactly those |
| TlsReceiver.Receiver.Compact | runtime/src/tls.rs:341-356 | moving the queued bytes to the front in place preserves them |
| TlsReceiver.Receiver.PushPayload | runtime/src/tls.rs:337-373 | the in-place append equals the value-level delivery, resets included |
| TlsReceiver.Receiver.FindBest | runtime/src/tls.rs:422-436 | the scan returns the slot the specification chooses |
| TlsReceiver.Receiver.ReplayAll | runtime/src/tls.rs:421-456 | the loop terminates and reaches the value-level replay state |
| TlsReceiver.Receiver.ParkSegment | runtime/src/tls.rs:459-494 | same-sequence replacement, first vacant slot, or refusal, as specified |
| TlsReceiver.Receiver.PushSegment | runtime/src/tls.rs:399-495 | one arriving segment on the arrays equals the value-level step; true exactly when the acknowledgement advanced |
| HttpDecoding.BodySplit | runtime/src/main.rs:2439-2521 | the body phases, read byte by byte, treat a then b as a + b at every cut; that the code's loops over whole chunks are this byte machine is `HttpDecoder.Response.FeedBytes` |
| HttpDecoding.StaysInBody | runtime/src/main.rs:2439-2521 | once past the header the decoder never returns to it |
| HttpDecoding.PartitionIrrelevant | runtime/src/main.rs:2358-2521 | in any body phase every partition of the input into calls gives the same result |
| HttpHeaderCut.EndAcross | runtime/src/main.rs:2362-2371 | a cut inside the closing empty line loses the header end, unless the header was too large anyway |
| HttpHeaderCut.HeaderCutExact | runtime/src/main.rs:2358-2437 | feeding a then b equals feeding a + b if and only if the cut does not fall inside the empty line that ends a header that fits |
| HttpHeaderCut.CutLosesHeader | runtime/src/main.rs:2362-2371 | a response whose header is never found: its empty line arrives in two calls |
| HttpHeaderCut.WholeResponsePartition | runtime/src/main.rs:2358-2521 | a whole response decodes as in one call under exactly those partitions that do not cut inside the empty line that ends a header that fits |
| HttpChunks.ChunkedRoundTrip | runtime/src/main.rs:2459-2518 | non-empty chunks printed with size lines below 2^64, any extensions and a zero chunk decode to exactly their data and end in the final state, under every partition into calls |
| HttpChunks.SizedRoundTrip | runtime/src/main.rs:2459-2492 | every non-empty body below 2^64 bytes can be sent as a chunk: printed with its length in hexadecimal, the bodies decode to their concatenation, under every partition |
| HttpChunks.FixedExact | runtime/src/main.rs:2439-2458 | a body of known length is exactly its first content-length bytes; with no length everything is body |
| HttpDecoder.Response.SearchEnd | runtime/src/main.rs:2362-2371 | the search finds the first empty line within this call's bytes, and only there |
| HttpDecoder.Response.KeepHeader | runtime/src/main.rs:2382-2398 | header bytes are kept whole or the response fails |
| HttpDecoder.Response.FeedHeader | runtime/src/main.rs:2362-2437 | the header phase on the fields equals the specification |
| HttpDecoder.Response.FeedFixed | runtime/src/main.rs:2439-2458 | the fixed-length phase on the fields equals the byte machine |
| HttpDecoder.Response.FeedSizeByte | runtime/src/main.rs:2459-2492 | the size-line phase on the fields equals the byte machine |
| HttpDecoder.Response.FeedChunk | runtime/src/main.rs:2493-2508 | the chunk phase on the fields equals the byte machine |
| HttpDecoder.Response.FeedChunkEnd | runtime/src/main.rs:2509-2518 | the line end after a chunk, also when CR and LF arrive in different calls |
| HttpDecoder.Response.FeedBytes | runtime/src/main.rs:2358-2521 | one call on the fields, with its loops over runs of header, body and chunk bytes, equals the decoding of its bytes one at a time: same state, same body, same failure |
| PlainHttp.RunDecodesStream | runtime/src/main.rs:5001-5038 | from any state of the fetch, the unread header included, a run ends as one call on the stretch of the sender's stream it has taken would, exactly when no piece ends inside the header's closing empty line |
| PlainHttp.RunFeedsPieces | runtime/src/main.rs:5001-5038 | whatever segments arrive, the pieces fed to the decoder are a contiguous stretch of the sender's stream, in order and without repetition |
| PlainHttp.ChunkedDownload | runtime/src/main.rs:5001-5038 | a whole chunked download, from the first segment on and in any arrival order: once its bytes have been taken the captured body is exactly the chunks' data, if no 900-byte piece ends inside the header's empty line |
| PlainHttp.ClearNeverCuts | runtime/src/main.rs:5018-5032 | pieces that do not end inside the first empty line decode as if uncut |
| PlainHttp.Receiver.FeedPieces | runtime/src/main.rs:5018-5032 | feeding piece by piece equals feeding the list of pieces |
| PlainHttp.Receiver.PushSegment | runtime/src/main.rs:5001-5038 | overlap trimming, feeding and the acknowledgement on the fields equal the specification |
| PatchHunks.FindLeftmost | tools/m5_host_bridge.py:649-656 | the search is leftmost, and fails only when there is no match at or after the start |
| PatchHunks.GreedyComplete | tools/m5_host_bridge.py:678-695 | leftmost placement succeeds if and only if some in-order, non-overlapping placement of all hunks exists |
| PatchHunks.GreedyEarliest | tools/m5_host_bridge.py:678-695 | no placement puts any hunk earlier |
| PatchHunks.GreedyIff | tools/m5_host_bridge.py:678-695 | a placement is the one the code finds exactly when no hunk's old lines occur between the end of the previous hunk's place and its own |
| PatchUpdate.ScannedIsGreedy | tools/m5_host_bridge.py:668-702 | reading the body line by line equals placing its edits greedily and splicing them in |
| PatchUpdate.UpdateSucceedsIff | tools/m5_host_bridge.py:668-708 | an update succeeds exactly when its body is well-formed, holds a hunk, and its hunks can be placed at all |
| PatchUpdate.UpdateResult | tools/m5_host_bridge.py:668-708 | the result is the original with the hunks' regions replaced at an earliest placement and everything between unchanged |
| PatchInverse.InverseApplies | tools/m5_host_bridge.py:678-702 | the swapped hunks always apply to the result |
| PatchInverse.InverseRestoresIff | tools/m5_host_bridge.py:678-702 | they restore the original exactly when no hunk's new lines occur in the result between the end of the previous hunk's region and its own (a hunk without new lines must sit at that end) |
| PatchInverse.InverseCanMiss | tools/m5_host_bridge.py:678-702 | a patch whose swap applies but does not restore the file |
| PatchInverse.SpliceLength | tools/m5_host_bridge.py:686-695 | splicing changes the line count by lines added minus lines removed |
| PatchText.JoinSplit | tools/m5_host_bridge.py:659-665 | splitting newline-only text and joining it again is the identity |
| PatchText.SplitJoinIff | tools/m5_host_bridge.py:659-665 | joining then splitting is the identity exactly when a newline is added, there are no lines, or the last line is not empty |
| PatchText.EditsFlip | tools/m5_host_bridge.py:678-702 | exchanging + and - in a body exchanges the two sides of every edit |
| PatchText.SwappedPatch | tools/m5_host_bridge.py:668-708 | at body level: the swapped patch applies, and restores the lines under exactly that condition on matches |
| PatchTextInverse.SplitJoin | tools/m5_host_bridge.py:659-665 | what splitting makes of joined lines, in all cases: an empty last line without a final newline is lost |
| PatchTextInverse.SwappedTextIff | tools/m5_host_bridge.py:659-708 | at file level: the swapped patch restores the file text if and only if the updated file still shows its lines (it was neither emptied nor un-terminated) and no hunk's new lines occur too early in them |
| PatchText.UpdateLineCount | tools/m5_host_bridge.py:668-708 | an update changes the line count by lines added minus lines removed |
| PatchRun.RunPrinted | tools/m5_host_bridge.py:738-790 | printing operations into the envelope and reading them back, from any line on, applies exactly those operations |
| PatchRun.PrintedPatch | tools/m5_host_bridge.py:738-790 | the same for the patch text: size limit, line splitting and first line included |
| PatchRun.RunPatchReads | tools/m5_host_bridge.py:738-790 | any patch text at all, well-formed or not: reading and applying in turn is applying the operations up to the first bad line, then failing with that line's error |
| PatchRun.UnreportedUnchanged | tools/m5_host_bridge.py:738-790 | for every patch text: a file not reported as changed is as before, even when the run fails |
| PatchRun.FailureKeepsPrefix | harness/lib/m5_substrate.py:251-312 | for every failing patch text, exactly the operations before the failing one or the bad line have been done |
| PatchRun.RolledBackIff | harness/lib/m5_substrate.py:251-312 | a failing patch leaves the files and the list of file writes as they were exactly when it has no operation before its first bad line, or its first operation fails |
| PatchRun.FailureLeavesChanges | harness/lib/m5_substrate.py:251-312 | a patch that fails and leaves a new file behind |
| PatchRun.NoOpLeavesFiles | tools/m5_host_bridge.py:738-790 | the files alone can be as before after an operation was done: an update that changes nothing, then a bad line |
| PatchWorkspace.FindSequence | harness/lib/m5_substrate.py:167-174 | the scanning loop equals the leftmost search |
| PatchWorkspace.Chunks | tools/m5_host_bridge.py:678-687 | a hunk is split into what it expects and what it leaves |
| PatchWorkspace.FlushHunk | tools/m5_host_bridge.py:678-695 | placing one hunk advances position and output as specified |
| PatchWorkspace.UpdateLines | harness/lib/m5_substrate.py:184-224 | the loop with its advancing position equals the specified update |
| PatchWorkspace.CollectAdded | harness/lib/m5_substrate.py:226-243 | the lines of a new file, each stripped of its mark |
| PatchWorkspace.Workspace.ApplyOp | harness/lib/m5_substrate.py:184-249 | one operation on the file map, errors included; a missing update target is an error of its own |
| PatchWorkspace.Workspace.ApplyPatch | harness/lib/m5_substrate.py:251-312 | the whole run on the object's fields; on failure the earlier operations stay applied, a `ValueError` becomes a reply, and a missing update target escapes as an exception |
| Utf8.SafeLenExact | runtime/src/agent/mod.rs:708-721 | the safe prefix is well-formed and no longer prefix within the limit is |
| Utf8.SafeLenLongest | runtime/src/agent/mod.rs:708-721 | every well-formed prefix within the limit is at most that long |
| Utf8.SafePrefixLen | runtime/src/agent/mod.rs:708-721 | the loop computes exactly that length |
| Utf8.SuffixExact | runtime/src/agent/session.rs:61-74 | a suffix of well-formed text cut to a budget is well-formed, within budget, and at most three bytes short of it |
| Utf8.SafeSuffixStart | runtime/src/agent/session.rs:61-74 | the loop that skips continuation bytes computes that cut |
| Json.EscapeRoundTripIff | runtime/src/agent/mod.rs:756-809 | escaping then reading gives the original back if and only if it is well-formed UTF-8 |
| Json.ReadEscaped | runtime/src/agent/mod.rs:886-957 | otherwise it gives the text with every stray byte replaced |
| Json.EncodePointWellFormedIff | runtime/src/agent/mod.rs:596-628 | the encoder of one code point yields well-formed bytes exactly for numbers that are not surrogates (beyond the last code point it yields nothing) |
| JsonDecoding.ReadsWellFormedIff | runtime/src/agent/mod.rs:764-809 | for every well-formed body and every buffer size, the string read is ill-formed exactly when an escape that fits names a surrogate or a character meets a room that is not empty but too small for it |
| JsonDecoding.FittingReadIff | runtime/src/agent/mod.rs:764-809 | when the decoded body fits, the string read is well-formed if and only if no \u escape names a surrogate |
| JsonDecoding.CutCharacterRead | runtime/src/agent/mod.rs:764-809 | a three-byte character read into two bytes of room leaves two bytes that are not well-formed |
| JsonLookup.EscapeGuarded | runtime/src/agent/mod.rs:886-957 | escaped text holds no quote that is not behind a backslash |
| JsonLookup.LookupExact | runtime/src/agent/mod.rs:728-754 | in a printed object the scan finds exactly the first key of that name and nothing else, even when values contain quotes, colons or the key pattern itself |
| JsonLookup.ExtractExact | runtime/src/agent/mod.rs:756-809 | looking up a key gives back its value when that is well-formed and fits, whatever the other values are |
| JsonCodec.EscapeIntoWellFormed | runtime/src/agent/mod.rs:886-957 | escaped text is well-formed for every input bytes, even when truncated to fit |
| JsonCodec.EscapeAppend | runtime/src/agent/mod.rs:886-957 | the index loop writes exactly what fits behind the start and leaves the rest of the buffer alone |
| JsonCodec.FindKeyOffset | runtime/src/agent/mod.rs:728-754 | the scanning loop returns the offset the specification gives, or none |
| JsonCodec.ReadBody | runtime/src/agent/mod.rs:764-809 | the unescaping loop writes the read string into the caller's buffer, truncated at its size |
| JsonCodec.ExtractString | runtime/src/agent/mod.rs:756-809 | key search and unescaping together |
| AgentSession.ViewExact | runtime/src/agent/session.rs:160-182 | the history view is well-formed, within budget, and at most three bytes short when the history is longer |
| AgentSession.Session.AppendBytes | runtime/src/agent/session.rs:18-29 | the history grows by the longest well-formed prefix that fits and stays well-formed and bounded |
| AgentSession.Session.AppendUserTurn | runtime/src/agent/session.rs:131-133 | the three appends of a user turn, in order, keeping the same invariant |
| AgentSession.Session.AppendToolResult | runtime/src/agent/session.rs:139-143 | likewise the five appends of a tool result |
| AgentSession.Session.AppendAssistantTurn | runtime/src/agent/session.rs:149-151 | likewise the three appends of an answer |
| AgentTurns.Agent.EnsureSessionStarted | runtime/src/agent/session.rs:106-126 | starting a session empties history, state and memory the first time and changes nothing afterwards |
| AgentTurns.Agent.AppendUserTurn | runtime/src/agent/session.rs:128-134 | a whole user turn, from a started session or not: history, turn count and the whole task entry are the ones specified, and the other entries and the key/value state stay |
| AgentSession.Session.SuffixExcluding | runtime/src/agent/session.rs:160-182 | the specified view is written into the caller's buffer behind what is there, cut at its end |
| AgentSession.SessionState.Write | runtime/src/agent/session.rs:214-227 | a known key is overwritten, a new one takes a vacant slot or replaces the first; the value kept is a well-formed prefix; other keys are untouched |
| AgentSession.SessionState.Read | runtime/src/agent/session.rs:206-212 | the value held under the key is copied to the caller's buffer, cut at its size; an unknown key gives nothing |
| AgentSession.SessionState.WriteThenRead | runtime/src/agent/session.rs:206-227 | what is read back under a key is the longest well-formed prefix of what was last written there |
| AgentMemory.PromptLineFits | runtime/src/agent/memory.rs:523-542 | a prompt line is well-formed and fits the line buffer |
| AgentMemory.SectionExact | runtime/src/agent/memory.rs:544-561 | a prompt section never exceeds its budget and is well-formed |
| AgentMemory.ReplyField | runtime/src/agent/memory.rs:494-521 | each text field of the printed reply is found under its own name |
| AgentMemory.ReadMemoryRoundTrip | runtime/src/agent/memory.rs:904-919 | reading an entry's JSON gives back the stored summary, detail and source exactly |
| MemoryReply.CopyDecimal | runtime/src/agent/memory.rs:66-87 | the digits collected backwards come out in order, cut at the buffer's end |
| MemoryReply.AppendEntryJson | runtime/src/agent/memory.rs:494-521 | with the detail or without, fitting or not: exactly what the pieces in their order leave in the buffer, each cut or skipped as the copying and escaping loops do |
| MemoryReply.EntryWhole | runtime/src/agent/memory.rs:494-521 | with the detail, all pieces together are the entry's JSON |
| MemoryReply.ReplyPrinted | runtime/src/agent/memory.rs:904-919 | the pieces written are the printed items that the lookup theorems are about |
| MemoryReply.SlotFromId | runtime/src/agent/memory.rs:612-625 | the first slot with the identifier |
| MemoryReply.BuildReadMemoryJson | runtime/src/agent/memory.rs:904-919 | the reply written into any buffer, however small: the pieces of the known entry or of the error reply; the entries and the turn are kept, or empty when the memory was not started |
| MemoryReply.WrittenFits | runtime/src/agent/memory.rs:904-919 | where all pieces fit, what is written is the whole reply |
| MemoryReply.ReplyFits | runtime/src/agent/loop.rs:9-30 | every entry that a slot can hold has a reply of at most 8192 bytes, the size of the tool's result buffer |
| MemoryReply.ConsoleReplyCut | runtime/src/agent/memory.rs:939-946 | an entry that a slot can hold whose reply does not fit the console's 2048 bytes |
| MemoryReply.ReadBack | runtime/src/agent/mod.rs:756-809 | from a buffer of 8192 bytes or more, or any in which the reply fits, extracting summary, detail or source gives back the bytes stored before the call, and every entry is kept |
| AgentMemory.Memory.SetSlot | runtime/src/agent/memory.rs:229-254 | texts are cut to their longest well-formed prefix; identifier and creation turn are set once; other slots are untouched |
| AgentMemory.Memory.NoteUserRequest | runtime/src/agent/memory.rs:655-670 | the turn advances, slot 0 holds exactly the trimmed request under its identifier and creation turn, and all other slots stay |
| AgentMemory.Memory.SummaryFromText | runtime/src/agent/memory.rs:563-569 | exactly the longest well-formed prefix that fits, less its trailing newlines and nothing else |
| AgentMemory.Memory.PromptSection | runtime/src/agent/memory.rs:544-561 | the loop that appends cut lines while budget remains puts exactly the specified section behind the prompt so far, cut at the buffer's end |
| RxQueue.SlotOf | runtime/src/net.rs:1249-1271 | with a power-of-two queue size a wrapped 16-bit index names the same slot as the count it stands for |
| RxQueue.StepSafe | runtime/src/net.rs:1249-1352 | every step of driver or device keeps each buffer in at most one place |
| RxQueue.EveryInterleaving | runtime/src/net.rs:1249-1271 | in every interleaving each buffer is posted at most once, posted entries never exceed the buffers, and a post never overwrites an unconsumed entry, across 16-bit wrap |
| RxQueue.RearmSafe | runtime/src/net.rs:1259-1271 | rearming appends the current buffer to the pending entries, once |
| RxQueue.RunConserves | runtime/src/main.rs:4626-5477 | buffers are conserved but for exactly counted losses: the entry at used index 0, entries skipped, and a current buffer replaced before it was rearmed |
| RxQueue.NextConserves | runtime/src/net.rs:1302-1317 | one step of the receive loop loses a buffer exactly when the index wraps to 0 or the current buffer was not rearmed |
| RxStarves.EveryQueueStarves | runtime/src/net.rs:1302-1352 | in every interleaving, buffers in circulation and wraps of the used index never exceed the buffers posted at the start, so a queue is handed at most 65536 entries for each of them, 524288 with eight, and then has no buffer left for ever |
| RxStarves.QueueStarves | runtime/src/net.rs:1302-1305 | the bound is reached: a queue with one buffer, rearmed after each of 65536 packets, ends with no buffer in circulation, and none ever comes back |
| RxDriver.Driver.constructor | runtime/src/net.rs:380-400 | every buffer is posted once at the start |
| RxDriver.Driver.RxSetCurrent | runtime/src/net.rs:1332-1352 | an id that names no buffer clears the current one |
| RxDriver.Driver.RxRearm | runtime/src/net.rs:1249-1271 | the ring write and index publication equal the protocol step |
| RxDriver.Driver.RxNext | runtime/src/main.rs:4626-4631 | one turn of the receive loop equals the protocol step |
| TxQueue.StepSafe | runtime/src/net.rs:459-473 | every step keeps the frame on its way untouched and the indices equal to the counts modulo 2^16 |
| TxQueue.WireIsAccepted | runtime/src/net.rs:826-898 | in every interleaving the wire carries exactly the published frames, in order and intact, and a buffer being filled is never one the device may still read |
| TxQueue.ReadyIff | runtime/src/net.rs:459-473 | a send is refused exactly while a frame is on its way, never because an index wrapped |
| TxQueue.TxWaitReady | runtime/src/net.rs:459-473 | ready exactly when one of the first 200001 looks shows the last frame returned |
| Checksum.NoWrap | runtime/src/net.rs:574-588 | 131074 bytes never wrap the 32-bit accumulator |
| Checksum.NoWrapIsTight | runtime/src/net.rs:574-588 | one byte more can |
| Checksum.Fold | runtime/src/net.rs:599-601 | the fold loop terminates with the value's one's-complement residue modulo 65535 |
| Checksum.SumWords | runtime/src/net.rs:574-588 | the loop sums the big-endian words of the range, an odd last byte as a high byte |
| Checksum.Checksum16 | runtime/src/net.rs:555-572 | the complement of the folded sum of the range |
| Checksum.Checksum16Tcp | runtime/src/net.rs:590-603 | equals the checksum of the pseudo-header bytes followed by the segment |
| Checksum.FilledVerifies | runtime/src/net.rs:867-868 | bytes with the checksum written into a zero field fold to all ones |
| Checksum.ReplacedWord | runtime/src/net.rs:555-572 | in verifying bytes a replaced word goes unnoticed exactly when it is equal or exchanges the two one's-complement zeros |
| TcpFrame.FrameVerifies | runtime/src/net.rs:813-898 | the IP header and the pseudo-header with segment of every frame built by send_tcp verify, for odd and even payloads |
| TcpFrame.SendTcp | runtime/src/net.rs:813-868 | a send is refused, with the buffer untouched, exactly when the last frame is still on its way after every look or the payload does not fit; otherwise the buffer holds exactly the frame and older bytes behind it stay |
| TcpFrame.ParseTcp | runtime/src/net.rs:1056-1120 | a payload reported by parse_rx_tcp lies inside the received bytes and its length agrees with the IP total length |
| TcpFrame.ParseSent | runtime/src/net.rs:1056-1120 | every frame built by send_tcp is parsed back to the same addresses, ports, numbers, flags and payload, padding or not |
| TimedCache.StoreSound | runtime/src/main.rs:934-964 | a store keeps keys unique among valid slots and each slot equal to its key's last store |
| TimedCache.StoreKeeps | runtime/src/net.rs:127-152 | a store loses another key if and only if the key is new, no slot is free, and it is that key's turn |
| TimedCache.HitIsLatest | runtime/src/main.rs:910-932 | a hit is the most recent store of its key and unexpired |
| TimedCache.AgreesWithTimedMap | runtime/src/net.rs:204-220 | over all runs: hits agree with a timed map, and while at most eight keys were ever stored under a monotone clock, every unexpired store is found |
| TimedCache.NinthKeyEvicts | runtime/src/net.rs:141-145 | when a ninth key is stored among eight, the key whose turn it is cannot be found any more |
| TimedCache.NineKeysLoseOne | runtime/src/net.rs:141-145 | nine stores from the empty cache after which the first key, unexpired, is not found |
| ResolverCaches.NameEq | runtime/src/main.rs:894-908 | names are compared without regard to ASCII case |
| ResolverCaches.StoredNameMatches | runtime/src/main.rs:934-964 | a name stored in lower case matches a query exactly when the names match without regard to case |
| ResolverCaches.Table.Put | runtime/src/net.rs:127-152 | the slot scan equals the specified choice: own slot, first free slot, then round robin |
| ResolverCaches.Table.Get | runtime/src/net.rs:204-220 | the lookup scan returns the specified hit and drops exactly the expired slots it passes |
| ResolverCaches.Table.ArpStore | runtime/src/net.rs:127-152 | a store with the 120-second lifetime |
| ResolverCaches.Table.DnsStore | runtime/src/main.rs:934-964 | a name of 1 to 256 bytes is stored in lower case with the 60-second lifetime; any other is ignored |
| ResolverCaches.Table.DnsLookup | runtime/src/main.rs:910-932 | a name outside those lengths is never found and changes nothing |
| Allocator.ClearLowExact | runtime/src/allocator.rs:69-71 | clearing the low k bits rounds down to a multiple of 2^k |
| Allocator.AlignUpLeast | runtime/src/allocator.rs:69-71 | align_up is the least multiple of the alignment at or above its argument |
| Allocator.EveryInterleavingSafe | runtime/src/allocator.rs:31-61 | once next is initialised, in every interleaving of any number of callers blocks are disjoint, aligned and inside the heap, and next never decreases |
| Allocator.SafeIff | runtime/src/allocator.rs:31-61 | with two callers or more, every run hands out blocks that share no byte if and only if next is initialised and no caller is still about to initialise it |
| Allocator.LateStoreOverlaps | runtime/src/allocator.rs:36-39 | an initialising store that comes after a block was handed out lets the next request be given that block's bytes |
| Allocator.StoreSafeIff | runtime/src/allocator.rs:36-39 | the initialising store keeps the layout (blocks below next, in order, aligned) exactly while no block has been handed out |
| Allocator.ColdStartSafe | runtime/src/allocator.rs:31-61 | from program start the same holds of every run without such a late store |
| Allocator.ColdStartRace | runtime/src/allocator.rs:36-39 | two callers that both saw the zero are each served as if alone: each is given the first place after the heap's start that suits its alignment, so with equal alignments the same address |
| Allocator.ExchangeOutcome | runtime/src/allocator.rs:41-60 | a refusal is right even on a stale value, and a retry means that another caller moved next forward |
| Allocator.BumpAllocator.Alloc | runtime/src/allocator.rs:31-61 | with any number of other callers between the load and every later step the loop terminates; unless one of them was handed a block between a load of zero and the initialising store, the new block joins the others disjointly, and a refusal means the request does not fit |
| Checkpoints.OrderListsKeys | harness/lib/m7_substrate.py:76-124 | in every reachable store the order has no duplicates and lists exactly the map's keys |
| Checkpoints.ResumeRestores | harness/lib/m7_substrate.py:295-346 | whatever happens between save and resume, the resume restores exactly the entries and order of the save |
| Checkpoints.StepInv | harness/lib/m7_substrate.py:76-346 | no operation changes a saved copy, and every one keeps the store consistent |
| Checkpoints.CompactAgain | harness/lib/m7_substrate.py:159-189 | compacting an entry again changes nothing but its turn |
| Checkpoints.CompactStops | harness/lib/m7_substrate.py:159-163 | a compaction that meets an unknown id has compacted exactly the ids before it, and leaves the store unchanged exactly when there are none |
| Checkpoints.FailureLeavesCompacted | harness/lib/m7_substrate.py:159-163 | a compaction that fails at its second id and leaves the first one compacted |
| Checkpoints.AutomaticId | harness/lib/m7_substrate.py:89-105 | at one step: an automatic id, also for an empty given one, replaces an entry exactly when that id is in use |
| Checkpoints.AutomaticIdsFresh | harness/lib/m7_substrate.py:55-105 | in a run in which no caller names an entry by an automatic id still to come, no automatic add ever replaces an entry, whatever is saved and resumed |
| Checkpoints.TakesOverIff | harness/lib/m7_substrate.py:55-105 | from any consistent store some run without further such names comes to an automatic add that replaces an entry if and only if an automatic id still to come is in use already, now or in a saved copy |
| Checkpoints.AutomaticIdTakesOver | harness/lib/m7_substrate.py:89-105 | a note stored as mem-1 by its caller is lost to the next note without an id |
| Checkpoints.CheckpointIdInjective | harness/lib/m7_substrate.py:60-63 | checkpoint ids never repeat |
| CheckpointStore.Substrate.AddMemory | harness/lib/m7_substrate.py:76-124 | a new entry object takes the id; all other live and saved objects stay as they are; an unknown kind changes nothing |
| CheckpointStore.Memo.Compact | harness/lib/m7_substrate.py:166-175 | one entry object's fields are overwritten as specified |
| CheckpointStore.Substrate.CompactOne | harness/lib/m7_substrate.py:165-186 | changing one live object leaves every other entry and every saved copy as it is |
| CheckpointStore.Substrate.CompactMemory | harness/lib/m7_substrate.py:159-189 | the loop that overwrites live entry objects in place equals the specified compaction, so no saved copy changes; it succeeds exactly when all ids are known |
| CheckpointStore.Substrate.ListMemory | harness/lib/m7_substrate.py:126-151 | the first entries of the kind in order up to the limit, and truncated exactly when there are more |
| CheckpointStore.Substrate.SaveCheckpoint | harness/lib/m7_substrate.py:295-314 | deep copies in order are kept, so later changes to live objects cannot reach them; record, event and counter as specified |
| CheckpointStore.Substrate.Copies | harness/lib/m7_substrate.py:297 | a deep copy: equal values in new objects, no two of them the same |
| CheckpointStore.Substrate.ResumeCheckpoint | harness/lib/m7_substrate.py:316-346 | copies of the saved objects become the live ones, so the checkpoint can be resumed again; state as specified |
| CheckpointStore.Substrate.Rebuild | harness/lib/m7_substrate.py:324-329 | the loop that reinserts entries rebuilds map and order |
| Fetch.LimitsHold | runtime/src/main.rs:3036-3057 | in every run a fetch uses at most two extra rounds and re-arms its deadline at most twice, and a request follows at most three redirects |
| Fetch.StepDescends | runtime/src/main.rs:2224-2266 | remaining starts and rounds never rise lexicographically; each new round and followed redirect lowers them |
| Fetch.FetchEndsInTime | runtime/src/main.rs:3030-3057 | whatever the network does, a fetch is over at the first tick later than three deadlines and two tick gaps after its first |
| FetchTime.RequestEndsInTime | runtime/src/main.rs:5533-5628 | a whole request with its redirects is over at the first tick later than four times 90 s and four tick gaps each after it began, wherever in a turn of the main loop that was; a turn makes at most one tick, and ticks come at most a given gap apart |
| FetchTime.RunInTime | runtime/src/main.rs:3024-3057 | the time invariant behind it, over every run of ticks, packets, redirects and ends of turns; a finished fetch with a redirect to follow still sees the tick of its turn |
| Fetch.SpentForever | runtime/src/main.rs:3036-3057 | from the third expiry on no tick or packet brings the fetch back |
| Fetch.ThirdExpirySpends | runtime/src/main.rs:3033-3055 | an expired deadline spends the fetch exactly when both extra rounds have been used |
| Fetch.TickWhenDone | runtime/src/main.rs:3024-3061 | before that, a finished fetch that still waits stays finished exactly when no round is restarted by its deadline and its gateway is known |
| Fetch.RevivedWhenDone | runtime/src/main.rs:3024-3061 | a fetch that is done and is started again by its deadline |
| FetchDecoding.RunFeeds | runtime/src/main.rs:2358-2521 | within a fetch the one decoder is given the response bytes of all rounds, one after another |
| FetchDecoding.RoundDecodesIff | runtime/src/main.rs:3036-3051 | a round started over by its deadline keeps the decoder as it is: whatever arrives from then on is decoded as the response it is, in every run, if and only if no response byte had arrived before |
| FetchDecoding.FixedRestartIff | runtime/src/main.rs:2439-2458 | a response of known length that is sent again after a given number of body bytes ends as the right body exactly when the missing bytes happen to be how the response begins |
| FetchDecoding.RestartGarbles | runtime/src/main.rs:3036-3051 | a run of two rounds that ends with a byte of the header in the body |
| Fetch.OwnAddressIff | runtime/src/main.rs:2972-2998 | a fetch connects only to an address found for it, in all its runs, exactly when it does not start with an unknown gateway, an unresolved name and an older address in place |
| Fetch.ConnectsToOldAddress | runtime/src/main.rs:2972-2998 | two fetches, the second of which connects to the first one's address |
| FetchMachine.Machine.RestartTransport | runtime/src/main.rs:2974-2988 | the transport restart on the fields equals the specification |
| FetchMachine.Machine.FetchTick | runtime/src/main.rs:3024-3247 | one tick on the fields equals the specification |
| FetchMachine.Machine.CaptureRedirect | runtime/src/main.rs:2224-2266 | redirect capture on the fields equals the specification |
| FetchMachine.Machine.ChooseTransport | runtime/src/main.rs:2820-2834 | the choice of address and phase at a start |
| FetchMachine.Machine.Begin | runtime/src/main.rs:2605-2834 | a start clears counters and deadline, keeps the redirect count only for a followed redirect, and goes straight to the request phase when an open transport is reused |

## Left out

- The overflow branch of the receive buffer: stream theorems assume no reset happened in the run, or derive that from the pacing bound; after a reset the stream has a hole by design of the code.
- FIN on the plain-HTTP and TLS paths: it acknowledges past missing data, so stream claims do not cover it.
- HTTP header fields: parsing is an arbitrary function from header bytes to chunked flag and content length; redirects found in headers enter the fetch machine as events.
- Header and body output: forwarding to the UDP peer, to UART and JSON body handling is reduced to the emitted body bytes.
- The flag that a chunk-size digit was seen is written but never read by the code, so it is not part of the decoder state.
- Python's `splitlines` separators other than newline, and file-system paths: files are a map from path to newline-only text.
- Patch results: error messages are reduced to kinds, and `bytes_written` is not modelled.
- The list of memory entries, which prints the same fields without the detail.
- The compaction-text builders, excerpt normalisation, token estimates and budget reports of the agent's memory: they only choose texts, which reach the slots through `SetSlot`.
- Statistics counters, traces, UART output, probing and reset of devices.
- TxQueue.WireIsAccepted: the descriptor and the ring slot are not separate fields, since one descriptor with head 0 is used for every frame.
- UDP, ICMP and ARP frames: built like TCP frames (UDP without a checksum of its own), so they would only repeat `TcpFrame`.
- Overflow of 64-bit millisecond clocks in cache expiry and fetch deadlines.
- Allocator.AlignUpLeast: addresses are unbounded; the addition cannot wrap for a heap in the lower half of the address space.
- TimedCache.AgreesWithTimedMap: completeness is claimed for at most eight keys, and `NinthKeyEvicts` shows why.
- FetchMachine.Machine.FetchTick: the proxy, TLS and HTTP phases of a fetch are one phase whose effect on the retry fields is arbitrary.
- FetchMachine.Machine.CaptureRedirect: whether a redirect's location is found and usable is a flag of the event; its text is not parsed.
- FetchTime.RequestEndsInTime: the bound assumes ticks at most a given gap apart; how long a turn of the main loop takes is not modelled.
- Allocator.BumpAllocator.Alloc: the other callers take each of their own requests in one step here; races among them are in the state machine.
- AgentSession.Session.AppendToolResult: the memory notes of tool and assistant turns, and the `session_started` trace of a start.
- Checkpoints.CompactStops: the list of updated ids that a successful compaction returns.
- Follow-up fetches that the agent starts when one is done: each is a new request.
- OAuth requests, which never follow redirects; the check of corrupted name lengths in a tick.
- Context snapshots, budgets, artifact files and the `mode` argument of compaction in the harness memory; `rstrip` is restricted to ASCII white space.
- TLS itself, cryptography, the SOCKS exchange, the process runner, search and relay of the host bridge, and the device-tree reader.
