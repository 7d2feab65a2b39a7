# Verified model of zerodpi-core

This project models the parts of `zerodpi-core` that keep state or do exact byte work, and proves
what they promise for all inputs, all runs and all interleavings:

- **Target pool** (`random_index.dfy`, `words.dfy`, `mix_vector.dfy`, `selection.dfy`, `distinct.dfy`,
  `target_pool.dfy`): ranked members over an append-only history, shared counters, leases that outlive
  a rescan, four selection strategies and the rejection sampler behind the random one. Counters are
  heap objects; a ghost set of live leases says what they must count.
- **Flow tracking** (`interceptor.dfy`, `flow.dfy`, `handler.dfy`, `flow_runs.dfy`, `flow_answers.dfy`,
  `reset_runs.dfy`): the per-connection TCP state machine as a class that updates its fields, refined
  by functions on its value, and a transition system in which the packet thread, the proxy's own
  `finish` calls and one waiter interleave freely. A packet's locked section and the `finish` after it
  are separate steps. `flow_answers.dfy` says what comes of each kind of packet, told from the packet
  and the flow alone.
- **IPv4 fragmenter and header checksum** (`ip_fragment.dfy`), with a receiver that reassembles by
  offset as in section 3.2 of RFC 791.
- **IP scan scheduler** (`ip_scanner.dfy`): two bounded task sets and a backlog; which task ends
  next, with what result, is an input.
- **ClientHello builder** (`client_hello.dfy`, `tls_template.dfy`), with an independent writer and reader of
  the wire format that are proved inverse to each other.
- **Scan-list deduplication** (`scan_list.dfy`) and **status-line reading** (`scanner_http.dfy`,
  `utf8.dfy`).

`arithmetic.dfy`, `bytes.dfy` and `wrappers.dfy` hold shared vocabulary. `dafny verify dfyconfig.toml`
checks everything.

## What the proofs brought to light

- A staged first data packet completes on the server's acknowledgement only if no fake was sent before
  it. After a fake, the branch at `handler.rs:313` catches that acknowledgement first and closes the
  flow, although the comment at `flow.rs:66-69` promises completion. `FlowRuns.DataAckCompletes` gives
  the exact condition, `FlowRuns.DataAckAfterFakeCloses` a run in which it matters.
- The fragment offset is carried correctly exactly while it is below 65536
  (`IpFragment.OffsetFieldLimit`).
- A stored measurement is refused after a replacement except when the 64-bit generation has come
  round (`TargetPool.TargetPool.GenerationTellsReplacementsApart`).
- A status line whose carriage return follows the code directly (no reason phrase and no second
  space) is reported as no status by the download path: the bytes before the line feed still carry
  the carriage return (`ScannerHttp.AgreesWithWholeParse`, with such a line for every code in
  `ScannerHttp.ReasonlessLineIsLost`).
- A line feed between byte 1024 and byte 9214 makes the report depend on how the stream was split into
  reads of at most 8192 bytes, whenever the first 1024 bytes spell a status. Before byte 1024 the split
  never matters, and from byte 9215 on no split reports anything (`ScannerHttp.SplitsAgree`, with a
  stream in `ScannerHttp.LateLineFeedHappens`).
- Resetting the flow table visits and then clears it. A flow registered after the reset began may be
  dropped unfinished, exactly when nothing removes, visits or finishes it before the clearing
  (`ResetRuns.LostExactlyWhenUnmet`, with a run in `ResetRuns.LateFlowIsDropped`); a flow registered
  before is never lost (`ResetRuns.OldFlowsAreFinished`).

## Model

| member | source | states |
|---|---|---|
| `XorShifts.ShiftsAreUndone` | crates/zerodpi-core/src/target_pool.rs:377-379 | each xor-shift of the mixing step has a left inverse on 64-bit words |
| `RandomIndex.MixIsBijective` | crates/zerodpi-core/src/target_pool.rs:376-379 | the whole mixing step is a bijection on 64-bit words, with its inverse given |
| `RandomIndex.StatesDoNotRepeat` | crates/zerodpi-core/src/target_pool.rs:375 | the odd increment brings no generator state back within 2^64 steps |
| `RandomIndex.RejectionsAreBounded` | crates/zerodpi-core/src/target_pool.rs:373-383 | at most 2^64 mod count draws in a row can be rejected |
| `RandomIndex.ThresholdIsRemainder` | crates/zerodpi-core/src/target_pool.rs:373 | the wrapped negation modulo count is 2^64 mod count, so what is accepted splits into whole blocks |
| `RandomIndex.Choose` | crates/zerodpi-core/src/target_pool.rs:371-384 | the loop ends; the index is below count and comes from the first accepted draw, and the state advances by exactly the draws made |
| `RandomIndex.EveryCycleIsEven` | crates/zerodpi-core/src/target_pool.rs:370-384 | among any 2^64 draws in a row, from any seed, each index is accepted exactly floor(2^64 / count) times |
| `RandomIndex.ChoiceIsUnbiased` | crates/zerodpi-core/src/target_pool.rs:370-384 | every index below count is produced by exactly floor(2^64 / count) of the generator states and by no other |
| `RandomIndex.ChosenIsYielded` | crates/zerodpi-core/src/target_pool.rs:381-382 | the index is what a multiple of the count leaves of the accepted word, and no accepted word is among the lowest 2^64 mod count |
| `RandomIndex.ChosenContinues` | crates/zerodpi-core/src/target_pool.rs:374-383 | choices made one after another continue one generator sequence: each takes the next accepted draw after those of the last |
| `MixVector.FirstWordAfterZero` | crates/zerodpi-core/src/target_pool.rs:375-379 | the first word after seed zero is 0xE220A8397B1DCDAF, as for SplitMix64 |
| `Selection.LeastLoadIndexIsRight` | crates/zerodpi-core/src/target_pool.rs:325-328 | least load picks a member of minimal load, the first one met cyclically from the cursor |
| `Selection.LeastPingIndexIsRight` | crates/zerodpi-core/src/target_pool.rs:317-324 | least ping picks the best-ranked member of minimal known ping, or the cursor when no ping is known |
| `Selection.InTurnAfter` | crates/zerodpi-core/src/target_pool.rs:313-330 | a round-robin choice keeps the members before the cursor exactly one choice ahead of the others |
| `Selection.InTurnIsShared` | crates/zerodpi-core/src/target_pool.rs:313-330 | cursor and choice counts in turn are the remainder and the rounded shares of the number of turns |
| `Selection.SharesAreFair` | crates/zerodpi-core/src/target_pool.rs:330 | turns in rank order differ by at most one, and a better rank never has fewer |
| `Selection.LeastLoadedStaysBalanced` | crates/zerodpi-core/src/target_pool.rs:325-332 | any number of least-loaded choices keeps the loads within max(spread, 1) of each other |
| `Distinct.KeptExactly` | crates/zerodpi-core/src/target_pool.rs:108-114 | what is kept is, in order, exactly the positions whose key does not occur earlier |
| `TargetPool.UniqueTargets` | crates/zerodpi-core/src/target_pool.rs:108-114 | the first target of each key, in rank order, cut to the limit |
| `TargetPool.LeasesArePartitioned` | crates/zerodpi-core/src/target_pool.rs:223-230 | summed over any prefix of the history, the holders of each cell are exactly the leases on those cells |
| `TargetPool.TargetPool.New` | crates/zerodpi-core/src/target_pool.rs:188-207 | no pool for an empty list; otherwise a valid pool of the unique targets in rank order, without leases, with the generator at its seed |
| `TargetPool.TargetPool.Replace` | crates/zerodpi-core/src/target_pool.rs:267-308 | an empty list changes nothing; otherwise the members are the unique targets, the history only grows, old entries keep key and cells (so a returning target resumes its counters), new cells are unused, every lease stays counted, the choice counts restart at zero, the generator is left where it was, and the answer says whether the member keys changed |
| `TargetPool.TargetPool.Record` | crates/zerodpi-core/src/target_pool.rs:282-302 | looking a target up or adding it keeps the index the exact inverse of the history keys and every cell its own |
| `TargetPool.TargetPool.ChooseIndex` | crates/zerodpi-core/src/target_pool.rs:312-329 | the index means what each strategy promises, and only the random one moves the generator |
| `TargetPool.TargetPool.Acquire` | crates/zerodpi-core/src/target_pool.rs:310-338 | the lease is for the selected member and shares its cells, that load and that member's choice count rise by one and no other does, the cursor moves past it, every counter still equals its live leases, and a random choice takes the next accepted draw of the one sequence that started at the seed, whatever replacements came between |
| `TargetPool.TargetPool.Drop` | crates/zerodpi-core/src/target_pool.rs:181-185 | dropping a lease lowers its count by one and never below zero, even when its target is retired, and keeps the pool consistent |
| `TargetPool.TargetPool.UpdatePing` | crates/zerodpi-core/src/target_pool.rs:352-367 | a measurement of an older generation or of a retired target changes nothing; otherwise just that target's ping and source change, in members and history alike |
| `TargetPool.TargetPool.ProbeSnapshot` | crates/zerodpi-core/src/target_pool.rs:340-350 | the generation is the number of replacements modulo 2^64, with the member targets in rank order |
| `TargetPool.TargetPool.GenerationTellsReplacementsApart` | crates/zerodpi-core/src/target_pool.rs:306-354 | the pool accepts a measurement that a probe snapshot began if and only if the replacements since then are a multiple of 2^64 |
| `TargetPool.TargetPool.RoundRobinIsFair` | crates/zerodpi-core/src/target_pool.rs:313-330 | since the last replacement any two members were chosen equally often give or take one, in rank order, whatever drops and measurements came between |
| `TargetPool.TargetPool.MembersHaveOwnLoads` | crates/zerodpi-core/src/target_pool.rs:281-304 | no two members share a load or traffic cell |
| `TargetPool.TargetPool.LeastLoadKeepsBalance` | crates/zerodpi-core/src/target_pool.rs:325-332 | in the pool itself, a least-load choice leaves the members' loads within max(previous spread, 1) of each other |
| `TargetPool.TargetPool.SnapshotShowsEveryTargetOnce` | crates/zerodpi-core/src/target_pool.rs:234-263 | every target ever seen has exactly one row, with its own counters, ranked exactly when it is a member |
| `TargetPool.TargetPool.SnapshotIsInOrder` | crates/zerodpi-core/src/target_pool.rs:234-263 | the members come first in rank order, then the retired targets in the order in which they were first seen |
| `TargetPool.TargetPool.ActiveConnections` | crates/zerodpi-core/src/target_pool.rs:223-230 | the sum over the history is the number of live leases, including those on retired targets |
| `Flow.FlowEntry.Finish` | crates/zerodpi-core/src/flow.rs:121-130 | only the first call sets the outcome, stops monitoring and notifies |
| `Flow.FlowEntry.SignalOutcome` | crates/zerodpi-core/src/flow.rs:132-143 | only the first call sets the outcome and notifies; monitoring is untouched |
| `Flow.LocalFlowController.RegisterFlow` | crates/zerodpi-core/src/flow.rs:206-228 | a known key is refused and keeps its record; a new key gets a fresh record of its own |
| `Flow.LocalFlowController.RemoveFlow` | crates/zerodpi-core/src/flow.rs:230-232 | exactly that key leaves the table |
| `Flow.LocalFlowController.Reset` | crates/zerodpi-core/src/flow.rs:234-239 | taken as one step: every tracked flow is finished as closed, each once, and the table is empty |
| `ResetRuns.OldFlowsAreFinished` | crates/zerodpi-core/src/flow.rs:206-239 | in every interleaving of a reset with registrations, removals and finishes, a flow registered before the reset began is finished when it is dropped; clearing loses nothing if and only if every newer flow in the table is finished by then |
| `ResetRuns.LostExactlyWhenUnmet` | crates/zerodpi-core/src/flow.rs:206-239 | for every schedule, a reset loses no flow if and only if each registration made during its visits is followed, before the clearing, by a removal, a visit or a finish of that flow |
| `ResetRuns.EveryResetIsScheduled` | crates/zerodpi-core/src/flow.rs:234-239 | every run that ends with the table cleared is such a schedule, so the condition covers all resets |
| `ResetRuns.LateFlowIsDropped` | crates/zerodpi-core/src/flow.rs:234-239 | a run in which a flow registered between the visits and the clearing is dropped unfinished |
| `Handler.RepliesShareTheFlow` | crates/zerodpi-core/src/handler.rs:35-51 | an inbound packet belongs to the flow of an outbound one if and only if its key is the reversed one |
| `Handler.Handler.HandleLocked` | crates/zerodpi-core/src/handler.rs:77-361 | the field updates under the lock are those of the transition function and keep both sequence numbers known whenever the bypass has begun |
| `Handler.Handler.OnPacket` | crates/zerodpi-core/src/handler.rs:70-361 | one packet takes its own flow through the transition and the settlement after it, never panics, and changes no other flow; an unknown flow is accepted |
| `FlowAnswers.HandshakeStage` | crates/zerodpi-core/src/handler.rs:127-195 | outcome, flags, notifications and verdict after the final ACK of the handshake, for each of the four answers |
| `FlowAnswers.FirstDataStage` | crates/zerodpi-core/src/handler.rs:199-252 | the same for the first outbound data packet |
| `FlowAnswers.FragmentStage` | crates/zerodpi-core/src/handler.rs:199-252 | the same for data in fragment-all mode: the outcome and its notification stay, and only an abort stops the rewriting |
| `FlowAnswers.FakeIsAcked` | crates/zerodpi-core/src/handler.rs:313-340 | the server's acknowledgement of the fake completes the flow, or changes nothing while data is awaited |
| `FlowAnswers.DataIsAcked` | crates/zerodpi-core/src/handler.rs:342-361 | the server's acknowledgement of the first data completes the flow exactly when it advances |
| `FlowAnswers.ClosedExactly` | crates/zerodpi-core/src/handler.rs:78-361 | a flow without outcome is closed, or completed, by exactly these packets and answers and by no others |
| `FlowAnswers.UnwantedCloses` | crates/zerodpi-core/src/handler.rs:53-361 | a packet the flow does not wait for closes it when it has no outcome, and leaves it alone in fragment-all mode |
| `FlowAnswers.FakeExchange` | crates/zerodpi-core/src/handler.rs:313-340 | after a clean handshake answered by a fake, an inbound bare ACK completes the flow if it carries both numbers plus one, and closes it otherwise, for all sequence numbers |
| `FlowAnswers.FakeExchangeWithData` | crates/zerodpi-core/src/handler.rs:332-337 | while the first data is awaited the right acknowledgement changes nothing and any other closes the flow |
| `FlowRuns.PacketEffect` | crates/zerodpi-core/src/handler.rs:78-361 | what one packet can do to outcome, monitoring, handshake, rewriting and notifications, for every answer of the bypass method |
| `FlowRuns.EveryRun` | crates/zerodpi-core/src/handler.rs:70-361 | the whole-machine invariant survives every interleaving of packets, settlements, proxy calls and waiter steps |
| `FlowRuns.NeverPanics` | crates/zerodpi-core/src/handler.rs:292-352 | no unwrap or expect in the handler fails in any run |
| `FlowRuns.SuccessIsSound` | crates/zerodpi-core/src/handler.rs:84-195 | a success implies an outbound SYN, an inbound SYN-ACK and an outbound final ACK, in that order, for the sequence numbers the flow holds |
| `FlowRuns.ReadyIsSound` | crates/zerodpi-core/src/proxy.rs:498-528 | so does the go-ahead to send the first data |
| `FlowRuns.OutcomeAndMonitoring` | crates/zerodpi-core/src/flow.rs:123-143 | exactly one completion notification once there is an outcome, none before; an unmonitored flow has an outcome; a monitored flow with an outcome is in fragment-all mode |
| `FlowRuns.DecisionsLastInEveryRun` | crates/zerodpi-core/src/handler.rs:53-80 | sequence numbers and outcome never change once set, and a flow no longer monitored is frozen and has every later packet accepted |
| `FlowRuns.RewriteBudget` | crates/zerodpi-core/src/handler.rs:143-262 | per flow at most one empty packet and one data packet before fragment-all mode are rewritten, nothing inbound, and after the outcome only data in fragment-all mode |
| `FlowRuns.NoLostWakeup` | crates/zerodpi-core/src/proxy.rs:509-544 | a waiter parked while there is something to report has been notified since it subscribed |
| `FlowRuns.WaiterReportsTheOutcome` | crates/zerodpi-core/src/proxy.rs:498-544 | a parked waiter of a settled flow returns that outcome as soon as it runs, and a reported outcome stays the flow's outcome |
| `FlowRuns.ReadyWaiterReports` | crates/zerodpi-core/src/proxy.rs:509-528 | a parked initial waiter of a flow that awaits its data returns the go-ahead as soon as it runs |
| `FlowRuns.CompletionWaitsForOutcome` | crates/zerodpi-core/src/proxy.rs:531-544 | the completion waiter never returns the go-ahead: it ends with an outcome only |
| `FlowRuns.CleanHandshake` | crates/zerodpi-core/src/handler.rs:84-195 | where a clean handshake ends, for all sequence numbers and every method answer |
| `FlowRuns.Advances` | crates/zerodpi-core/src/handler.rs:353 | the wrapping test for an advancing acknowledgement holds exactly when it differs from the SYN number plus one |
| `FlowRuns.DataAckCompletes` | crates/zerodpi-core/src/handler.rs:313-361 | an advancing server ACK completes a waiting flow if and only if no fake was sent before it, and closes it otherwise |
| `FlowRuns.DataAckAfterFakeCloses` | crates/zerodpi-core/src/handler.rs:313-339 | a run in which the fake branch shadows the first-data branch and the flow is closed |
| `Checksum.FoldKeepsResidue` | crates/zerodpi-core/src/ip_fragment.rs:102-104 | folding ends, keeps the sum modulo 65535, and gives zero only for zero |
| `Checksum.Ipv4HeaderChecksum` | crates/zerodpi-core/src/ip_fragment.rs:93-106 | the two loops compute the complement of the folded word sum, and the 32-bit sum cannot overflow |
| `Checksum.ChecksumVerifies` | crates/zerodpi-core/src/ip_fragment.rs:89-92 | a header sums to zero if and only if its field holds the checksum of the header with that field zeroed (or 0xFFFF where that is zero) |
| `Checksum.ChecksumComplements` | crates/zerodpi-core/src/ip_fragment.rs:93-106 | for every list of 16-bit words in network byte order, the checksum makes their sum a multiple of 65535, and it is 65535 only for the sum zero (section 1 of RFC 1071) |
| `Checksum.OddByteIsPadded` | crates/zerodpi-core/src/ip_fragment.rs:99-101 | an odd last byte counts as if a zero byte followed it |
| `IpFragment.FragmentIpv4Packet` | crates/zerodpi-core/src/ip_fragment.rs:29-87 | a single packet is returned exactly when the header is not valid, the size is below 8, or the payload is at most the size rounded down to a multiple of 8; otherwise fragment k carries the payload from part k on, with the right length, offset, MF and checksum words and all other header bytes unchanged, and every fragment but the last carries the largest multiple of 8 bytes that fits the size |
| `IpFragment.FragmentVerifies` | crates/zerodpi-core/src/ip_fragment.rs:75-80 | the header of every emitted fragment verifies |
| `IpFragment.EveryPacketIsRead` | crates/zerodpi-core/src/ip_fragment.rs:59-69 | the flags and offset word reads in exactly one way |
| `IpFragment.ReassembleInAnyOrder` | crates/zerodpi-core/src/ip_fragment.rs:50-85 | pieces in any order and with repeats give the payload when all have arrived, and nothing while one is missing |
| `IpFragment.FragmentationIsUndone` | crates/zerodpi-core/src/ip_fragment.rs:29-87 | reassembly by offset gives back the original payload for every order of arrival, and not before the last fragment is there |
| `IpFragment.OutputIsReassembled` | crates/zerodpi-core/src/ip_fragment.rs:29-87 | the very fragments that the splitter returns, received in any order, reassemble to the payload exactly when all are there |
| `IpFragment.FragmentFits` | crates/zerodpi-core/src/ip_fragment.rs:17-24 | each fragment fits the requested size, MF is set exactly when another one follows, DF is clear, and the length field is exact |
| `IpFragment.OffsetFieldLimit` | crates/zerodpi-core/src/ip_fragment.rs:64 | the 13 offset bits hold the offset if and only if it is below 65536 |
| `IpScanner.ScanIpList` | crates/zerodpi-core/src/ip_scanner.rs:346-432 | every address is tried once and every reached one probed once afterwards; each task ends as the input says; results, ranking and events are those of the completion history; results and failed tasks make up the input; each wait has a task to wait for, keeps within both limits and the backlog bound, leaves no room unused, and has less work left than the one before |
| `IpScanner.FillP2` | crates/zerodpi-core/src/ip_scanner.rs:365-376 | the backlog moves in order until it is empty or the limit is reached |
| `IpScanner.FillP1` | crates/zerodpi-core/src/ip_scanner.rs:377-391 | the input moves in order until it is used up, the limit is reached or the backlog is full |
| `IpScanner.JoinNext` | crates/zerodpi-core/src/ip_scanner.rs:395-422 | the task the input names leaves its set with the result the input names, and the backlog, results, events and counter change as that result says |
| `IpScanner.EveryAddressIsAccountedFor` | crates/zerodpi-core/src/ip_scanner.rs:346-432 | the ranked results together with the failed tasks are the input, as a multiset |
| `IpScanner.LatenciesAreMeasured` | crates/zerodpi-core/src/ip_scanner.rs:395-422 | each address and latency is reported as often as a TCP probe of that address measured it, less the TLS probes of that job that failed |
| `IpScanner.EveryResultWasMeasured` | crates/zerodpi-core/src/ip_scanner.rs:395-422 | every result has the latency of a TCP probe of its own address and the score of the TLS probe for that job; one without latency comes from a TCP probe that did not get through |
| `IpScanner.ResultsAreCounted` | crates/zerodpi-core/src/ip_scanner.rs:395-422 | the results are, entry by entry, as many as the completions they come from |
| `IpScanner.RoundNumber` | crates/zerodpi-core/src/ip_scanner.rs:364-396 | at every wait the sizes account for all addresses and jobs so far, no room is left for a task that could start, and less work is left than before |
| `IpScanner.LostIffFailed` | crates/zerodpi-core/src/ip_scanner.rs:396-421 | an address is lost only through a failed task, so without failures the results are a permutation of the input |
| `IpScanner.CounterRunsUp` | crates/zerodpi-core/src/ip_scanner.rs:399-402 | the reported counter is 1, 2, 3, ... without gap or repeat |
| `IpScanner.AllAreTested` | crates/zerodpi-core/src/ip_scanner.rs:399-402 | without failures the counter ends at the number of addresses |
| `IpScanner.TlsResultsAreAnnounced` | crates/zerodpi-core/src/ip_scanner.rs:413-418 | exactly the results of the TLS phase are announced, in the order they came in |
| `IpScanner.SortedIsRanked` | crates/zerodpi-core/src/ip_scanner.rs:425-431 | the sort is a permutation with higher scores first and lower latency first among equals |
| `IpScanner.RankingIsByScoreThenLatency` | crates/zerodpi-core/src/ip_scanner.rs:425-431 | of two sorted entries the first has the higher score, or an equal one and no higher latency, an unknown latency counting as 2^64 - 1 |
| `IpScanner.SortIsStable` | crates/zerodpi-core/src/ip_scanner.rs:425-431 | entries that tie keep the order in which they came in |
| `ClientHelloFormat.ReadUndoesWrite` | crates/zerodpi-core/src/tls_template.rs:59-85 | reading a written ClientHello gives it back (section 4.1.2 of RFC 8446) |
| `ClientHelloFormat.WriteUndoesRead` | crates/zerodpi-core/src/tls_template.rs:59-85 | the reader accepts only bytes the writer writes, so every length ends exactly where it says |
| `TlsTemplate.DecodeHex` | crates/zerodpi-core/src/tls_template.rs:22-32 | the loop decodes pairs of digits and no digit check fails |
| `TlsTemplate.TemplateBytes` | crates/zerodpi-core/src/tls_template.rs:7-34 | the template is valid hexadecimal, 517 bytes long, with the three reused parts where the slices expect them |
| `TlsTemplate.RowsAreExtensions` | crates/zerodpi-core/src/tls_template.rs:7 | the fixed extension bytes of the template are a well-formed extension list |
| `TlsTemplate.BuildClientHello` | crates/zerodpi-core/src/tls_template.rs:40-87 | for every server name of at most 219 bytes the result is 517 bytes, an independent reader accepts all of it, and the caller's values stand at their offsets |
| `TlsTemplate.StrungIsHello` | crates/zerodpi-core/src/tls_template.rs:51-85 | the bytes strung together are the message with all its nested lengths (512, 508, 399) right |
| `TlsTemplate.EveryValueIsFound` | crates/zerodpi-core/src/tls_template.rs:59-85 | looking up the extensions gives back the server name (section 3 of RFC 6066), the key share and an all-zero padding body (section 3 of RFC 7685) |
| `TlsTemplate.TemplateRebuilds` | crates/zerodpi-core/src/tls_template.rs:120-134 | the template is itself the message for its own random, session id, name and key share |
| `ScanList.SplitIntoLines` | crates/zerodpi-core/src/scan_list.rs:23 | splitting yields lines that end at their line feed and join to the text |
| `ScanList.JoinSplitsBack` | crates/zerodpi-core/src/scan_list.rs:23-34 | joined lines split into the same lines |
| `ScanList.Deduplicate` | crates/zerodpi-core/src/scan_list.rs:20-34 | the loop copies exactly the lines to keep and counts the others |
| `ScanList.ReadScanList` | crates/zerodpi-core/src/scan_list.rs:9-53 | without deduplication the text is unchanged; with it the lines are those to keep, and the file always ends up holding the returned text |
| `ScanList.FirstOfEachKeyStays` | crates/zerodpi-core/src/scan_list.rs:23-33 | what stays is, in order and byte for byte, the first line of each key and every line without one |
| `ScanList.NoKeyIsLost` | crates/zerodpi-core/src/scan_list.rs:26-31 | the cleaned text has the same keys as the original |
| `ScanList.TrimFindsTheEntry` | crates/zerodpi-core/src/scan_list.rs:24 | trimming finds exactly the part of a line between its white space |
| `ScanList.LineHasTheKeyOfItsEntry` | crates/zerodpi-core/src/scan_list.rs:24-27 | a line has the key of its entry, whatever white space is around it, and none if the entry is empty or a comment |
| `ScanList.SecondPassChangesNothing` | crates/zerodpi-core/src/scan_list.rs:20-34 | a second pass removes nothing and returns the same text |
| `ScannerHttp.MeasureDownload` | crates/zerodpi-core/src/scanner_http.rs:15-61 | reading stops only at the cap, at the end of the stream or when a read brings nothing, and each read takes what has arrived, cut only by the buffer and the cap; so while bytes keep arriving everything up to the cap is read, and a line feed among the first 1024 bytes read gives the status of exactly the bytes before it; in general the report is the one the reads determine |
| `ScannerHttp.FeedLine` | crates/zerodpi-core/src/scanner_http.rs:31-45 | one read keeps the partial line and the report those of all reads so far |
| `ScannerHttp.SplitsAgree` | crates/zerodpi-core/src/scanner_http.rs:15-48 | all deliverable splits give the same report if and only if the line feed is absent, before byte 1024 or from byte 9215 on, or the first 1024 bytes spell no status |
| `ScannerHttp.LateLineFeedDependsOnReads` | crates/zerodpi-core/src/scanner_http.rs:34-44 | in every other case two deliverable splits differ: one reports the status of the cut line, one reports nothing |
| `ScannerHttp.LateLineFeedHappens` | crates/zerodpi-core/src/scanner_http.rs:34-44 | a stream of 1025 bytes that one split reports as 200 and another not at all |
| `ScannerHttp.CarriageReturn` | crates/zerodpi-core/src/scanner_http.rs:144-152 | a trailing carriage return hides the status unless a second space precedes it |
| `ScannerHttp.AgreesWithWholeParse` | crates/zerodpi-core/src/scanner_http.rs:144-152 | the report equals a parse of the whole stream if and only if the line does not end in a status code and a carriage return |
| `ScannerHttp.ReasonlessLineIsLost` | crates/zerodpi-core/src/scanner_http.rs:144-152 | for every code, a line that ends with it and a carriage return is reported as no status although the stream spells it |
| `ScannerHttp.StatusLineIsRead` | crates/zerodpi-core/src/scanner_http.rs:144-152 | a well-formed status line gives back its code, for all 65536 codes |
| `ScannerHttp.StatusLinesAreRead` | crates/zerodpi-core/src/scanner_http.rs:144-152 | a line has a status if and only if it starts with the protocol and writes that number between its first two spaces, or after its only one |
| `ScannerHttp.NumbersAreRead` | crates/zerodpi-core/src/scanner_http.rs:151 | exactly the numbers below 65536 are read, with or without plus sign and leading zeros, each as itself |
| `Utf8.Utf8IsWhatIsEncoded` | crates/zerodpi-core/src/scanner_http.rs:41-43 | the bytes taken for text are exactly the UTF-8 encodings of sequences of Unicode scalar values (section 3 of RFC 3629) |

## Left out

- TargetPool.TargetPool.Acquire: one atomic step; relaxed atomic reads of the loads while other threads drop leases are not interleaved inside it.
- TargetPool.TargetPool.Drop: load counters are unbounded naturals, so a wrap at 2^64 live leases is not modelled; that the count never goes below zero is proved.
- TargetPool.TargetPool.New: the seed from the system clock is a parameter.
- Traffic counters are carried and shown but never incremented; the relay loops that add to them are not modelled.
- FlowRuns.NoLostWakeup: tokio's `Notify` is modelled by its documented meaning, a count of `notify_waiters` calls captured when `notified()` is called; the runtime's scheduler is not modelled, so nothing is said about when a notified waiter runs.
- FlowRuns.EveryRun: one packet thread and one waiter at a time, both arbitrary; the proxy's timeout, reset and error paths appear as `finish` calls at any moment.
- Bypass methods appear as an arbitrary choice among the four `MethodAction` shapes; what they stage in the packet, and the `fake_data` and `low_ttl_override` fields they read, are not modelled.
- FlowRuns.DataAckCompletes: no claim that the handshake hook runs only once per flow; after a pass-through and a modified data packet it can be asked again.
- Checksum.Ipv4HeaderChecksum: inputs of 65536 bytes or more, where the 32-bit sum could overflow, are excluded; IPv4 headers have at most 60 bytes.
- IpFragment.FragmentationIsUndone: packets of 65536 bytes or more are excluded because IPv4 cannot carry them; `IpFragment.OffsetFieldLimit` says exactly what their offsets become.
- IpFragment.FragmentIpv4Packet: fragmenting a packet that is itself a fragment overwrites its offset; the meaning of that for the outer datagram is not modelled.
- IpScanner.ScanIpList: the candidate filter, sockets, timeouts, TLS and HTTP probing are reduced to task results, which are an input and arbitrary; the score of a failed TCP probe is a parameter, other scores are arbitrary.
- Score formulas and method ranking, which use floating point, are not part of this model.
- Flow.LocalFlowController.Reset: one atomic step in the class; the two phases and what runs between them are in `ResetRuns`, which takes from the concurrent map that an entry present throughout an iteration is visited, and that clearing happens at once; the map itself clears piece by piece, so a registration during the clearing may survive it or be dropped.
- ScanList.ReadScanList: reading and atomically replacing the file, and the error paths around that, are reduced to the text before and after.
- ScannerHttp.MeasureDownload: reads are an input that says how much each one finds waiting, so the end of the stream, a failure and the timeout look alike; time to first byte is reduced to whether a byte arrived, and transfer speed is left out; both depend on clocks.
- ScannerHttp.AgreesWithWholeParse: follows the current meaning of `str::lines`, which strips a carriage return only in front of a line feed.
- `measure_upload`, configuration parsing, DNS endpoint parsing, CIDR filtering, URL helpers and `scan_ttl` are not part of this model.
- `tcp_segment`, the ping loop, the proxy's listeners and relay loops, platform backends, the helper process, the TUI and the Android app are not part of this model.
