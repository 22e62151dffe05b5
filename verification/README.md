# Verified model of the file transfers, hooks, flamegraph and relay

This project models the parts of the system whose correctness depends on many steps going right
together, and proves what every run of them keeps. `dafny verify dfyconfig.toml` checks it.

| files | what is modelled |
|---|---|
| `Bytes`, `Wire`, `Chunks`, `Streams` | big-endian fields, the datagrams of both transports, the cutting of a file into chunks, the stream ids |
| `Endpoints` | sender and receiver of one transfer: as step functions, and as classes that update their fields and the file buffer in place |
| `Transfer`, `TransferSafety`, `TransferTheorems`, `TransferRecovery`, `TransferLimits` | a whole transfer as a state machine: sender task, ack-reader task, receiver task, and a network that loses, duplicates and reorders datagrams in both directions |
| `HookGuard`, `HookTheorems`, `HookTable` | the re-entrancy guard of the syscall hooks: every atomic load and compare-and-swap is one step, threads interleave freely |
| `FlameTree`, `FlameFrame`, `FlameLayout` | the call-stack tree, as a value and as a mutable linked tree, and the layout of the flamegraph |
| `Relay`, `RelayTheorems` | the registry of connected nodes and the sessions that route messages; look-up and send are two steps |
| `Segments` | several connections that write parts of one file |
| `Tunnel` | the frame stream of pushed files |
| `AnnexB` | length-prefixed video frames written out behind start codes |
| `Correlation`, `CorrelationTheorems` | the hardware diagnosis of a benchmark |
| `Options`, `Counting` | missing values, sizes of sets of numbers |

UDP and QUIC-style transfers are one protocol with two parameter sets (`Wire.Transport`): frame
codes, header, initial window, capacity of the ack queue, stream label.

## What comes out

Positive results hold for every file, every size and every interleaving; where a property has a
limit, it is proved exactly where the limit is.

- Transfers: the saved buffer is the file resized to the size the receiver was told, so it is the
  file exactly when that size is right (`SavedFile`). The acked chunks are received chunks, and those
  are sent ones, at every step (`AckedReceivedSent`).
- The timeout scan is described at cli/src/udp_transport.rs:163 as checking the outstanding packets;
  the code scans from the *number* of acks. That covers everything outstanding exactly when the acks
  form a prefix (`ScanCoversIff`). A chunk below the scan with nothing about it under way is never
  sent again (`StrandedForever`); such a state is reachable exactly in transfers of two or more chunks
  (`StrandingReachableIff`), and a transfer in its data loop can still deliver the file exactly when
  it is in no such state (`CanDeliverIff`).
- The number 99999999 stands for a FIN-ACK in the ack queue. The statement that a sender in its FIN
  phase has a receiver with every chunk holds in all runs exactly for files of at most 99999999 chunks
  (`FinMeansReceivedIff`): with one more chunk, the ack of chunk 99999999 ends the data loop early.
- Hooks: all claims succeed, and hooks nest one level deep at most, in all runs exactly when at most
  128 threads are between the start of a claim and the end of a release at any time
  (`ClaimsSucceedIff`, `NestingBoundedIff`).
- Uploads in parts leave the original exactly when a part at offset 0 announced the total size or the
  path held nothing longer before (`UploadIff`).
- The tunnel decoder recovers what was sent exactly when every frame is within the limits
  (`Tunnel.RoundTripIff`); on any stream whatever it finds the longest list of valid frames that the
  stream starts with (`DecodeLongest`).
- Video frames can be told apart in the output exactly when none contains a start code (`EndToEnd`).
- The stream ids share the chunks evenly exactly when there are at most 256 streams or a multiple of
  256 (`BalancedIff`).
- The reported correlation is in [-1, 1]; it is 1 or -1 exactly for linearly related series (`EndsIff`).

## Assumptions

- Transfers have one honest sender; every datagram in the network was sent by one of the two ends.
- Lengths of files are below 2^63, as lengths of byte vectors are.
- Atomic operations on the hook slots take effect in one order, although the source uses the Relaxed
  ordering. Thread ids are unique among live threads; id 0 is the source's own special case.
- Connection ids of relay sessions are unique.
- The parts of an upload come from one file, cover it, and announce the right total if they announce one.
- Numbers that the source keeps as f64 are reals.

## Model

| member | source | states |
|---|---|---|
| Bytes.BigEndianRoundTrip | cli/src/udp_transport.rs:118-119 | decoding an encoded number gives it modulo 256^width, so gives it back exactly when it fits |
| Bytes.BigEndianOnto | cli/src/udp_transport.rs:255-261 | every byte string is the encoding of the number it is decoded to |
| Bytes.BigEndianDigit | cli/src/udp_transport.rs:118-119 | the most significant byte comes first |
| Wire.DataRoundTrip | cli/src/quic_transport.rs:112-124 | a data datagram of any chunk number below 2^64 and at most 8192 bytes fits the receive buffer and is read back as that chunk, on both transports |
| Wire.AckRoundTrip | cli/src/quic_transport.rs:272-275 | an ack is read by the sender as the number the receiver wrote |
| Wire.StreamIdIgnored | cli/src/quic_transport.rs:251-276 | what the receiver makes of a datagram does not depend on its stream id |
| Wire.DataIff | cli/src/udp_transport.rs:253-263 | which datagrams are data, with which number and bytes: exactly those long enough for their header and their length field |
| Wire.AckIff | cli/src/udp_transport.rs:92-96 | the reader takes a datagram for the ack of a number exactly when it starts with that ack |
| Wire.HandshakeCarries | cli/src/quic_transport.rs:47-50 | the handshake request carries the file size and the number of streams modulo 256 |
| Chunks.ChunksConcatenate | cli/src/udp_transport.rs:113-115 | the chunks, one after the other, are the file, the empty file and a short last chunk included |
| Streams.LoadOf | cli/src/quic_transport.rs:117-118 | with at most 256 streams each one carries its share as if the chunks were dealt out in turn |
| Streams.BalancedIff | cli/src/quic_transport.rs:117-118 | no stream ever carries two chunks more than another exactly when the number of streams is at most 256 or a multiple of 256 |
| Endpoints.ResendsAre | cli/src/udp_transport.rs:165-187 | a datagram is sent by the timeout scan exactly when it is that of an unacked, due chunk from the number of acks up to the next new one |
| Endpoints.Sender.constructor | cli/src/udp_transport.rs:71-81 | initial window, no chunk sent, none acked |
| Endpoints.Sender.BuildPacket | cli/src/udp_transport.rs:113-120 | the datagram built from offset and end is the encoding of chunk k |
| Endpoints.Sender.FillWindow | cli/src/udp_transport.rs:112-136 | sends the next chunks in order, each once, until the window is closed or no chunk is left |
| Endpoints.Sender.ReceiveAck | cli/src/udp_transport.rs:140-155 | the sentinel stops the loop; a new ack enters the set and widens the window by one; a repeated one changes nothing |
| Endpoints.Sender.ScanTimeouts | cli/src/udp_transport.rs:162-190 | sends exactly the due unacked chunks from the number of acks on, counts each as sent and as retransmitted, and halves the window, rounding down, to no less than four |
| Endpoints.Sender.LossRatio | cli/src/udp_transport.rs:212-216 | the ratio times the packets sent is the retransmissions; 0 when nothing was sent |
| Endpoints.Receiver.constructor | cli/src/udp_transport.rs:236-238 | a zeroed buffer of the expected size and no chunk |
| Endpoints.Receiver.HandleDatagram | cli/src/udp_transport.rs:242-287 | one turn of the receive loop on any datagram: follows the step function; a chunk is acked whether stored or not, every FIN is answered with a FIN-ACK and ends the loop exactly when enough chunks arrived, anything else leaves all as it was without a reply |
| Transfer.ExecJoin | cli/src/udp_transport.rs:110-192 | runs compose |
| Transfer.FillWindowIsARun | cli/src/udp_transport.rs:112-136 | a call of the window-filling loop, as its contract describes it, is a run of single sends of the state machine |
| TransferSafety.DataPacketFrame | cli/src/udp_transport.rs:253-263 | the datagram of an existing chunk is read back as that chunk |
| TransferSafety.StoreKeepsBuffer | cli/src/udp_transport.rs:263-272 | storing a chunk keeps the buffer equal to the file on every received chunk, and zero elsewhere |
| TransferSafety.StepKeepsInv | cli/src/udp_transport.rs:110-210 | every step of any task or of the network keeps the invariant that ties both ends, the queue and the datagrams under way together |
| TransferSafety.RunKeepsInv | cli/src/udp_transport.rs:110-210 | so does every run |
| TransferTheorems.SavedFile | cli/src/udp_transport.rs:279-290 | whenever the receiver has left its loop, its buffer is the file resized to the expected size; it is the file exactly when that size is right |
| TransferTheorems.AckedReceivedSent | cli/src/udp_transport.rs:110-192 | with the right size: acked within received within sent within existing chunks, and the buffer equals the file on every received chunk, in every run |
| TransferTheorems.FinMeansReceived | cli/src/udp_transport.rs:194-210 | in the FIN phase the receiver holds every chunk that fits its buffer, so with the right size it holds all |
| TransferTheorems.FinEndsReceiver | cli/src/udp_transport.rs:279-285 | the first FIN delivered ends the receiver exactly when the chunks that fit are as many as the expected size has; with the right size it does, with the right file |
| TransferTheorems.WindowBounds | cli/src/udp_transport.rs:77-189 | acks never outnumber sent chunks, the window stays between 4 and its initial size plus the acks, at most twice the acks plus the initial window are sent, every transmission is counted once, and the loss stays below 100 % |
| TransferTheorems.SenderProgressTruthful | cli/src/udp_transport.rs:156-158 | the reported figure exceeds the acked bytes by less than a chunk and reaches the file size exactly when every chunk is acked |
| TransferTheorems.ReceiverProgressTruthful | cli/src/udp_transport.rs:267-271 | the uncapped figure reaches the file size exactly when every chunk is received, and passes it by less than a chunk |
| TransferTheorems.ProgressNeverFalls | cli/src/udp_transport.rs:156-158 | neither figure ever falls, in any run from any state |
| TransferTheorems.CountersBounded | cli/src/udp_transport.rs:45-63 | in every run fewer than five timeouts have passed in a phase that still waits, and the ack queue keeps its capacity |
| TransferTheorems.HandshakeGivesUp | cli/src/udp_transport.rs:45-68 | an unanswered handshake fails at the fifth timeout and not before |
| TransferTheorems.OnlyTimeoutsCount | cli/src/udp_transport.rs:51-63 | stray datagrams and old acks never spend an attempt, in any run |
| TransferTheorems.ReaderEnds | cli/src/udp_transport.rs:97-100 | the reader queues one FIN-ACK and stops for good |
| TransferRecovery.ScanCoversIff | cli/src/udp_transport.rs:165 | the scan range reaches every outstanding chunk exactly when the acked set is a prefix |
| TransferRecovery.ResendsAscend | cli/src/udp_transport.rs:165-187 | a scan sends each chunk at most once, in ascending order |
| TransferRecovery.StrandedForever | cli/src/udp_transport.rs:110-187 | a missing chunk below the scan with nothing under way stays so in every continuation, and the data loop's exit condition stays false |
| TransferRecovery.AckEverything | cli/src/udp_transport.rs:110-192 | when everything unacked is under way, some run gets every chunk acked |
| TransferRecovery.CanAckAllIff | cli/src/udp_transport.rs:110-192 | every chunk can still be acked exactly when none is stranded and none has the sentinel's number |
| TransferRecovery.FinAnswered | cli/src/udp_transport.rs:279-281 | a delivered FIN is answered, complete or not, by one datagram that the sender takes for the FIN-ACK |
| TransferRecovery.FinishFromAllAcked | cli/src/udp_transport.rs:194-210 | once all is acked both ends can finish without a single further timeout: by a FIN and the FIN-ACK that answers it, old acks in the queue notwithstanding |
| TransferRecovery.FinishUnanswered | cli/src/udp_transport.rs:194-218 | and also when no reply ever comes back: the sender gives up waiting and reports success |
| TransferRecovery.CanDeliverIff | cli/src/udp_transport.rs:110-290 | a transfer in its data loop can still finish with the right file exactly when no chunk is stranded |
| TransferLimits.LossyRun | cli/src/udp_transport.rs:110-192 | a run that loses chunk 0 and gets any number of later chunks acked, up to the sentinel |
| TransferLimits.StrandingReachableIff | cli/src/quic_transport.rs:110-188 | a stranded chunk is reachable exactly in transfers of two or more chunks |
| TransferLimits.FinMeansReceivedIff | cli/src/udp_transport.rs:98-143 | "FIN phase means everything received" holds in all runs exactly for at most 99999999 chunks |
| HookGuard.StepKeepsInv | cli/src/syscall_profiler.rs:188-219 | every step keeps the table and the activations in agreement, and at each slot index no more threads ahead than slots |
| HookTheorems.GuardHolds | cli/src/syscall_profiler.rs:188-254 | with at most 128 busy threads: no claim fails, no id is in two slots, at most one nested level, and a thread is in the table from its claim to its release |
| HookTheorems.TestAnswers | cli/src/syscall_profiler.rs:188-199 | in every interleaving a thread's own scan goes on or answers "no" from outside, and goes on or answers "yes" from inside a hook |
| HookTheorems.StepRefinesSet | cli/src/syscall_profiler.rs:202-219 | the slots refine a plain set of ids: each step inserts the thread's own absent id, removes its own id, or changes nothing |
| HookTheorems.OthersUntouched | cli/src/syscall_profiler.rs:202-219 | in any state at all, a thread's step changes no other thread's membership |
| HookTheorems.ClaimsSucceedIff | cli/src/syscall_profiler.rs:179-214 | every claim succeeds in all runs of at most m busy threads exactly when m is at most 128 |
| HookTheorems.NestingBoundedIff | cli/src/syscall_profiler.rs:225-254 | hooks nest at most one level in all runs of at most m busy threads exactly when m is at most 128 |
| HookTable.ReleaseUndoesClaim | cli/src/syscall_profiler.rs:207-218 | a release restores the table from before the claim, whether or not the claim found a slot |
| HookTable.UndisturbedClaim | cli/src/syscall_profiler.rs:207-213 | the step-by-step claim, if nobody interferes, does what the loop of the method does |
| HookTable.ReleaseFrees | cli/src/syscall_profiler.rs:215-218 | a release takes the id out of the table, wherever it is, and leaves every other slot |
| HookTable.UndisturbedRelease | cli/src/syscall_profiler.rs:215-218 | the step-by-step release ends the activation with the id out of the table and every other slot as it was |
| HookTable.UndisturbedNested | cli/src/syscall_profiler.rs:227-234 | a hook called from a running hook passes to the original and returns, and touches no slot |
| HookTable.UndisturbedHook | cli/src/syscall_profiler.rs:225-254 | a hook from outside comes back to an empty stack and the table of before, even when it found no free slot |
| HookTable.HookSlots.IsInHook | cli/src/syscall_profiler.rs:188-199 | true exactly for a nonzero id in the table |
| HookTable.HookSlots.SetInHook | cli/src/syscall_profiler.rs:202-219 | the first free slot takes the id; a release frees every slot with the id, wherever it is, and no other; id 0 changes nothing |
| HookTable.HookSlots.RunHook | cli/src/syscall_profiler.rs:306-339 | every exit path of a hook leaves the table as it was; the original is called exactly when it is known, or the hook is outermost and can resolve it |
| FlameTree.TreeIndexes | agents/android/src/file_server.rs:1654-1661 | a frame exists at a path exactly when some stack begins with it, is named after it, and carries the sum of the counts of those stacks |
| FlameTree.OrderIrrelevant | agents/android/src/file_server.rs:1756-1760 | the same stacks in any order build the same tree |
| FlameTree.SameTree | agents/android/src/file_server.rs:1639-1643 | trees with equal names and samples at every path are equal |
| FlameTree.GetMaxDepth | agents/android/src/file_server.rs:1766-1775 | one more than the length of the longest path in the tree |
| FlameTree.DepthOfTree | agents/android/src/file_server.rs:1766-1777 | the depth is one more than the longest stack |
| FlameFrames.FlameFrame.constructor | agents/android/src/file_server.rs:1646-1652 | a frame of that name without samples or children |
| FlameFrames.FlameFrame.Insert | agents/android/src/file_server.rs:1654-1661 | inserting in place, through the owned children, gives the tree that inserting into the value gives |
| FlameFrames.SplitIff | agents/android/src/file_server.rs:1758 | a list is the split of a collapsed stack exactly when it is nonempty, no part contains the separator, and joining it gives the stack |
| FlameFrames.BuildTree | agents/android/src/file_server.rs:1756-1760 | the loop over the table builds the tree of its stacks: every key split at the separators, with its own count |
| FlameFrames.WalkOrderIrrelevant | agents/android/src/file_server.rs:1756-1760 | the tree does not depend on the order in which the hash map is walked |
| FlameLayout.TreeConsistent | agents/android/src/file_server.rs:1654-1661 | in every tree that insertion builds, children together have no more samples than their parent |
| FlameLayout.BeforeIs | agents/android/src/file_server.rs:1744 | siblings are ordered alphabetically: after a common start the end of a name, or the smaller letter, comes first |
| FlameLayout.RenderNode | agents/android/src/file_server.rs:1688-1750 | exactly the frames at least half a unit wide are drawn, each as wide as its samples, inside its parent, apart from all others of its level, and right of its parent's edge by exactly the width of the siblings that come before it by name, drawn or not |
| FlameLayout.RenderTree | agents/android/src/file_server.rs:1756-1795 | the same for the tree of any stacks; nothing is drawn without samples |
| FlameLayout.PictureHoldsAll | agents/android/src/file_server.rs:1777-1795 | the height computed from the depth keeps every frame of the tree below the heading and inside the picture; the deepest frame stands at 60, whatever the depth |
| Relay.Registry.UpsertFromHeartbeat | relay/src/registry.rs:44-69 | every field of the node's new entry, whatever was there; all other entries stay |
| Relay.Registry.UpdateHeartbeat | relay/src/registry.rs:72-79 | only version and time of a known node change; no registration and no channel does |
| Relay.Registry.Remove | relay/src/registry.rs:82-89 | the entry goes only if the leaving connection is the registered one; all other entries stay |
| Relay.Registry.GetTx | relay/src/registry.rs:136-138 | the channel of the registered connection, or none |
| RelayTheorems.StepKeepsInv | relay/src/handler.rs:46-68 | every step of any session keeps registry, log, queues and resolutions in agreement |
| RelayTheorems.RegistryExact | relay/src/handler.rs:46-68 | in every interleaving a node is mapped to a connection exactly when that one identified as it most recently and is not cleaned up |
| RelayTheorems.LateCleanupHarmless | relay/src/registry.rs:82-89 | the cleanup of an older session leaves a newer session's entry as it is |
| RelayTheorems.ForwardedRight | relay/src/handler.rs:157-188 | a forwarded message is unchanged and on the queue of the connection that was registered for its target when it was looked up |
| RelayTheorems.ForwardedAlways | relay/src/handler.rs:157-188 | a message of any of the four forwarded kinds whose look-up found a connection is on that queue once it is dealt with, unless the connection has closed |
| RelayTheorems.AnsweredAlways | relay/src/handler.rs:127-155 | heartbeats, queries and undecodable texts are answered on the sender's queue |
| RelayTheorems.NothingElseQueued | relay/src/handler.rs:135-191 | every queue entry is a forwarded message, or a reply or offline error to its own sender |
| RelayTheorems.HeartbeatRefreshes | relay/src/handler.rs:136-139 | a heartbeat sets version and time of the node it names, and nothing else in the registry |
| RelayTheorems.QueuedOnce | relay/src/handler.rs:157-188 | no message is queued twice, on one queue or on two |
| RelayTheorems.QueueKeepsOrder | relay/src/handler.rs:60-63 | messages of one session stand in every queue in the order it sent them |
| RelayTheorems.OfflineError | relay/src/handler.rs:157-180 | the sender gets the offline error exactly for a pair request or targeted task request whose look-up found no connection |
| RelayTheorems.OfflineErrorToSender | relay/src/handler.rs:201-203 | an error is queued only for the session whose message caused it |
| Segments.WritesJoin | cli/src/dashboard.rs:1478-1484 | consecutive writes are one write of the joined bytes |
| Segments.CopyBody | cli/src/dashboard.rs:1473-1484 | the copy loop writes exactly the bytes that arrive, from the cursor on, however the reads cut them |
| Segments.HandleReceiveFile | cli/src/dashboard.rs:1426-1484 | an empty announcement changes nothing; otherwise the length is set where that applies and the body stands at its offset |
| Segments.RunKeepsInv | cli/src/dashboard.rs:1458-1484 | whatever the interleaving, every byte a connection has written stays the original's byte |
| Segments.UploadIff | cli/src/dashboard.rs:1431-1484 | when all parts are complete the file is the original exactly when a part at 0 announced the total or nothing longer was there before |
| Tunnel.Downloads.HandleReceiveFrame | cli/src/tunnel.rs:102-183 | the directory after a connection is what decoding its bytes says, for any bytes |
| Tunnel.Downloads.CopyData | cli/src/tunnel.rs:153-168 | the loop ends having written exactly the announced bytes, or the full buffers that arrived |
| Tunnel.DecodeSound | cli/src/tunnel.rs:106-136 | complete files are frames within the limits that the stream really starts with |
| Tunnel.DecodeLongest | cli/src/tunnel.rs:106-168 | a list of valid frames is received, perhaps with more behind it, exactly when the stream starts with its encoding |
| Tunnel.RoundTripIff | cli/src/tunnel.rs:214-222 | what is encoded is decoded, with nothing left over, exactly when all frames are within the limits |
| Tunnel.TruncatedAnywhere | cli/src/tunnel.rs:106-168 | a stream cut inside a frame yields exactly the frames before it, and of that one the full buffers that arrived |
| Tunnel.DirectoryAfterCut | cli/src/tunnel.rs:144-168 | the directory after a stream that breaks off: the cut file holds its full buffers, all other names what the frames before left |
| Tunnel.NameTooLong | cli/src/tunnel.rs:113-116 | a name length over the limit touches no file |
| Tunnel.SizeTooLarge | cli/src/tunnel.rs:133-136 | a size over the limit touches no file |
| Tunnel.LastOfItsName | cli/src/tunnel.rs:144-151 | under a name sent several times the last data stand |
| Tunnel.OthersKept | cli/src/tunnel.rs:144-151 | files under other names are not touched |
| AnnexB.ReceiveVideoStream | cli/src/p2p.rs:94-135 | the output is the start-code form of the frames read, with their count, and an error exactly when the stream breaks off inside a frame; bytes of older frames in the reused buffer never leak |
| AnnexB.ReadFrames | cli/src/p2p.rs:97-117 | length-prefixed frames are read as sent, whatever follows |
| AnnexB.NoStraddling | cli/src/p2p.rs:120-121 | no start code straddles the end of a frame, even after zeros |
| AnnexB.SplitIff | cli/src/p2p.rs:120-121 | the output splits back into the frames exactly when none contains a start code |
| AnnexB.EndToEnd | cli/src/p2p.rs:97-133 | sender, converter and splitter together give the frames back exactly under that condition |
| AnnexB.CutAnywhere | cli/src/p2p.rs:97-117 | a stream cut anywhere inside a frame yields the frames before it; it is an error exactly when the length prefix had arrived |
| Correlation.Diagnose | cli/src/observability.rs:2087-2174 | the report for any samples: correlation, peaks, link and conclusion with their thresholds; no correlation for fewer than two samples |
| Correlation.Collect | cli/src/observability.rs:2102-2123 | the number of throttled samples, peaks that are readings (or 0) and no less than any other, and both series; a missing field counts as 0 |
| Correlation.Comoments | cli/src/observability.rs:2130-2140 | the three sums of the second loop are the products of the deviations |
| Correlation.CauchySchwarz | cli/src/observability.rs:2130-2140 | the squared numerator never exceeds the product of the denominators |
| CorrelationTheorems.MeanIsBest | cli/src/observability.rs:2127-2128 | the mean is the one number around which the squared deviations are smallest |
| CorrelationTheorems.SumJoin | cli/src/observability.rs:2127-2128 | the sum of two series put together is the sum of their sums |
| CorrelationTheorems.ConstantIff | cli/src/observability.rs:2142 | a denominator is 0 exactly for a constant series |
| CorrelationTheorems.PearsonBounds | cli/src/observability.rs:2142-2146 | the correlation lies in [-1, 1] and is exactly 0 when either series is constant |
| CorrelationTheorems.EndsIff | cli/src/observability.rs:2142-2146 | it is 1, or -1, exactly when one series is an increasing, or decreasing, linear function of the other, not constant |
| CorrelationTheorems.UnitsIrrelevant | cli/src/observability.rs:2127-2146 | it does not depend on the unit or the origin of either series |
| CorrelationTheorems.SampleOrderIrrelevant | cli/src/observability.rs:2102-2146 | reordering the samples changes nothing: only which pairs of readings occur, and how often, matters |

## Left out

- Round-trip estimates, pacing and clocks: which chunks are due in a timeout scan is arbitrary.
- Socket errors; the ack queue's blocking send is a reader that waits until there is room.
- A whole timeout scan is one step of the sender; the network does not act in the middle of it.
- Offsets of chunk numbers near 2^51 and above overflow in the receiver; an honest sender has no such chunk.
- `receive_file_udp` differs from `receive_file_udp_with_socket` only in remembering an address it does not use; both are one model.
- Weak memory: the Relaxed ordering of the hook slots.
- Originals that a hook passes through to are taken to call no hook; counters of `record_syscall`.
- SVG text, colours and labels; sample counts that overflow 64 bits; `parse_symbol_from_line` and `parse_simpleperf_report_sample`.
- The buffering loop of the Android `receive_file`.
- Contents of device lists and search results; JSON envelopes, which fail to decode or not as a choice of the sender.
- Failures of `set_len`, `seek`, directory creation and file creation; what the runtime still has buffered when a connection breaks off.
- Header parsing and progress reports of uploads; `Segments.UploadIff` is about uploads whose connections all complete.
- File names that are not UTF-8 or contain path separators; desktop notifications.
- The map of open tunnels, whose entries are removed by address alone.
- Start codes of three bytes, and a player that strips zeros at the end of a frame.
- The unflushed part of the video output when a stream breaks off inside a frame.
- Floating-point rounding, and the texts of the findings.
- The mode and transport switchers, pairing, bounded histories, clipboard and terminal clients: only easy members.
