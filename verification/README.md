# redoxide in Dafny

redoxide is a Minecraft proxy that starts the server container when somebody logs in and stops
it when everybody has left. This project models its two delicate parts and proves what they
are for.

**The container lifecycle** (`SharedState.dfy`, `Lifecycle.dfy` and the files after it).
`SharedStates.SharedState` is the shared state as a class whose methods update it in place.
`Lifecycle` is a transition system with any number of logins, idle tasks, arming tasks and start
calls, and the sync loop. A step is one access to shared data, so a run is any interleaving of the
accesses of the runtime's threads. The watch channel is modelled with its version and the version each
receiver has seen. `Blocks` proves that a thread's own steps, taken one after the other, do what the
class's methods do, and that they are an uninterrupted run when they begin while no other thread is
between two await points.

"Every interleaving" below means every interleaving of these steps. What the steps assume:

* a section under the `idle_timer` lock is one step, and taking that lock (src/state.rs lines 98 and 170)
  never suspends; the sections themselves do not await;
* the return of a Docker call and the publication that follows it are one step;
* an abort takes effect at once, unless the task has just read a count of 0. A task that another thread is
  polling out of its sleep or its stop at the very moment of the abort would still read the count or
  publish; those runs are not covered;
* start-up adoption is part of the initial state, because nothing else exists at that point.

What holds depends on how finely the threads interleave, and the theorems say so:

* for every interleaving: each state has its publishers and no others, a login is turned away only because
  it has read Stopped and let through only because Running was published, exact player count, one live idle
  task, no more starts than the state and the publications of Stopped pay for, exactly one start for all
  logins that meet on a stopped server (the first boot or any later one), no lost wake-up, no orphaned
  server unless a stop failed;
* if no login is counted between the idle task's reading of the count and its announcement
  (`NoLateCount`, true of every run whose code is not interrupted between await points): no
  session past the gate while a stop is announced;
* for uninterrupted runs: a stop is in flight exactly while Stopping is published, unless an arming
  task runs late, a pending start fails late, or the stop panics, as it does on an RCON reply that
  announces fewer than 10 bytes (src/docker.rs lines 61 and 140-142). `Witnesses` has a run for each
  condition.

`GateRelease` says when the gate opens again. A login that holds `start_mutex` while Stopping is published
can get out if and only if somebody is left who can publish another state; without late counts that is a
stop in flight, a pending start call, or a sync loop that has just found the container down. Otherwise it
and all later logins are blocked for ever. A late arming or a panicked stop alone does not block anybody:
until a login waits in the gate, an idle task that is armed and finds nobody connected stops the server
after all. `LateArmMayBlockEveryLogin` shows both ways on.

`LoginProgress` gives the other direction: a login whose way is free gets to the backend by its own steps
alone, issuing one start if the server was stopped.

**The wire** (`Bytes.dfy` to `Forwarding.dfy`). VarInt, packets, strings, handshake, status, RCON, the
keepalive wait and the hand-over to the backend. The functions give the meaning in arithmetic and
sequences; the methods are the program's loops over readers and buffers, proved equal to them. A Rust
string is the sequence of its UTF-8 bytes. Which branch of a `select!` comes next, and when a timer runs
out, is an input. `WaitOutcome.dfy` tells how the wait ends and what it consumes from the script and the
client's packets alone. How far a packet read inside `select!` has got when another branch drops it is an
input too: what it has taken by then is lost.

Where the code and its documentation differ, the model follows the code:

* README.md line 42 promises that handshake and login start are forwarded byte for byte. The code
  forwards a re-encoded frame; `ByteForByte` gives the exact condition under which they are equal, and
  `PaddedHandshakeIsRewritten` the logins that are accepted and changed.
* The comment at src/proxy.rs line 307 says that the client stream is forwarded cleanly after the wait. It is,
  if and only if no read was dropped in the middle of a packet: `AlignedExactlyIfUntorn`, and
  `TornPacketReachesBackend` for the logins whose backend gets half a packet.
* The comment at src/state.rs line 165 says that a failed stop leaves the state as it is. The code publishes
  Running, and does not re-arm the timer.

## Model

| member | source | states |
|---|---|---|
| SharedStates.TakeTimerSilences | src/state.rs:98-100 | taking the timer leaves no task that can still act, and no task changes phase |
| SharedStates.ScheduleArmsExactlyOne | src/state.rs:167-207 | after re-arming, the new sleeping task is the only live one and is the one in the slot |
| SharedStates.SharedState.constructor | src/state.rs:36-57 | a new state is Stopped, with no player, no timer and no task |
| SharedStates.SharedState.SetState | src/state.rs:63-65 | every publication replaces the value and raises the version, even with the same value |
| SharedStates.SharedState.RemovePlayer | src/state.rs:77-84 | the reported count is the stored one; one less than before unless it was 0 |
| SharedStates.SharedState.CancelIdleShutdown | src/state.rs:90-101 | while Stopping no task is touched, otherwise no live task is left |
| SharedStates.SharedState.BeginSession | src/state.rs:138-143 | counts one more and changes nothing else |
| SharedStates.SharedState.DropSession | src/state.rs:214-225 | counts one less, and arms exactly when the count is then 0 |
| SharedStates.SharedState.AdoptRunning | src/state.rs:149-161 | only from Stopped; publishes Running, and arms the timer exactly when nobody is connected |
| SharedStates.SharedState.ScheduleIdleShutdown | src/state.rs:167-207 | aborts the previous task and leaves one live task, the new one |
| SharedStates.SharedState.IdleTaskWakes | src/state.rs:179-190 | stops if and only if the count is 0, and then has published Stopping |
| SharedStates.SharedState.IdleTaskStopped | src/state.rs:192-203 | Stopped after success, Running after failure, and no live task afterwards |
| SharedStates.SharedState.PassGate | src/proxy.rs:139-153 | starts if and only if Stopped, waits if and only if the state is then Starting |
| SharedStates.SharedState.SyncRound | src/main.rs:54-83 | Stopped and Running follow the container, Starting and Stopping are left alone |
| Lifecycle.OwnRunIsUninterrupted | src/proxy.rs:114-118 | a run of one thread alone is uninterrupted when it begins while no other thread is between two await points |
| Blocks.BeginBlock | src/proxy.rs:114-118 | own steps of the login, uninterrupted if nobody is in a block when they begin, do up to the mutex what the methods cancel_idle_shutdown and begin_session do |
| Blocks.GateBlock | src/proxy.rs:139-153 | own steps of the login, uninterrupted likewise, do through the gate what PassGate does, with one start call if it was Stopped |
| Blocks.IdleTaskBlock | src/state.rs:179-192 | own steps of the task, uninterrupted likewise, do what IdleTaskWakes does |
| Blocks.SyncBlock | src/main.rs:54-83 | own steps of the sync loop, uninterrupted likewise, do what SyncRound does |
| Blocks.StopReturnBlock | src/state.rs:192-203 | the task's own step does what IdleTaskStopped does |
| Blocks.DropBlock | src/state.rs:214-225 | own steps of the login, uninterrupted likewise, do what DropSession does, with one arming task if the count is then 0 |
| Blocks.ArmBlock | src/state.rs:167-207 | the arming task's step does what ScheduleIdleShutdown does |
| Accounting.StepAccounted | src/state.rs:71-225 | every step of any interleaving keeps the accounting invariant |
| Accounting.PlayerCountIsExact | src/state.rs:128-143 | in every reachable state the count is the number of live guards, a live task is the one in the slot, and start_mutex has one holder |
| Accounting.OneDropSeesEachFallToZero | src/state.rs:77-84 | the saturation never fires; a fall to 0 is one drop, which then spawns one arming task |
| Wakeup.VersionMarksEveryChange | src/state.rs:63-69 | the value changes only together with the version |
| Wakeup.StepWakeable | src/proxy.rs:130-136 | every publication, subscription, snapshot and notification keeps waiters wakeable |
| Wakeup.NoLostWakeup | src/proxy.rs:216-231 | a waiter whose event has been published can run: Stopped in the select loop, the end of Stopping in the gate loop |
| Wakeup.FailureReachesWaiter | src/proxy.rs:218-231 | a failed start makes a login anywhere in the wait give up: by its own next steps, two at most, or after the probe it awaits has failed |
| Wakeup.SuccessReachesWaiter | src/proxy.rs:264-271 | a waiter on a running server goes through the draining loop into forwarding by its own next three steps if it has not seen the current version, and otherwise cannot move by itself |
| Wakeup.RunningSnapshotIsNotSeen | src/proxy.rs:224-231 | a login whose snapshot already is Running stays in the select loop, in every continuation, until it probes, ends, or somebody publishes |
| LoginProgress.OnlyThesePublish | src/state.rs:63-65 | Stopping, Starting, Running and Stopped are published exactly by the steps named, and by no others |
| LoginProgress.StartFailureReachesWaiters | src/proxy.rs:141-147 | a start that fails publishes Stopped, and every login in the wait then gives up; one that succeeds publishes nothing |
| LoginProgress.WakesToStopExactly | src/state.rs:179-190 | an idle task that finds nobody is about to stop; one that finds players is over for good |
| LoginProgress.TurnedAwayOnlyOnStopped | src/proxy.rs:224-282 | a login is turned away only by its own reading of Stopped |
| LoginProgress.LetThroughOnlyOnRunning | src/proxy.rs:151-155 | a login comes to the draining loop only with Running published, and to forwarding only from there or having read Running |
| LoginProgress.LetThroughAfterRunning | src/proxy.rs:151-155 | in every run, a login that is let through was past the gate at a moment when Running was published |
| LoginProgress.EveryLoginGetsThrough | src/proxy.rs:114-155 | from every state in which its way is free, a login gets to the backend by its own steps and its probe, with exactly one start if the server was stopped |
| LoginProgress.SleepsAgain | src/proxy.rs:130-137 | a login woken for nothing sleeps until the next publication |
| LoginProgress.EverySessionCanEnd | src/state.rs:214-225 | a session can end wherever it awaits something past the gate, and is then counted no more |
| SingleBoot.PotentialNeverRises | src/proxy.rs:122-149 | no step of any thread raises starts issued plus starts permitted minus publications of Stopped |
| SingleBoot.StartsArePaidFor | src/proxy.rs:120-149 | in any stretch of any run, start calls are at most those the state at its beginning permits (one, with start_mutex free) plus one per Stopped published in it |
| SingleBoot.StartsAreBounded | src/proxy.rs:120-149 | from the beginning on, start calls are at most one more than publications of Stopped |
| SingleBoot.OneStartUntilStopped | src/proxy.rs:120-149 | from any reachable state with start_mutex free, at most one start until Stopped is published |
| SingleBoot.StepOneBoot | src/proxy.rs:122-149 | each step keeps: still at rest with n starts issued, or exactly n + 1 |
| SingleBoot.LoginsShareOneStart | src/proxy.rs:120-149 | from any reachable state in which the server is stopped and at rest, any number of logins, those that waited out a stop included, cause exactly one more start while nobody publishes Stopped or starts it from outside |
| SingleBoot.RestAfterStop | src/state.rs:192-193 | a successful idle stop with logins waiting in the gate leaves such a state |
| Orphans.StepCovered | src/state.rs:128-161 | every step keeps a running server without players covered |
| Orphans.NoOrphanedServer | src/state.rs:128-161 | nobody connected and Starting or Running: an arming task is to come, or the slot's task has still to act, or its stop failed, or a login is about to be counted |
| Orphans.NoOrphanAtAwaitPoints | src/state.rs:128-161 | with every thread at an await point: an arming task is pending, or the slot's task sleeps, or its stop failed |
| Orphans.NoOrphanUnlessStopFails | src/state.rs:128-161 | over every run in which no stop fails: an arming task is pending, or the slot's task sleeps un-aborted |
| Orphans.LeftAloneExactlyAfterFailedStop | src/state.rs:194-202 | an unattended running server has nothing scheduled if and only if no arming task is pending and the slot's task is one whose stop failed |
| GateSafety.StepGateSafe | src/proxy.rs:122-149 | at any granularity a step keeps both "no session past the gate while Stopping" and "the count is 0 between the idle task's reading and its announcement" if and only if it does not count a login late |
| GateSafety.NoSessionDuringStop | src/proxy.rs:280-284 | no session past the gate coexists with Stopping; a woken login that goes on waiting has read Starting, so the Stopping arm of the select loop is never taken |
| GateSafety.NoSessionDuringStopUninterrupted | src/proxy.rs:280-284 | the same over every run that is not interrupted between await points |
| GateSafety.GateOpensOnLiveServer | src/proxy.rs:139-149 | a login leaves the gate on Starting or Running, or leaves Starting behind |
| GateSafety.UninterruptedCountsInTime | src/state.rs:181-190 | code not interrupted between await points never counts a login late |
| StopSafety.FaithfulUnlessBroken | src/state.rs:90-203 | at any granularity, exactly the steps of `Breaks` end "stop in flight if and only if Stopping" |
| StopSafety.UninterruptedBreaks | src/state.rs:90-203 | without interruptions those are a late arming task, a late start failure and a stop that panics, and no others |
| StopSafety.OnlyLateArmStartFailureOrPanicBreaks | src/state.rs:90-203 | the same over every uninterrupted run from the start |
| StopSafety.StoppingMeansStopInFlight | src/state.rs:186-203 | over every run with the three side conditions, a stop is in flight exactly while Stopping is published |
| StopSafety.LoginNeverAbortsStop | src/state.rs:90-97 | no step of a login ends a stop in flight |
| StopSafety.StopReturnReleasesGate | src/proxy.rs:125-137 | a blocked login waits for a stop really in flight, and gets out of the loop however it returns |
| GateRelease.GateOpensExactlyWhenResolvable | src/proxy.rs:125-137 | in every reachable state of any interleaving, a login held in the gate while Stopping can get out if and only if a start call is pending, the sync loop is about to publish Stopped, an un-aborted idle task has decided on its stop or awaits it, or a login past the gate may still probe |
| GateRelease.GateOpensExactlyOnStopOrStart | src/proxy.rs:125-137 | after a run without late counts: if and only if a stop is in flight, a start call is pending, or the sync loop is about to publish Stopped |
| GateRelease.GateOpensExactly | src/proxy.rs:125-137 | the same from any state with the accounting and wake-up invariants |
| GateRelease.StuckForever | src/proxy.rs:125-137 | otherwise, in every continuation, no login that was not past the gate gets past it, whoever arrives, arms or wakes |
| Witnesses.LateArmMayBlockEveryLogin | src/state.rs:167-173 | an uninterrupted run with no start pending, in which a late arming task aborts the stop and Stopping stays; from there one run is stuck for ever, and another, with nobody connected, stops the server |
| Witnesses.PendingStartLetsLoginAbortStop | src/proxy.rs:141-147 | an uninterrupted run without a late arming task, in which a start failure lets the next login abort a stop |
| Witnesses.LateCountForwardsIntoStop | src/state.rs:181-190 | a run in which a login counted late is forwarded while Stopping |
| Witnesses.LateCancelAbortsStop | src/state.rs:91-99 | a run in which a login that read the state too early aborts a stop |
| Witnesses.PanickedStopBlocksEveryLogin | src/state.rs:186-192 | an uninterrupted run with neither a late arming nor a pending start, in which the stop panics, Stopping stays, and the next login is stuck for ever in the gate |
| Witnesses.FailedStopLeavesServerRunning | src/state.rs:194-202 | a run that ends with the server up, nobody there and no task left to stop it |
| Witnesses.LeftRunningWaits | src/state.rs:194-202 | from there only a connection or the sync loop can move, and a container that runs changes nothing |
| Streams.Reader.ReadU8 | src/protocol/varint.rs:10 | takes exactly the next byte, or reports the end |
| Streams.Reader.ReadExact | src/protocol/packet.rs:27-28 | fills the whole buffer with exactly the next bytes, or fails and leaves the end of the input |
| Varints.AcceptsUpToFiveBytes | src/protocol/varint.rs:5-20 | accepted are exactly 0 to 4 continuation bytes and a terminating one; the value is the i32 congruent to the base-128 number modulo 2^32 |
| Bytes.CastIsTheCongruentValue | src/protocol/varint.rs:6-12 | the casts between i32 and u32 give the one value in range that is congruent modulo 2^32 |
| Varints.VarintByDigits | src/protocol/varint.rs:5-20 | the value of one to five bytes as a sum of their digits, 128 meaning that more follow |
| Varints.EncodedSpells | src/protocol/varint.rs:40-60 | what is encoded is v, or v + 2^32 if negative, all bytes but the last being at least 128 |
| Varints.RejectsTooLong | src/protocol/varint.rs:17-18 | too long exactly for five continuation bytes, end of input exactly for fewer with nothing behind |
| Varints.RoundTrip | src/protocol/varint.rs:40-60 | decoding undoes encoding for every i32 and every suffix |
| Varints.PartOfEncoding | src/protocol/varint.rs:5-20 | a proper part of an encoding asks for more input |
| Varints.EncoderIsShortest | src/protocol/varint.rs:40-60 | no accepted encoding is shorter; of the same length up to four bytes there is no other |
| Varints.FifthByteIsCut | src/protocol/varint.rs:11 | which five-byte strings decode to a value: bits 4 to 6 of the last byte do not matter |
| Varints.OrIsSum | src/protocol/varint.rs:11 | or-ing in a number shifted past the other's bits is adding it, for all numbers and shifts |
| Varints.OrAddsGroup | src/protocol/varint.rs:11 | for the first four bytes the loop's or-and-shift adds the group, and nothing leaves 32 bits |
| Varints.OrAddsLastGroup | src/protocol/varint.rs:11 | for the fifth it adds the group modulo 2^32: only the low four bits stay |
| Varints.ReadVarint | src/protocol/varint.rs:5-20 | the asynchronous loop computes the decoded value or error and consumes exactly the encoding |
| Varints.ReadVarintSync | src/protocol/varint.rs:22-38 | the synchronous loop agrees with it on every input |
| Varints.EncodeVarint | src/protocol/varint.rs:40-60 | the loop produces the base-128 form of the two's-complement value |
| Packets.PacketRoundTrip | src/protocol/packet.rs:17-51 | reading an encoded packet that fits gives id, data and frame back, whatever follows |
| Packets.PacketRoundTripExactly | src/protocol/packet.rs:22-26 | it gives the packet back if and only if id and data have at most 2097151 bytes; longer ones below 2^31 are reported as oversized |
| Packets.FrameByParts | src/protocol/packet.rs:17-40 | exactly when a frame reads, with which id, data and number of bytes, and which error the length gives |
| Packets.WireLayout | src/protocol/packet.rs:42-51 | on the wire: the number of bytes that follow, the id, the data to the end |
| Packets.ReadPacketsFit | src/protocol/packet.rs:22-26 | every packet that can be read would fit when encoded |
| Packets.FrameIsCanonical | src/protocol/packet.rs:30-33 | the returned frame reads as the same packet and as itself, is never longer than what was consumed, and is what was consumed exactly for a minimal length prefix |
| Packets.PaddedPacketIsRewritten | src/protocol/packet.rs:17-33 | every packet below 128 bytes is also read with a padded length, and its frame is one byte shorter than what was sent |
| Packets.ReadFrameIgnoresSuffix | src/protocol/packet.rs:17-40 | reading depends on the bytes of the frame alone |
| Packets.StreamRoundTrip | src/protocol/packet.rs:17-51 | a stream of encoded packets reads back as exactly those packets |
| Packets.CutPacket | src/protocol/packet.rs:27-28 | a packet cut anywhere is an end of input, never another packet |
| Packets.TornIsPartOfPacket | src/protocol/packet.rs:17-28 | a dropped read takes less than a packet from the stream, and may take any part of one |
| Packets.TornIsUnfinished | src/protocol/packet.rs:17-28 | on what a dropped read had taken it had not come to an end, for every stream |
| Packets.CutStream | src/protocol/packet.rs:17-51 | a stream cut anywhere reads as the packets before the cut and then an end of input |
| Packets.WholePacketsAreWhole | src/protocol/packet.rs:42-51 | those are as many as lie wholly before the cut |
| Packets.ReadPacket | src/protocol/packet.rs:17-40 | returns the packet and its canonical frame, or the error, and consumes exactly the frame |
| Packets.EncodePacket | src/protocol/packet.rs:42-51 | length (cut to 32 bits), id and data in wire form |
| Utf8.GrammarOfText | src/protocol/packet.rs:70 | the accepted strings are those of the grammar in section 4 of RFC 3629 |
| Utf8.WellFormedIsEncoded | src/protocol/packet.rs:70 | accepted are exactly the encodings, by the table in section 3 of RFC 3629, of sequences of scalar values |
| Utf8.NulCutsBetweenCharacters | src/protocol/handshake.rs:17 | cutting at the first NUL leaves well-formed UTF-8 |
| Handshakes.StringRoundTrip | src/protocol/packet.rs:53-71 | a string reads back if it is UTF-8 of at most 131072 bytes; otherwise the error says which it is not |
| Handshakes.StringByParts | src/protocol/packet.rs:60-71 | exactly when a string reads, as which bytes, and which error the length gives |
| Handshakes.HandshakeRoundTrip | src/protocol/handshake.rs:11-32 | version, address up to the first NUL and next state come back for every port and tail; failure exactly for a bad address |
| Handshakes.HandshakeLayout | src/protocol/handshake.rs:11-26 | on the wire: version, address as a string, two bytes of port, high byte first, next state |
| Handshakes.AddressUpToNul | src/protocol/handshake.rs:17 | the address kept is UTF-8 without NUL and ends at the first NUL of the address sent, if there is one |
| Handshakes.LoginStartIgnoresTail | src/protocol/handshake.rs:34-43 | the user name does not depend on what follows it |
| Handshakes.LoginStartRoundTrip | src/protocol/handshake.rs:40-43 | the encoded user name comes back with any tail |
| Handshakes.EncodeString | src/protocol/packet.rs:53-58 | length (cut to 32 bits) and bytes in wire form |
| Handshakes.ReadStringSync | src/protocol/packet.rs:60-71 | the string or the error, consuming exactly the string |
| Handshakes.ParseHandshake | src/protocol/handshake.rs:11-32 | the parser's cursor code computes the handshake the round trip speaks of |
| Handshakes.ParseLoginStart | src/protocol/handshake.rs:40-43 | likewise for the user name |
| StatusCodec.ProbeReadsStatus | src/status.rs:23-26 | through three codecs the probe slices out exactly the JSON bytes |
| StatusCodec.ProbeReadsStatusExactly | src/proxy.rs:389-400 | it does so if and only if the packet fits the frame bound, the string bound playing no part |
| StatusCodec.ProbeByParts | src/proxy.rs:389-400 | the probe succeeds exactly on a packet 0 whose string is within bounds, and slices out just that |
| StatusCodec.ServerPacketIds | src/status.rs:23-38 | read back, the status and the disconnect are packet 0 with the JSON, the plugin request is packet 4 |
| StatusCodec.PluginRequestRoundTrip | src/status.rs:33-38 | a client reads a keepalive as the packet it is |
| StatusCodec.PluginPayload | src/status.rs:33-38 | its payload reads as message id and channel |
| StatusCodec.EncodeStatusResponse | src/status.rs:23-26 | the packet with id 0 and the JSON as a string |
| StatusCodec.EncodeLoginDisconnect | src/status.rs:28-31 | likewise for a disconnect |
| StatusCodec.EncodeLoginPluginRequest | src/status.rs:33-38 | the packet with id 4, message id and channel |
| StatusCodec.ReadProbeReply | src/proxy.rs:389-400 | the probe's decoding code computes the slice the round trip speaks of |
| Rcon.RconRoundTrip | src/docker.rs:108-144 | receiving undoes sending, leaving any suffix, up to 4096 payload bytes; longer ones are refused |
| Rcon.RconLayout | src/docker.rs:114-121 | on the wire: length, id, kind, payload and two zero bytes, at their places |
| Rcon.RconByParts | src/docker.rs:126-144 | exactly when a packet is received, with which id, kind and payload, and which error the length gives |
| Rcon.RconSlicesInRange | src/docker.rs:140-142 | with the body there, the slices are in range exactly for lengths from 10 to the cap |
| Rcon.LittleEndianRoundTrip | src/docker.rs:117-119 | four little-endian bytes give every i32 back |
| Rcon.LeastSignificantFirst | src/docker.rs:117-119 | the four bytes are those of the value modulo 2^32, the least significant first |
| Rcon.RconSend | src/docker.rs:108-124 | appends exactly the packet's bytes |
| Rcon.RconRecv | src/docker.rs:126-144 | the packet or the error, consuming exactly the packet |
| Keepalives.CounterIsMaxOverSuffixes | src/proxy.rs:257-297 | the counter is the greatest surplus of queries over answers in any final part of the run |
| Keepalives.NoSaturation | src/proxy.rs:296 | if no prefix has more answers than queries, the counter is the plain difference |
| Keepalives.ZeroAndBalanced | src/proxy.rs:306-310 | with the counter at 0, as many answers as queries were consumed if and only if none came ahead of its query |
| Keepalives.BestMatching | src/proxy.rs:211-214 | some matching of queries with later answers leaves as many queries open as the counter says |
| Keepalives.NoBetterMatching | src/proxy.rs:211-214 | no matching leaves fewer |
| Keepalives.CounterIsZeroIffAllMatched | src/proxy.rs:306-310 | 0 if and only if every query can be given an answer of its own consumed after it |
| Waiting.WaitConsumesWholePackets | src/proxy.rs:290-319 | with no read dropped in the middle of a packet, however the wait ends, what it leaves is the client's stream after whole packets, as many as it consumed |
| Waiting.AlignedExactlyIfUntorn | src/proxy.rs:243-292 | after every round the loop stands right behind the packets it has counted if and only if no read was dropped with bytes in hand |
| Waiting.WaitLeavesSuffix | src/proxy.rs:243-319 | whatever the reads took, what the wait leaves is an end of the client's stream without a gap |
| Waiting.DropRead | src/proxy.rs:243-292 | a dropped read removes from the stream what it had taken |
| Waiting.FirstDecisiveRoundDecides | src/proxy.rs:233-304 | unless the client goes away, the first probe success, Running, Stopped, deadline or failed write decides the outcome |
| WaitOutcomes.OnlyTheseDecide | src/proxy.rs:233-304 | a round decides exactly if it is the deadline, a probe that succeeds, a failed write, Running, Stopped or a closed channel |
| WaitOutcomes.SelectCounts | src/proxy.rs:233-304 | unless the client is gone, the loop consumes as many packets and sends as many keepalives as the script has before the deciding round |
| WaitOutcomes.SelectReplays | src/proxy.rs:290-302 | with no read torn: the client is gone exactly if it sends fewer packets than the script reads, otherwise the events are those of its first packets, in order |
| WaitOutcomes.DrainTakesNoMore | src/proxy.rs:310-319 | the draining loop takes packets while a keepalive is open and not one more; which of its three ends it comes to |
| WaitOutcomes.WaitSucceedsExactly | src/proxy.rs:224-322 | with no read torn: the wait succeeds exactly if the server comes up first and the client sends, in time, enough packets to close every keepalive |
| WaitOutcomes.WaitTakesJustThese | src/proxy.rs:224-322 | and has then consumed just these packets |
| WaitOutcomes.WaitConsumesNoMore | src/proxy.rs:224-322 | torn reads or not: what the script read, and behind it the least that closes every keepalive |
| WaitOutcomes.StoppedSnapshotEndsWait | src/proxy.rs:224-231 | a Stopped snapshot ends the wait with nothing read |
| WaitOutcomes.WrittenReadsAs | src/proxy.rs:256-262 | what the client is sent reads as the keepalives 0, 1, 2 and so on, on their channel, and a disconnect behind them exactly if the start failed or took too long |
| Waiting.ReadyMeansAllAnswered | src/proxy.rs:306-321 | success means every keepalive has an answer of its own, whatever else the client sent |
| Waiting.AnswersAreShared | src/proxy.rs:211-214 | after success, whatever the client sends later: at least one answer per keepalive was consumed, exactly one if and only if the client never answered ahead of a keepalive; if no read was torn, all others are left in the stream |
| Waiting.NoAnswerIsForwarded | src/proxy.rs:211-214 | so, if no read was torn, none is left of a client that never sends more answers than it was sent keepalives |
| Waiting.SelectLoop | src/proxy.rs:233-304 | the loop ends as the script says, with the counter and the packets written that go with it, and with the bytes left unless the client is gone |
| Waiting.DrainAnswers | src/proxy.rs:310-319 | the draining loop ends on every input, with the counter at 0 or an error |
| Waiting.WaitForServer | src/proxy.rs:192-322 | verdict, publication and packets written to the client for every script, and the bytes left unread unless the client is gone |
| Forwarding.GreetingIsTwoFrames | src/proxy.rs:24-27 | the greeting is the first two frames of the stream, one after the other |
| Forwarding.BytesAreConserved | src/proxy.rs:344-355 | the backend gets the two canonical frames and then an end of the client's stream without a gap; if no read was torn it begins at a packet boundary, and missing are exactly the packets the wait consumed |
| Forwarding.TornPacketReachesBackend | src/proxy.rs:243-292 | every well-formed login caught in the middle of a packet when the server comes up: the backend gets the greeting and then the rest of that packet |
| Forwarding.GreetingByteForByte | src/protocol/packet.rs:30-33 | the two frames are the client's own bytes if and only if both length prefixes were minimal |
| Forwarding.ByteForByte | src/proxy.rs:344-355 | with the server running, the backend gets the client's stream byte for byte if and only if both prefixes were minimal |
| Forwarding.PaddedHandshakeIsRewritten | src/protocol/packet.rs:30-33 | every well-formed login whose handshake is below 128 bytes and padded is accepted, and the backend gets one byte less than was sent |
| Forwarding.WellFormedLoginGetsThrough | src/proxy.rs:87-156 | every well-formed login for a known address gets its own two packets and the rest of its stream to the backend once the wait allows it |
| Forwarding.GetsThroughExactly | src/proxy.rs:24-42 | the backend gets something exactly if the first packet is a handshake for a known address with next state 2, the second a packet 0 with a user name, the wait succeeds and the backend is reached |
| Forwarding.WellFormedGetsThroughExactly | src/proxy.rs:30-42 | of all handshakes and login starts put together from their fields, exactly these get through, and with these bytes |
| Forwarding.WaitLetsThroughExactly | src/proxy.rs:151-155 | on a running server at once and with every byte, otherwise exactly as the script and the packets say |
| Forwarding.DroppedExactly | src/proxy.rs:290-319 | how many packets the wait keeps from the backend |
| Forwarding.BackendGetsItsAnswers | src/proxy.rs:306-319 | if no read was torn: of the answers the client sends after the greeting the backend's part is all but one per keepalive, if and only if the client never answered ahead; answers to the backend's own queries pass |
| Forwarding.BackendGetsNoAnswer | src/proxy.rs:306-319 | so, if no read was torn, nothing of that kind stands in packet position behind the greeting of a client that answers keepalives only |
| Forwarding.HandleConnection | src/proxy.rs:20-44 | the code from the first byte on hands the backend exactly these bytes, or none |
| Forwarding.HandleLogin | src/proxy.rs:87-156 | likewise from the login start on |
| Forwarding.Forward | src/proxy.rs:327-365 | both frames, then the client's stream as far as it is copied |

## Left out

- Docker calls, `DockerClient::stop` with its polling, TCP connects and API version negotiation: each is a step that succeeds or fails.
- Time: a timer may run out whenever it is armed; deadlines and timeouts are inputs of the wait. A hello that times out is not told apart from one that ends early.
- The `idle_timer` lock: its sections are single steps that never suspend, so a task spawned under it cannot run before its handle is stored.
- An abort that lands while its task is being polled on another thread: the task's last read or publication could still happen.
- handle_login's gate and the spawned tasks as code with awaits: modelled on values, as steps of `Lifecycle`, because they interleave; the parts without an await are methods of `SharedState`.
- Waiting.WaitForServer: the position in the stream of a client that is gone is not stated; nothing is read from it afterwards.
- Waiting.SelectLoop: likewise.
- StatusCodec.ReadProbeReply: a negative JSON length is an out-of-bounds error; in a build with overflow checks the program panics there.
- Handshakes.StringRoundTrip: strings of 2^31 bytes and more, whose length wraps, are not covered; no packet can hold them.
- Rcon.RconRoundTrip: payloads near 2^31 bytes, whose length wraps, are not covered; the payloads sent are a password and "stop".
- Rcon.RconRecv: gives the payload bytes; the lossy UTF-8 conversion that follows is the identity on UTF-8 and is not modelled otherwise.
- GateSafety.NoSessionDuringStop: needs the stated condition on interleavings, and a run shows that it fails without it.
- A panic inside a login: its guard would be dropped as by any other exit, but that step is not among the actions.
- The ping path, the copy from server to client, address lower-casing, JSON, configuration, server.properties, the version cache and logging.
