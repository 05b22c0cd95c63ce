# Ethr, modelled and verified

Ethr measures bandwidth, connection rate, packet rate and latency between a client and a server. This project
models the parts of it that keep state, and proves what they are for. All instants and durations are integers
in nanoseconds; the clock, the network's delays and the way a stream is cut into pieces are chosen by the
environment, without restriction unless a lemma's `requires` says so. Every section that takes the session lock,
and every other access to shared state, is one atomic step.

| file | what it models |
|---|---|
| `Time.dfy`, `Arithmetic.dfy` | clock units; sums and products |
| `Wire.dfy` | session messages, frames, and receiving them from a stream that delivers pieces of any size |
| `Throttle.dfy` | the bandwidth quota, the loops that send under it, and what those loops put on the wire |
| `RateBound.dfy` | whole runs of a sender against the statistics ticks |
| `Handshake.dfy` | one TCP bandwidth connection, client and server, from dial to data transfer |
| `StartSync.dfy` | the clock arithmetic of the synchronised start |
| `References.dfy` | what the session registry means, as values |
| `Sessions.dfy` | the registry itself: sessions, tests, the key slice and the reference counts, in place |
| `Lifecycle.dfy` | all interleavings of TCP handlers, UDP handlers and UDP collectors |
| `Ticker.dfy` | the drift-free statistics timer and the start gate |
| `ServerStats.dfy` | taking counters at a tick, and the sums per protocol |
| `Reporting.dfy` | the same report as atomic steps, with handlers and handshakes in between |
| `PingPong.dfy` | the two loops of the TCP latency test over a connection of bounded capacity |
| `LatencyReport.dfy` | the average and the percentiles of a latency report |
| `Ping.dfy` | the ping loop |
| `Text.dfy` | breaking text into lines, whatever its bytes, and the rings of lines on show |

Where the code and its comments disagree the model follows the code:

- `server.go:167-169` says that both sides start at the same moment. `StartSync.StartSkew` gives the difference,
  `StartSync.SameMoment` says exactly when it is zero.
- `utils.go:448-450` speaks of 100 ms after the statistics are printed; the code waits for 50 ms.
- `server.go:452` declares a second `test` inside the `if`, so the packet that makes a cache entry is not counted.
  `Lifecycle.PacketsAccounted` includes it.

Properties that fail, each with the condition under which it holds and an input for which it does not:

| property | holds exactly if | an input for which it fails |
|---|---|---|
| a handshake in which neither side fails ends in data transfer | `Handshake.HandshakeExact`: no probe times out on the control connection; in terms of delays `StartSync.ProbeExact` | `StartSync.LongLinkMissesDeadline`, with what follows in `Handshake.TimedOutEndsDeaf` |
| both sides start at the same moment | `StartSync.SameMoment` | `StartSync.StartsApart` |
| a packet looked up in a cache is counted on a registered test | `Lifecycle.RegisteredIff` | `Lifecycle.StaleEntryWindow` |
| a test that had started by the previous tick is not held back | `Ticker.GateExact`, for the timer `Ticker.TimerGateExact` | `Ticker.TimerSuppresses` |
| the first interval of a synchronised test is reported | `Ticker.FirstIntervalExact`, over a link `Ticker.FirstIntervalOverLink` | the same, any link with more than 50 ms for the answer and SyncGo |
| a latency report does not panic | `LatencyReport.NoPanicIff` | `LatencyReport.FirstPanic` |
| its percentiles are in order, and cover their share | `LatencyReport.OrderedIff`, `LatencyReport.CoverIff` | `LatencyReport.WrappedRanks` |
| its average lies between minimum and maximum | `LatencyReport.AverageIff`, and short of sums about 2^64 `LatencyReport.AverageExact` | `LatencyReport.AverageWraps`: samples of 146 years, which nobody can measure |
| a message can be shown | `Text.MessageRing.PrintMsg` | `Text.RingOverflows` |
| the line breaker ends | `Text.EndsIff` | `Text.WideLetterHangs`; `Text.InitServerTui` shows that valid text on the program's terminals is never so wide |
| nobody holds a deleted test | `Sessions.Registry.SafeDeleteTest` | the same, for 2^32 + 1 holders |

`RateBound.RateBound` assumes that windows start in time; `RateBound.FirstLateIff` and `RateBound.LaterLateIff` say
which windows do not, and `RateBound.LateStartBreaksBound` that each of those can break the bound.

## Model

| member | source | states |
|---|---|---|
| `Wire.ParamRoundTrip` | session.go:329-335 | all nine client parameters survive encoding and decoding, each over its whole range |
| `Wire.SynRoundTrip` | session.go:329-335 | a SYN with any test identifier and parameters decodes to itself |
| `Wire.CodecLaws` | session.go:429-451 | every message decodes to itself, encodes to at least one byte and at most 16384, and empty input decodes to an invalid message |
| `Wire.RecvFrame` | session.go:380-427 | receiving a sent frame returns its message and consumes exactly its bytes, whatever follows it |
| `Wire.NeedWithinFrame` | session.go:380-396 | holding any part of a frame, a receiver waits for exactly the missing bytes, and is done only with the whole frame |
| `Wire.NeedFollowsRecv` | session.go:380-402 | on any bytes, a receiver that reads exactly what it still waits for ends where `Recv` does, with the same message, or waits for more than there is |
| `Wire.LongestBody` | session.go:389-393 | a body of 16384 bytes is read, one of 16385 refused after its length |
| `Wire.FrameRoundTrip` | session.go:380-427 | for every sequence of messages followed by arbitrary raw bytes, repeated receiving returns the messages and leaves the raw bytes |
| `Wire.Conn.ReadFull` | session.go:384-397 | reading in pieces of arbitrary size returns exactly the first `n` bytes, or all there are before the stream fails |
| `Wire.Conn.RecvSessionMsg` | session.go:380-402 | the imperative receiver agrees with `Recv` under every segmentation: message, bytes consumed, short and oversized input |
| `Wire.Conn.SendSessionMsg` | session.go:409-427 | exactly one frame is appended to the stream |
| `Wire.Conn.RecvSessionMsgs` | session.go:380-402 | receiving `n` times in a row is the round trip's `RecvMany` |
| `Throttle.WindowStep` | utils.go:461-486 | after a write of any length the next one is again exact (1 to the smaller of buffer and remaining quota), the 64-bit subtraction never underflows, and a window ends exactly when its quota is used up |
| `Throttle.SendWindows` | client.go:468-493 | over any run of partial writes the bytes sent are whole quotas plus the current window's, and every window ends after at most as many writes as it has bytes |
| `Throttle.ChunkStep` | client.go:481-492 | a complete write is the next chunk of the window, and leads to the one after |
| `Throttle.FillBuffer` | client.go:462-466 | the buffer's byte at each index is the index modulo 256 |
| `Throttle.SendPayload` | client.go:462-493 | the send loop appends exactly the payload stream to the connection |
| `Throttle.BegunPrefix` | client.go:481-489 | a write in progress has put on the wire part of the next chunk, and all of it when it is done |
| `Throttle.SingleByteChunks` | utils.go:451-486 | a sender whose first write is one byte only ever sends single zero bytes |
| `Throttle.PayloadHead` | client.go:462-482 | for every buffer size and rate a payload of four bytes or more starts `00 01` or `00 00 00 00` |
| `Throttle.PayloadIsNoFrame` | server.go:134-143 | a receiver that takes any prefix of a payload for a frame rejects it, having consumed at most four bytes |
| `RateBound.WindowStartsLater` | utils.go:472-483 | a window that starts in time starts in a later statistics interval than the one before |
| `RateBound.RunKeepsInv` | utils.go:461-486 | every run of ticks, writes and windows keeps the sender's invariant |
| `RateBound.RateBound` | utils.go:451-486 | no two windows start in the same interval, and by the end of its N-th interval a sender has written at most N quotas |
| `RateBound.LateStartBreaksBound` | utils.go:451-486 | any window with no wait ahead can be followed, without sleep, by a second in the same interval, which sends a quota too many if the intervals before had theirs |
| `RateBound.FirstLateIff` | utils.go:451-459 | the first window has no wait ahead exactly if it starts 1.05 s or more past the latest tick |
| `RateBound.LaterLateIff` | utils.go:472-483 | nor has a later one, exactly if it does |
| `RateBound.SecondWindow` | utils.go:461-486 | from such a window the run that starts the second one, write by write |
| `RateBound.RunsInOrder` | utils.go:461-486 | the events of a run come in the order of time |
| `RateBound.EarliestWake` | utils.go:472-478 | after any run without jitter the next window may start exactly from 1.05 s past the tick the running one was measured from, or as soon as the quota is found used up |
| `RateBound.SteadyRate` | utils.go:451-486 | with ticks a second apart, give or take 50 ms, and quotas used up before them, one window starts in every interval, the bytes written are between N and N + 1 quotas throughout the interval after N ticks, and exactly N at the N-th tick |
| `RateBound.SteadySenders` | utils.go:451-486 | there are such runs of any length from any sender that begins in time |
| `Handshake.ServerHolds` | session.go:384-397 | a reader holds part of what the other side was to write, even where a write has torn |
| `Handshake.ProbeHeld` | server.go:134-143 | what a probing server holds is part of SyncStart on the control connection, and part of the payload on a data connection |
| `Handshake.ReadyHeld` | client.go:330-337 | what a client waiting for SyncReady holds is part of it, or part of the server's payload if the server took the other branch |
| `Handshake.ClientMsgIs` | client.go:76-91 | the client's next frame is the one it waits for, unless the server took its connection for a data connection: then it is rejected |
| `Handshake.ServerMsgIs` | server.go:65-79 | the server's next frame is SYN or SyncGo where one is due; the probe finds SyncStart exactly on the control connection |
| `Handshake.StepKeeps` | server.go:130-204 | every step of either side, every timeout, every failure and every write that breaks off keeps the joint invariant |
| `Handshake.ClientTearsKeeps` | session.go:417-425 | a client's frame of which only the first bytes were written keeps that invariant |
| `Handshake.ServerTearsKeeps` | session.go:417-425 | and so does a server's |
| `Handshake.RunKeeps` | client.go:297-378 | every run keeps it |
| `Handshake.ControlAgreement` | server.go:130-146 | the client's control connection reaches data transfer only if the server took the control branch for it, a data connection is never taken as control, and a server past the start is matched by a client past it |
| `Handshake.Conservation` | server.go:301-313 | with both sides in data transfer, and whatever has failed, bytes counted by the writer and bytes of its write in progress or broken off are counted by the reader, unread, or eaten by the probe: none on the control connection, at most four on a data connection, in either direction |
| `Handshake.StepAdvances` | client.go:297-378 | while nothing has failed every handshake step advances a bounded measure and no other step moves it back |
| `Handshake.ServerStarved` | server.go:130-204 | a server with nothing left to read is one whose client is waiting for it in turn |
| `Handshake.ClientFed` | client.go:330-337 | a waiting client whose server has answered has something to read |
| `Handshake.NextStepEnabled` | client.go:297-378 | short of data transfer on both sides, a handshake step is always enabled |
| `Handshake.HandshakeCompletes` | client.go:338-378 | without failures, and without a timeout on the control connection, a run takes a bounded number of handshake steps, and none is left exactly when both sides transfer data on the branch the connection is for, in either server mode and for every value of the delay sent |
| `Handshake.HandshakeExact` | server.go:134-146 | without failures, and with no handshake step left, both sides transfer data exactly if the probe has not timed out on the control connection |
| `Handshake.ReadyDecides` | client.go:338-378 | on SyncReady the client answers SyncGo with the round trip it measured, and then sleeps exactly if the server's delay is not zero |
| `Handshake.StartsInStep` | client.go:344-378 | over every run: the delay sent is that of the step in which the server took the control branch, and zero in single-client mode; the client waits for a start of its own exactly if that delay is not zero, and until it transfers data none of its payload has left; the server waits exactly on the control branch |
| `Handshake.TransferGoesOn` | client.go:472-494 | with both sides in data transfer the writer can always go on, and the reader whenever there is something to read |
| `Handshake.Fails` | session.go:417-425 | a side that fails goes down, with the part of its frame that had left, and leaves the other as it was |
| `Handshake.DownForGood` | server.go:267-282 | a side that is down writes, reads and counts nothing more, in any continuation |
| `Handshake.TimedOutNeverPasses` | server.go:138-143 | once it has, the client never gets through the handshake, whatever happens |
| `Handshake.TimedOutEndsDeaf` | client.go:330-337 | in forward mode the client is then left waiting for an answer |
| `Handshake.DeafForEver` | client.go:330-337 | which never comes, nor does it write anything more, in any continuation in which it does not fail |
| `StartSync.ClientSyncStart` | client.go:318-378 | the client writes SyncStart and, on SyncReady only, one SyncGo with the round trip it measured; its start follows from the delay sent and that round trip |
| `StartSync.TrySyncStartWithClient` | server.go:130-204 | the server answers SyncStart only, eats no more than the probe read, fails without SyncGo, and starts after half the round trip or after the delay it sent |
| `StartSync.StartSkew` | server.go:163-202 | the server starts after the client by the delay of SyncGo plus half the round trip, in multi-client mode only as much of it as the advertised delay covers |
| `StartSync.RunExchange` | server.go:130-204 | both sides' code, run on each other's bytes: the handshake completes exactly if SyncStart meets the deadline, in either mode, and the starts it arrives at are apart by exactly that difference; otherwise the server is left to read the rest of SyncStart as payload |
| `StartSync.ProbeExact` | server.go:134-143 | the probe finds SyncStart exactly if the acknowledgement and SyncStart together take no more than 100 ms, and otherwise eats what of it was early |
| `StartSync.LongLinkMissesDeadline` | server.go:134-143 | 51 ms each way are too long |
| `StartSync.LinkJustInTime` | server.go:134-143 | 50 ms each way just meet it, and a nanosecond more does not |
| `StartSync.HalfTwice` | client.go:359 | halving a Duration drops an odd nanosecond towards zero |
| `StartSync.SubSaturates` | client.go:339-340 | differences of instants are cut off at the ends of a Duration's range |
| `StartSync.TickSkew` | client.go:356-365 | where the delay covers half the round trip the client misses the advertised tick by the answer's delay less that half; the server records the tick plus the delays of its answer and of SyncGo; a negative delay makes both start at once |
| `StartSync.SingleClientStarts` | server.go:167-175 | in single-client mode the client starts when it has the answer, the server half a round trip after SyncGo |
| `StartSync.SameMoment` | server.go:167-169 | both sides start together exactly if SyncGo takes no time and there is no half round trip to sleep through |
| `StartSync.StartsApart` | server.go:167-175 | one millisecond each way puts the starts two milliseconds apart |
| `References.RegisterAfterEntry` | session.go:187-215 | entering an address first and the test later is registering the test, and leaves no address empty |
| `References.UnregisterAfterRemoval` | session.go:240-248 | removing the test first and its address when it was the last is unregistering it, and leaves no address empty |
| `References.AcquireEffect` | session.go:266-280 | taking a reference touches one key, finds the test registered there if there is one, and adds one holder |
| `References.ReleaseEffect` | session.go:282-290 | giving one back removes one holder, and the key exactly if it was the last |
| `References.AcquireNamed` | session.go:266-280 | taking a reference is the same whatever the tests are called |
| `References.ReleaseNamed` | session.go:282-290 | and so is giving one back |
| `Sessions.AsInt32Is` | session.go:278 | a 32-bit count is the signed number of 32 bits equal to the count modulo 2^32 |
| `Sessions.AsInt32Zero` | session.go:285 | a 32-bit count shows zero at the multiples of 2^32 |
| `Sessions.AddInt32Wraps` | session.go:278 | adding to a wrapped count is wrapping the sum |
| `Sessions.WithoutContents` | session.go:170-179 | what deleting a key leaves: the same other keys, still without duplicates |
| `Sessions.DeleteKey` | session.go:170-179 | compacting the slice in place while scanning it is order-preserving filtering |
| `Sessions.Registry.constructor` | session.go:166-168 | an empty registry is valid |
| `Sessions.Registry.AppendKey` | session.go:195 | the key comes last, in place or in a larger copy |
| `Sessions.Registry.GetTestInternal` | session.go:256-264 | the registered test, or none |
| `Sessions.Registry.SessionFor` | session.go:188-196 | finds or enters the session of an address, keeping map, slice and sessions in agreement |
| `Sessions.Registry.NewTestInternal` | session.go:187-215 | adds one test that nobody holds, or returns the existing one and changes nothing |
| `Sessions.Registry.CreateOrGetTest` | session.go:266-280 | keeps the whole invariant, and the registry's meaning becomes `Acquire` of the old one; new exactly if there was none, and then active and dormant, with zero counters, started and last heard now |
| `Sessions.Registry.DeleteTestInternal` | session.go:223-248 | the registry's meaning becomes `Unregister` of the old one, session and key included |
| `Sessions.Registry.SafeDeleteTest` | session.go:282-290 | for every number of holders: deletes exactly at a multiple of 2^32 left, and keeps the whole invariant exactly if nobody then holds the deleted test, as with up to 2^32 holders; the meaning is then `Release` of the old one |
| `Sessions.Registry.HolderIsLive` | session.go:266-290 | a held test is the one the registry hands out: nobody holds a deleted test |
| `Lifecycle.ExitTcp` | server.go:253-258 | a handler's release finds its test registered, and leaves counts and users in agreement |
| `Lifecycle.ReleaseUdp` | server.go:433-435 | so does a collector's |
| `Lifecycle.StepKeeps` | server.go:222-289 | every step of every handler and collector keeps the server's invariant |
| `Lifecycle.RunKeeps` | server.go:409-469 | so does every interleaving |
| `Lifecycle.ReferencesAreExact` | session.go:266-290 | in every reachable state a test is registered exactly while it has users, its count is the number of handlers or caches that use it, and they use the registered one |
| `Lifecycle.RegisteredIff` | server.go:420-465 | in every reachable state a test of an address, such as the one a waiting packet is to be counted on, is registered exactly if some cache holds it unreleased |
| `Lifecycle.TcpTestsAccounted` | server.go:239-289 | TCP tests created are registered or deleted; once no handler is active none is registered |
| `Lifecycle.FailedHandshakeLingers` | server.go:247-260 | a handler whose handshake failed keeps its test registered for 2 s, whatever the others do, and may go then; after a handshake that succeeded it may go at once |
| `Lifecycle.SweepExact` | server.go:420-440 | in every reachable state a collector may take an entry on exactly if its test was last heard, by a packet counted or by being made, more than 2 s ago |
| `Lifecycle.NeverSwept` | server.go:433-465 | as long as a handler counts a packet of an address at least every 2 s, its entry stays and the test stays registered, whatever the others do |
| `Lifecycle.PacketsAccounted` | server.go:441-465 | for each address, packets received are those counted, those waiting to be counted, and those spent on cache entries, which are still there or have been dropped |
| `Lifecycle.QuietStep` | server.go:420-440 | in silence each check, release and removal leaves one less to take |
| `Lifecycle.QuietRun` | server.go:420-440 | so over any run among any TCP activity |
| `Lifecycle.SilenceEmptiesUdp` | server.go:420-440 | after 2 s of silence the sweeps are bounded in number, and when none is left every cache is empty and no UDP test is registered |
| `Lifecycle.StepSimulates` | session.go:266-290 | each step of a handler or collector makes the same of the registry over its own tests as over serial numbers |
| `Lifecycle.RunSimulates` | session.go:266-290 | so after every interleaving both mean the same, under some naming of the tests |
| `Lifecycle.StaleEntryWindow` | server.go:433-465 | a packet looked up between a collector's release and its removal of the entry is counted on a test already deleted |
| `Ticker.StatsTimerAt` | stats.go:132-151 | the loop emits at the instants `EmitAt` gives, the k-th never before k seconds from the start |
| `Ticker.CatchesUp` | stats.go:135-150 | a late timer wins back each second what emissions leave of it, down to one sleep's overshoot |
| `Ticker.NoDrift` | stats.go:132-151 | if emissions fit in a second, every emission ever is at its target or late by at most one overshoot |
| `Ticker.TickSpacing` | stats.go:166-172 | consecutive ticks are a second apart, give or take the overshoot |
| `Ticker.GateExact` | serverui.go:416-430 | no test that had started by the previous tick is held back, exactly if the tick comes no more than 50 ms before a second has passed |
| `Ticker.GateProgress` | serverui.go:416-430 | an emission at most 50 ms early lets through every test that had started by the previous tick |
| `Ticker.TimerKeepsGateOpen` | stats.go:132-172 | with sleeps that overshoot by at most 50 ms the timer never makes the gate hold such a test back |
| `Ticker.TimerGateExact` | stats.go:132-172 | a tick of the timer holds no such test back exactly if it is not more than 50 ms less late than the tick before |
| `Ticker.TimerSuppresses` | stats.go:132-172 | every overshoot between 50 ms and a second makes the timer hold one back at the next tick |
| `Ticker.TimerKeepsSendersInTime` | utils.go:474-480 | with less overshoot than 50 ms, jitter included, the timer meets the condition of `RateBound.RateBound` |
| `Ticker.FirstIntervalReported` | server.go:179-202 | with every tick late by at most an overshoot, a lag that fits in 50 ms with it is reported for its first interval, and one beyond both is discarded |
| `Ticker.FirstIntervalExact` | serverui.go:416-430 | exactly which lag after the promised tick makes the first interval be discarded |
| `Ticker.FirstIntervalOverLink` | server.go:179-202 | the same over a link, where the lag is the delay of the answer and of SyncGo: with ticks on the second, more than 50 ms |
| `ServerStats.GetTestResults` | serverui.go:405-486 | a test's counters, the sums and the row shown after a call, for every combination of protocol, gate, activity and dormancy; each rate in the row is the counter per second of the interval, rounded down |
| `ServerStats.RateIsPerSecond` | serverui.go:414 | a rate times the interval is at most the amount taken times a second, and the next rate is too much |
| `ServerStats.PerSecondUnique` | serverui.go:414 | there is one such number, and over one second it is the amount itself |
| `ServerStats.ContributionPerSecond` | serverui.go:435-452 | what goes into the sums are such rates |
| `ServerStats.HiddenAddsNothing` | serverui.go:461-463 | a row is left out only for a test that adds nothing to any rate |
| `ServerStats.EmitAggregate` | serverui.go:384-403 | the sum row is shown for more than one contribution, and the sums return to zero |
| `ServerStats.Found` | stats.go:184-188 | every key of the slice leads to its session, and the three lookups find the tests registered there |
| `ServerStats.ItemsApart` | stats.go:181-190 | no test is reported twice in a tick |
| `ServerStats.EveryTestCalled` | stats.go:181-190 | every registered test of type All is reported, under its protocol |
| `ServerStats.ServerUI.EmitTestResult` | serverui.go:344-349 | one call touches one test, and the sums of its protocol only |
| `ServerStats.ServerUI.EmitNext` | stats.go:184-189 | after each call the sums are those of the calls made, and the tests to come are untouched |
| `ServerStats.ServerUI.EmitTestResults` | stats.go:181-190 | after the loop every registered test has been taken once and each sum is the sum over all sessions |
| `ServerStats.ServerUI.EmitAggregateResults` | serverui.go:377-382 | three sum rows, from the sums they find, which return to zero |
| `ServerStats.ServerUI.EmitTick` | stats.go:174-176 | a whole tick: each sum row is the sum of this tick's contributions alone, each row says what its test contributed, and nothing is carried over |
| `ServerStats.SumsAreOfRowsShown` | serverui.go:405-486 | the sums of a protocol equal the rates in the rows shown for it |
| `ServerStats.SumShownIff` | serverui.go:384-393 | the sum row of a protocol is shown exactly if two calls of the tick let their tests through |
| `Reporting.MovesOn` | serverui.go:411-451 | no step of a call loses or makes up anything of any counter: what leaves the counter is in the hands of the call |
| `Reporting.Finishes` | serverui.go:422-429 | the last step of a call puts all it holds into that call's record, as shown or as held back |
| `Reporting.StepBalances` | serverui.go:405-486 | every event, of handlers, handshakes, calls and ticks, changes a counter's ledger by what was added |
| `Reporting.BytesConserved` | serverui.go:411-451 | over every interleaving, and for bytes, connections and packets alike, what handlers added to a test is what calls swapped out and showed, swapped out and discarded, holds the call in progress, is still counted, and was when the test was deleted |
| `Reporting.ProceedTells` | serverui.go:436-452 | a step of a call keeps each sum equal to the rates of what the calls made and this one have swapped out |
| `Reporting.SumsSay` | serverui.go:435-452 | the sums over an interval's calls are what they swapped out and showed, per second, but for less than one a row that rounding drops; over one second they are the amounts themselves |
| `Reporting.RowsAndSumsTell` | serverui.go:384-486 | over every interleaving each row shows exactly what its call swapped out, per second, a missing row means held back or less than one of anything per second, and the sum row of each tick is the sum of that tick's rows, shown exactly if two calls let their tests through |
| `Reporting.OncePassedAlwaysReported` | serverui.go:418-433 | over every interleaving, once through the gate a test loses nothing until the next handshake sets its start time |
| `Reporting.EarlyNeverHeld` | stats.go:166-176 | over every run of ticks that come at most 50 ms before their second is over, a test that had started by the tick before the first is never held back, until a handshake sets its start time |
| `Reporting.UninterruptedCall` | serverui.go:405-486 | a call with nobody in between leaves the counters, sums and row that `ServerStats.GetTestResults` computes |
| `Reporting.FirstCallGate` | serverui.go:418-433 | the first call for a test just created, or just synchronised, holds it back exactly if it started more than 50 ms after the interval began |
| `Reporting.TouchShows` | serverui.go:454-463 | a call shows the latency and the dormancy the test has, and hides a dormant test only if it has nothing to show |
| `PingPong.RoundsAreDual` | client.go:526-547 | the client's round and the server's are equally long and opposite at every operation |
| `PingPong.OpsAreDual` | server.go:325-345 | so are the two unbounded loops |
| `PingPong.Alternation` | client.go:526-547 | the client never sends three times in a row nor receives twice, across rounds included |
| `PingPong.OrderKept` | client.go:520-553 | whoever is ahead has only been sending, after every step |
| `PingPong.ClientStepKeeps` | client.go:529-542 | a client's partial write or read keeps the channels' contents those of the repeated buffer |
| `PingPong.ServerStepKeeps` | server.go:325-343 | so does a server's, which echoes what it has received |
| `PingPong.RunKeeps` | server.go:325-345 | over every run |
| `PingPong.NeverStuck` | client.go:520-553 | no reachable state is stuck, for every round length and every channel capacity of at least one byte |
| `PingPong.WithinCapacity` | client.go:520-553 | the channels hold no more than they can |
| `PingPong.BothProgress` | server.go:325-345 | a run moves both sides along by at least half its length, less one buffer |
| `PingPong.InFlight` | client.go:520-553 | at most two buffers are on their way to the server and one to the client, never both at once; rounds differ by at most one; what arrives is what was sent |
| `LatencyReport.SortSorts` | client.go:563-565 | the samples in ascending order, none lost or added |
| `LatencyReport.SortUnique` | client.go:563-565 | which is the same whatever the sorting algorithm |
| `LatencyReport.SortSlice` | client.go:563-565 | sorting in place gives it |
| `LatencyReport.SortRank` | client.go:574-583 | the sample at a sorted index is the one of that rank among the unsorted samples |
| `LatencyReport.SumOf` | client.go:558-561 | the 64-bit sum is the exact sum, wrapped |
| `LatencyReport.CalcLatency` | client.go:557-588 | samples end up sorted in place; the report panics on no samples by division and on an index out of range, and otherwise gives the average and the samples of the ranks computed in 32 bits |
| `LatencyReport.IndexInRange` | client.go:578-581 | an index is in range exactly if its 32-bit product reaches 100, and then is that product's rank |
| `LatencyReport.NoPanicIff` | client.go:562-581 | for which counts the report does not panic, out of all 32-bit counts, 0 included |
| `LatencyReport.RanksAreExact` | client.go:571-581 | up to 43383508 samples each rank is the percentage of the count, rounded down |
| `LatencyReport.FirstPanic` | client.go:581 | from 1 on, 43383509 is the smallest count that panics |
| `LatencyReport.RanksOrdered` | client.go:574-583 | a later rank is never a smaller sample, and a rank determines its sample |
| `LatencyReport.PercentilesOrdered` | client.go:575-583 | minimum, percentiles and maximum are in order wherever the ranks computed are |
| `LatencyReport.SmallIsAscending` | client.go:571-581 | which they are up to 43383508 samples |
| `LatencyReport.OrderedIff` | client.go:575-583 | for every 32-bit count that does not panic, all reports are in order exactly if the ranks computed are |
| `LatencyReport.PercentilesCover` | client.go:578-583 | each percentile whose product does not wrap around is the sample whose rank is the named share of the samples, rounded down: at least that many are no larger, and fewer are smaller |
| `LatencyReport.CoverIff` | client.go:578-581 | and for no other count is it so for all samples |
| `LatencyReport.WrappedRanks` | client.go:578-581 | 43400000 samples do not panic, but the 99th percentile is of a smaller rank than the 95th |
| `LatencyReport.AverageBetween` | client.go:558-562 | the average lies between minimum and maximum if the sum fits in 64 bits |
| `LatencyReport.AverageWraps` | client.go:558-562 | a sum that does not fit can put it below the minimum |
| `LatencyReport.AverageIff` | client.go:558-562 | for durations, which are not negative, the exact interval the 64-bit sum must lie in for the average to be in place |
| `LatencyReport.AverageExact` | client.go:558-562 | short of a nanosecond a sample of 2^64, that is exactly if the sum fits in 64 bits |
| `Ping.PrintResults` | client.go:689-698 | every block printed is consistent, and its report describes its latencies |
| `Ping.BlockSound` | client.go:689-698 | every block's report is in order, and its average between minimum and maximum unless some answer took 106 days |
| `Ping.RunPingTest` | client.go:622-658 | every block has sent = received + lost, a latency per answer, at most a thousand, and a sound report; it counts the attempts, losses and latencies of its own stretch of the run, which ends with its thousandth answer; over a run all latencies measured are reported once, in order, and all attempts are counted |
| `Text.ValidIff` | utils.go:222-234 | valid text is exactly what encodes some Unicode characters, as section 3 of RFC 3629 has it |
| `Text.CutAtStart` | utils.go:227-230 | cutting valid text before a start byte gives two valid texts |
| `Text.UnitOfValid` | utils.go:227-229 | in valid text a start byte and the bytes up to the next are one character, of at most four bytes |
| `Text.LastStartBegins` | utils.go:227-229 | in any bytes, stepping back to a start byte ends at the unit the position belongs to |
| `Text.StepBack` | utils.go:227-229 | the inner loop finds it, or runs off the front exactly where there is none |
| `Text.CutFacts` | utils.go:226-231 | each line ends before a unit that does not fit, and is empty exactly if the first does not |
| `Text.CutOfValid` | utils.go:226-231 | in valid text both parts are valid and a line misses at most three bytes |
| `Text.HangsOnWide` | utils.go:226-231 | with a unit wider than the line the loop never ends |
| `Text.EndsIff` | utils.go:226-231 | on any bytes, it ends exactly if there is none |
| `Text.WideLetterHangs` | utils.go:226-231 | with lines of one byte it never gets through a letter of two |
| `Text.FourIsEnough` | utils.go:222-234 | lines of four bytes are wide enough for any valid text |
| `Text.SplitString` | utils.go:222-234 | on any bytes: ends exactly if no unit is too wide, panics exactly if there is no start byte to go back to, and otherwise never returns; the lines join to the text, fit, are cut at start bytes only, are valid if the text is, and none but the last could have taken a unit more |
| `Text.NearlyFull` | utils.go:226-231 | in valid text each line but the last misses at most three bytes |
| `Text.FewestLines` | utils.go:222-234 | no other way of breaking the text at start bytes makes fewer lines |
| `Text.BreakableIff` | utils.go:222-234 | so the lines fit a number of rows exactly if there is any way to make them fit |
| `Text.TooLong` | serverui.go:148-156 | a text longer than all rows together does not fit |
| `Text.ShortEnough` | serverui.go:148-156 | valid text shorter than as many rows, less three bytes each, does |
| `Text.MessageRing.constructor` | serverui.go:119 | a ring begins as blank lines |
| `Text.MessageRing.PrintMsg` | serverui.go:148-156 | for any bytes: the ring holds exactly the last lines of the history, as many as before; the message is shown exactly if some way of breaking it fits the ring, and otherwise printing panics, or, exactly where the line breaker does, never returns |
| `Text.InitServerTui` | serverui.go:76-121 | terminals under 80 columns or 40 rows are refused; otherwise both rings have seven lines, share the width but one column with three or four to spare for messages, and are wide enough that printing valid text returns |
| `Text.RingOverflows` | serverui.go:148-156 | on every terminal a plain message one letter longer than the ring holds panics |

## Left out

- Wire.CodecLaws: gob is replaced by a fixed concrete encoding of the same messages; the lengths 49, 5 and 13 of its frames appear in `Handshake`, and nothing else of the encoding does.
- Wire.Conn.SendSessionMsg: a write takes all it is given; writes that break off are steps of `Handshake`.
- Throttle.SendPayload: every write is complete, as Go's stream writes are unless they fail; `Throttle.SendWindows` allows partial ones.
- RateBound.RateBound: assumes that windows start in time; `Ticker.TimerKeepsSendersInTime` derives that from a punctual timer.
- Handshake.HandshakeCompletes: says that nobody is stuck and that handshake steps are bounded, not that the scheduler runs them; a well-behaved peer on the other side is part of the model.
- StartSync.StartSkew: processing takes no time, sleeps do not overshoot, and no difference of instants exceeds the range of a Duration.
- StartSync.TickSkew: as StartSkew.
- StartSync.RunExchange: as StartSkew; a client left without an answer is told that its stream has ended, where the real one waits.
- StartSync.SameMoment: as StartSkew.
- Sessions.Registry.CreateOrGetTest: a test's counters are an object of their own beside it, and its connection list and done channel are absent.
- Lifecycle.StepKeeps: tests are named by serial numbers, which `Lifecycle.RunSimulates` shows to make no difference; a lookup that misses and the entry it makes are one step, and so is each access to a handler's map.
- Lifecycle.SweepExact: marking a test dormant after 200 ms without packets (server.go:428-430) is a `Touch` of `Reporting`, at any moment and to any value.
- Handshake.Conservation: a reader counts bytes in the step that reads them.
- Ticker.StatsTimerAt: the timer of startStatsTimer, which relies on Go's ticker, is not modelled; the loop runs for as many laps as it stays enabled.
- ServerStats.GetTestResults: counters are unbounded where the source has 64 bits, and rates are exact quotients rounded down where it divides in floating point.
- ServerStats.ServerUI.EmitTick: a tick runs without adders in between; `Reporting` has every interleaving, for whatever calls a tick makes.
- Reporting.BytesConserved: tests are named by numbers; which calls a tick makes is left open, as `ServerStats.ServerUI.EmitTestResults` settles it.
- PingPong.NeverStuck: no read or write fails, and the client does not stop.
- LatencyReport.CalcLatency: the 99.9% and 99.99% indexes are exact rationals where the source uses floating point; the sort is a specification, the library's algorithm is not modelled.
- LatencyReport.AverageExact: sums about 2^64 and beyond are left to `LatencyReport.AverageIff`.
- Text.SplitString: negative widths, which no caller has.
- The client's per-connection rows (`clientui.go:118-191`) and the hop counters (`client.go:775-916`): sums, minima and maxima of single bodies.
- The UDP sender (`client.go:1159-1203`) uses the same quota as the TCP sender; its partial writes are not counted by it and are not modelled.
- Sockets, dialling, name lookup, ICMP, socket options, operating-system counters, terminal drawing, logging, flags, and the formatting and parsing of numbers.
- Functions without callers: handshakeWithServerSync, handshakeWithClientSync, tcpRunBandwidthTest, deleteTest, addRef, delConn.
- Unsynchronised access to shared variables as the Go memory model sees it.
