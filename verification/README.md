# A verified model of the wispmq command-line client

`wispmq-cli` publishes to, subscribes to and benchmarks an MQTT v5.0 broker.
This project models the parts whose correctness depends on concurrency, on
polling or on exact arithmetic, and proves what they promise for every input,
every interleaving and every behaviour of the broker.

| file | content |
|---|---|
| `Mqtt.dfy`, `Arithmetic.dfy` | packets, Reason Codes, the cyclic Packet Identifier allocator; a few facts about products |
| `PublisherModel.dfy` | a benchmark publisher as a transition system: two tasks, a semaphore, an in-flight map, a PUBREL channel, counters, an arbitrary broker |
| `PublisherInvariants.dfy` | what every step keeps |
| `PublisherTheorems.dfy` | flow control, counters, PUBREL order, shutdown, pacing, quota |
| `PublisherHistory.dfy` | what the events of a run say about its end: stop, failed writes, read errors, latencies, exact pacing |
| `PublisherIds.dfy` | exactly when an outstanding Packet Identifier is reused |
| `BrokerModel.dfy`, `BrokerTheorems.dfy` | the publisher composed with a conforming broker over FIFO links; the phases of QoS 1 and QoS 2 exchanges |
| `Progress.dfy`, `Deadlock.dfy` | termination at QoS 1; the stuck states at QoS 2, exactly; what a stop request releases |
| `ConformingReuse.dfy` | identifier reuse, and permits returned twice, against a conforming broker, exactly |
| `PublisherCode.dfy` | the publisher as an object updated in place, refining the transition system |
| `WsByteStream.dfy` | the WebSocket byte-stream adapter |
| `LatencyStats.dfy`, `BenchRun.dfy` | exact statistics, the quota split, the joined run |
| `Measurement.dfy` | the 16-byte header from publisher to subscriber |
| `Lockstep.dfy` | the sequential handshake of `pub` |
| `TerminalEscape.dfy` | control bytes on their way to a terminal |

## How the publisher is modelled

`PublisherModel.Event` has one case for every indivisible piece of the write
side (pop a PUBREL, write it, acquire, allocate, insert, write, count, forget,
disconnect), of the ack task (receive, remove the entry, return the permit,
queue a PUBREL, end, close) and of the outside (stop request, clock). A run is
any sequence of enabled events, so an acknowledgement may be handled before the
write that provoked it returns, identifiers may be unknown or acknowledged
twice, and any write may fail. Timeouts and `select!` races are nondeterministic
choices. `State.trace` is history for the specification and influences no step.

`PublisherCode.Publisher` has the source's fields and loops. Its `Valid` says
that the object's state is the end of a run of the transition system, and each of
its methods extends that run, so all theorems about reachable states hold of the
object. Its surroundings are inputs: `world` lists what the ack task and the
outside do during each coming await, `link` whether each coming write succeeds, and
the two time limits are given as numbers of awaits. The one choice made inside a
body is which ready arm a `select!` takes, which the runtime draws at random.

## What the proofs found

- **A QoS 2 publisher can stop for good.** PUBRELs are written at the loop top
  and in the tail, never while the writer waits for a permit
  (`src/bench/publisher.rs:216-261`). If all PUBRECs of a full window arrive
  while it waits, it waits for PUBCOMPs that only its own PUBRELs could bring.
  `Deadlock.DeadlockIffQuotaExceedsWindow`: against a perfectly conforming broker
  this is reachable exactly when the quota is larger than the window (or there is no
  quota). By `Progress.StuckIffDeadlocked` nothing but a stop request or the end of
  the connection moves such a state on. `Deadlock.StopReachesTail` shows that a stop
  request can lead on, `Deadlock.StopResolvesDeadlock` that every run which then
  leaves without a failed write or a closed window has released every message, and
  `Deadlock.TailNeverStuck` that the tail does not wedge again.
- **The 65535 cap is necessary but not sufficient against identifier reuse**
  (`src/bench/publisher.rs:103-108`). It is exactly right for brokers that
  complete in send order (`PublisherIds.InOrderReuseIffWindowTooWide`). A conforming
  broker that merely takes its time over one message brings about reuse exactly when
  the window is 2 or more and at least 65536 messages are to be sent, at QoS 1 and
  at QoS 2 (`ConformingReuse.ConformingReuseIff`). Each reuse costs a permit for
  good, but never the last one (`PublisherTheorems.ReuseNeverTakesTheLastPermit`),
  so a QoS 1 publisher still sends its whole quota (`Progress.Qos1MeetsQuota`).
- **A failed PUBLISH write can return its permit twice**, exactly when its
  acknowledgement was handled before the write reported the error
  (`PublisherTheorems.PermitReturnedTwiceIff`). More permits than the window are
  reachable for every setting that sends anything, and for no other
  (`PublisherTheorems.SurplusIffAnythingIsSent`), but the broker of that run
  acknowledges a PUBLISH that is not on the wire yet. A conforming broker cannot
  bring it about before an identifier is reused
  (`BrokerTheorems.FailedWriteAgainstConformingBroker`), and can exactly for the
  settings under which reuse is possible (`ConformingReuse.ConformingSurplusIff`).
  The publisher ends at that point, so the surplus is never used.
- **A Receive Maximum of 0 gives a window of 1** (`src/bench/mod.rs:145-150`);
  the window is within the Receive Maximum exactly when that is at least 1
  (`PublisherTheorems.WindowRespectsLimits`).
- **A WebSocket flush can be Ready with bytes still buffered**: over every run on a
  working sink, exactly when something was written after the flush that handed over
  the frame being finished (`WsByteStream.ReadyLeavesBytesIffWrittenSince`; a run
  that does it is `WsByteStream.ReadyWithBytesBuffered`).
- **Escaping for the terminal is not injective**: backslash is not escaped. An input
  shares its output with another exactly when it contains a control byte or literally
  spells one (`TerminalEscape.AmbiguousIff`; for instance ESC and the text that spells
  it, `TerminalEscape.EscapeNotInjective`).

## Model

| member | source | states |
|---|---|---|
| `Mqtt.NextIdIsIdOf` | src/client.rs:193-199 | the wrapping increment that skips 0 makes the n-th identifier (n mod 65535) + 1, over any number of wrap-arounds |
| `Mqtt.SameIdMeansWholeCycles` | src/bench/publisher.rs:263-271 | two allocations share an identifier if and only if they are a multiple of 65535 apart |
| `PublisherInvariants.StepKeepsLedger` | src/bench/publisher.rs:37-64 | every step of either task keeps the ledger: tracked map size, permits + live + overwritten + held + owed = window + surplus, and the balance of all counters |
| `PublisherInvariants.StepKeepsLastPermit` | src/bench/publisher.rs:293-295 | every step keeps: overwritten entries are none, or fewer than the window |
| `PublisherInvariants.StepKeepsOrderly` | src/bench/publisher.rs:198-261 | every step keeps the shutdown order (closed iff the read side ended, window-closed only after it) and lets no message past its deadline early |
| `PublisherInvariants.StepKeepsIds` | src/bench/publisher.rs:263-295 | every step keeps each entry at the identifier of its own allocation and at most one identifier cycle old |
| `PublisherInvariants.StepKeepsWireNumbered` | src/bench/publisher.rs:263-318 | every step keeps the k-th PUBLISH on the wire numbered k with the k-th identifier, and the wire in step with `published` |
| `PublisherInvariants.StepKeepsPubrels` | src/bench/publisher.rs:66-78 | every step keeps PUBRELs written ++ held ++ queued = accepted PUBRECs, in order |
| `PublisherInvariants.ReachableInv` | src/bench/publisher.rs:120-389 | all of the above in every reachable state, for every interleaving and every broker |
| `PublisherTheorems.WindowRespectsLimits` | src/bench/mod.rs:145-150 | the window is one of the limits, at least 1, at most max(requested, 1) and 65535, and within the Receive Maximum iff that is at least 1 |
| `PublisherTheorems.FlowControl` | src/bench/publisher.rs:239-318 | available permits + in-flight + overwritten + held + owed = window until a PUBLISH write fails; messages on the wire without a handled terminal acknowledgement never exceed the window |
| `PublisherTheorems.WithinReceiveMaximum` | src/bench/publisher.rs:103-111 | with the computed window, unacknowledged messages never exceed the request, 65535 or a Receive Maximum of at least 1 (section 4.9 of MQTT v5.0) |
| `PublisherTheorems.ReuseNeverTakesTheLastPermit` | src/bench/publisher.rs:103-108 | in every reachable state fewer permits have been lost to overwritten entries than the window has |
| `PublisherTheorems.PermitReturnedTwiceIff` | src/bench/publisher.rs:309-318 | after a failed write the permits in circulation add up to the window if the entry was still in the map, and to window + 1 if an acknowledgement had taken it |
| `PublisherTheorems.SurplusIffAnythingIsSent` | src/bench/publisher.rs:309-318 | a reachable state with more permits than the window exists iff the window is at least 1 and there is a message to send |
| `PublisherTheorems.PermitReturnedTwice` | src/bench/publisher.rs:293-318 | a run that ends with window + 1 permits, for every QoS 1/2 configuration that sends at all |
| `PublisherTheorems.CounterAccounting` | src/bench/publisher.rs:46-63 | acknowledged + in-flight refusals + map size ≤ published + publish errors + write in progress; samples ≤ acknowledged; the exact PUBLISH sequence on the wire |
| `PublisherTheorems.RefusalTableIsExact` | src/bench/stats.rs:105-111 | in every reachable state the refusal table is the exact per-code count of refusing acknowledgements handled, known identifier or not |
| `PublisherTheorems.PubrelOrder` | src/bench/publisher.rs:66-78 | until a write fails, PUBRELs written ++ the one in hand ++ the channel = identifiers of accepted PUBRECs in receipt order |
| `PublisherTheorems.AtMostOneMorePublish` | src/bench/publisher.rs:198-261 | after the semaphore is closed, every continuation writes at most one further PUBLISH |
| `PublisherTheorems.WriterBlocksOnlyOnWindowOrDeadline` | src/bench/publisher.rs:227-261 | the write side is blocked iff it waits for a deadline without a stop request, or on an open empty semaphore without one |
| `PublisherTheorems.OutcomeIsHonest` | src/bench/publisher.rs:363-389 | Ok only after a clean join with the window never closed; a read error outranks the closed window; the tail is skipped only when the read side has ended |
| `PublisherTheorems.OkMeansQuotaOrStop` | src/bench/publisher.rs:216-389 | in every run, a publisher that has returned Ok without a stop request had a quota and has put exactly that many PUBLISHes on the wire |
| `PublisherTheorems.PacingBound` | src/bench/schedule.rs:19-30 | by time t at most floor((t − start)/interval) + 1 PUBLISHes are on the wire, in every run |
| `PublisherTheorems.QuotaRespected` | src/bench/publisher.rs:208-223 | published never exceeds the quota and equals it once the quota test ends the loop |
| `PublisherHistory.StopEndsSending` | src/bench/publisher.rs:224-261 | at every QoS, after a stop request every continuation writes at most one further PUBLISH, and none unless the stop test had been passed |
| `PublisherHistory.LeavingIsFinal` | src/bench/publisher.rs:328-389 | once the loop is left nothing is published any more, and an outcome never changes |
| `PublisherHistory.FailedWriteIsFinal` | src/bench/publisher.rs:220-318 | a failed PUBLISH, or PUBREL at the loop top, is the outcome of every continuation; a failed PUBREL in the tail is not; nothing is published after either |
| `PublisherHistory.ReadErrorIsReported` | src/bench/publisher.rs:132-145 | after a read error no continuation ends Ok or as a mere early close; after an orderly end none ends as a read failure |
| `PublisherHistory.NothingAfterDisconnect` | src/bench/publisher.rs:339-347 | DISCONNECT is the last packet on the wire, and only of a publisher that is joining or done |
| `PublisherHistory.AckLatencies` | src/bench/publisher.rs:50-63 | in every run the samples are, in order, completion minus send time of the accepted messages sent at or after the warm-up, and `acknowledged` is the number of accepted messages |
| `PublisherHistory.NoMessageCompletesTwice` | src/bench/publisher.rs:37-64 | with any broker no message is counted or timed twice |
| `PublisherHistory.ErrorsAreCounted` | src/bench/publisher.rs:309-310 | `publish_errors` is the number of failed PUBLISHes of the run |
| `PublisherHistory.SendableExactly` | src/bench/schedule.rs:28-30 | message k may go on from exactly start + k·interval, whatever stalled before |
| `PublisherHistory.PacingIsTight` | src/bench/schedule.rs:19-30 | the pacing bound is attained: k + 1 messages on the wire at the instant start + k·interval |
| `PublisherIds.CollidesIffStale` | src/bench/publisher.rs:293-295 | the identifier about to be inserted is non-zero, and is in the map iff some entry has outlived a whole cycle of allocations |
| `PublisherIds.UniqueIffNeverStale` | src/bench/publisher.rs:263-295 | over any run, no live entry is overwritten iff no insert happens while a message is a whole cycle old |
| `PublisherIds.InOrderNeverCollides` | src/bench/publisher.rs:103-108 | with window ≤ 65535 and completion in send order no entry is ever overwritten, over any number of wrap-arounds |
| `PublisherIds.InOrderReuseIffWindowTooWide` | src/bench/publisher.rs:103-108 | with completion in send order, some run reuses an identifier iff the window exceeds 65535 and the quota exceeds 65535 |
| `PublisherIds.NarrowOrShortNeverReuses` | src/bench/publisher.rs:263-295 | no reachable state has an overwritten entry when the window is at most 1 or the quota at most 65535 |
| `BrokerModel.ClientMovesToken` | src/bench/publisher.rs:146-197 | every step of the publisher moves exchange tokens between phases; only an insert creates one and only a terminal acknowledgement consumes one |
| `BrokerModel.EntriesFollowTokens` | src/bench/publisher.rs:37-64 | an identifier enters and leaves the in-flight map exactly with its token |
| `BrokerModel.StepKeepsTokenInv` | src/bench/publisher.rs:146-197 | publisher, links and broker together keep: no in-flight identifier is lost, and without reuse each has exactly one token and no other identifier has any |
| `BrokerTheorems.AnswersAreExpected` | src/bench/publisher.rs:146-197 | a conforming broker sends nothing the ack task ignores and, without reuse, no unknown identifier |
| `BrokerTheorems.ExchangePhases` | src/bench/publisher.rs:146-197 | an identifier is in flight iff it is in one of: awaiting the first answer, queued for PUBREL, awaiting PUBCOMP; never in two; at QoS 1 only the first exists |
| `BrokerTheorems.FreedExactlyOnce` | src/bench/publisher.rs:37-64 | permits returned = terminal acknowledgements handled; at most one sample per accepting one; permits and wire balance |
| `BrokerTheorems.EachMessageFreedOnce` | src/bench/publisher.rs:37-64 | per identifier: messages sent under it = terminal acknowledgements handled for it + 1 if one is in flight, so each message ends exactly once |
| `BrokerTheorems.FailedWriteAgainstConformingBroker` | src/bench/publisher.rs:309-318 | before any reuse, a failed write finds its entry still in the map and the permits add up to the window again |
| `Progress.StuckIffDeadlocked` | src/bench/publisher.rs:216-261 | before stop, a state (after any reuse) has no progress step iff QoS is 2, the writer waits on `acquire`, in-flight + overwritten = window, every in-flight identifier is in the PUBREL channel and nothing is in transit |
| `Progress.DeadlockedIsSettled` | src/bench/publisher.rs:216-261 | before the first reuse the full window and the channel alone decide: nothing can then be in transit |
| `Progress.Qos1NeverStuck` | src/bench/publisher.rs:216-261 | at QoS 1 some step advances in every unfinished state, whatever was reused |
| `Progress.EveryStepSpends` | src/bench/publisher.rs:216-318 | every progress step of publisher, links or broker strictly decreases one non-negative measure |
| `Progress.ProgressEnds` | src/bench/publisher.rs:216-318 | every schedule of progress steps is bounded by the measure and ends with the quota met or in a QoS 2 deadlock |
| `Progress.Qos1MeetsQuota` | src/bench/publisher.rs:216-318 | at QoS 1, for every window and quota, every schedule has at most 40·quota + 30 steps and, when it can go no further, has published exactly the quota |
| `Deadlock.DeadlockHappens` | src/bench/publisher.rs:216-261 | a run with a conforming broker into the QoS 2 deadlock, for every window and every larger quota |
| `Deadlock.DeadlockIffQuotaExceedsWindow` | src/bench/publisher.rs:216-261 | a QoS 2 publisher can get stuck before stop iff its quota exceeds its window |
| `Deadlock.Qos2MeetsQuotaWithinWindow` | src/bench/publisher.rs:216-318 | at QoS 2 with quota ≤ window every schedule has at most 40·quota + 30 steps and, when it can go no further, has published exactly the quota |
| `Deadlock.StopReachesTail` | src/bench/publisher.rs:328-338 | from a deadlock a run with a stop request leads to the tail and writes the PUBREL of every queued identifier in order |
| `Deadlock.TailReleasesEverything` | src/bench/publisher.rs:328-338 | in every run, what was accepted in any earlier state has its PUBREL on the wire, in order, when the publisher leaves, unless a write failed or the window closed |
| `Deadlock.StopResolvesDeadlock` | src/bench/publisher.rs:328-338 | every run from a deadlock that leaves without a failed write or a closed window has first written the PUBREL of every outstanding message |
| `Deadlock.NothingInTransitMeansDone` | src/bench/publisher.rs:328-338 | with nothing in transit, queued or being written the in-flight map is empty, so the tail ends by itself, even after reuse |
| `Deadlock.TailNeverStuck` | src/bench/publisher.rs:328-338 | in the tail, while a message is outstanding, some step of the drain, the ack task, the links or the broker towards its completion is possible |
| `ConformingReuse.SlowAnswerForcesReuse` | src/bench/publisher.rs:293-295 | a run, with complete QoS 1 or QoS 2 exchanges for every message but the first, in which the 65536th overwrites the first |
| `ConformingReuse.ConformingReuseIff` | src/bench/publisher.rs:103-108 | against a conforming broker, at QoS 1 and 2, reuse is reachable iff window ≥ 2 and the quota exceeds 65535 |
| `ConformingReuse.ReuseIffTwoInFlight` | src/bench/publisher.rs:103-108 | against an arbitrary broker the condition is the same |
| `ConformingReuse.ConformingSurplusIff` | src/bench/publisher.rs:309-318 | against a conforming broker more permits than the window can be in circulation iff window ≥ 2 and the quota exceeds 65535 |
| `PublisherCode.Publisher.DrainPubrels` | src/bench/publisher.rs:66-78 | the drain loop ends, including for identifiers that arrive meanwhile; it succeeds iff every write does, and otherwise stops at the first that fails, at the failure exit or with its caller |
| `PublisherCode.Publisher.FailWrite` | src/bench/publisher.rs:309-318 | a failed write counts the error, removes the entry and returns the permit, exactly as the transition system says |
| `PublisherCode.Publisher.TakeEntry` | src/bench/publisher.rs:46-49 | first half of `complete_ack`: refusal tallied, entry removed |
| `PublisherCode.Publisher.GiveBack` | src/bench/publisher.rs:50-63 | second half: permit returned, success counted and, after the warm-up, timed |
| `PublisherCode.Publisher.Pace` | src/bench/publisher.rs:227-237 | the writer goes on only once its deadline has passed, leaves on a stop request, and otherwise waits only when nothing more happens |
| `PublisherCode.Publisher.AcquirePermit` | src/bench/publisher.rs:239-261 | a permit held, a stop, a closed window, or an exhausted open window with no stop request and nothing left to happen: nothing else |
| `PublisherCode.Publisher.PublishNext` | src/bench/publisher.rs:263-318 | iff the link takes the write, one more message is sent and the loop top reached; else the failure exit with `sent` unchanged |
| `PublisherCode.Publisher.SendOneMore` | src/bench/publisher.rs:216-319 | one iteration sends exactly one more message below the quota, or ends the loop in one of its ways; it ends if a stop had been requested, and fails iff a write does |
| `PublisherCode.Publisher.SendLoop` | src/bench/publisher.rs:216-319 | the ways the loop can end, or wait after everything has happened, for every behaviour of the other task at every await; with a quota it always ends or waits |
| `PublisherCode.Publisher.DrainTail` | src/bench/publisher.rs:328-338 | the tail reaches the disconnect with an empty in-flight map, or when its limit has passed, or when nothing more happens; while the link works, everything queued at its start has had its PUBREL, in order |
| `PublisherCode.Publisher.Finish` | src/bench/publisher.rs:339-389 | DISCONNECT is written iff the link works; TimedOut iff the read side has not ended, and only after the limit; otherwise a read error, else a closed window, else Ok |
| `PublisherCode.Publisher.Await` | src/bench/publisher.rs:113-205 | during an await exactly the steps listed for it happen, those that are possible, in order |
| `PublisherCode.Publisher.Run` | src/bench/publisher.rs:120-389 | the object always ends in a reachable state of the transition system; the outcome is determined by how the read side ended, the window and the limit, and is a write failure only if a write failed; without one, everything has happened and the writer still waits, or there is no quota |
| `WsByteStream.PollReadConserves` | src/transport/ws.rs:92-122 | bytes handed over ++ unread ++ still to come is unchanged by a poll, which never exceeds the destination |
| `WsByteStream.PollReadOutcome` | src/transport/ws.rs:92-122 | the buffer first, as much as fits; otherwise the first answer carrying bytes, an end, an error or Pending decides, and exactly the answers up to it are consumed; a zero-byte Ready happens only at Close or end |
| `WsByteStream.ReadRunConserves` | src/transport/ws.rs:92-122 | byte conservation over any sequence of polls, frame splits, control frames and Pending points |
| `WsByteStream.SplitsAreUnobservable` | src/transport/ws.rs:60-66 | two frame splits of the same bytes deliver the same bytes, in any destinations |
| `WsByteStream.EnoughPollsDeliverAll` | src/transport/ws.rs:92-122 | polls with room, as many as there are answers and bytes, deliver every byte of an uninterrupted stream |
| `WsByteStream.FlushConserves` | src/transport/ws.rs:140-173 | until the sink fails, frames ++ buffer is unchanged by a flush |
| `WsByteStream.FlushAsAnswered` | src/transport/ws.rs:140-173 | a flush always asks the sink; its result is the last answer; the buffer leaves, as one frame, exactly when the sink takes it, and is lost only if the sink refuses it after being ready |
| `WsByteStream.SendingMeansUnfinished` | src/transport/ws.rs:140-173 | over every run until a failure, a send is in progress iff some flush handed over a frame and it and all later ones were Pending; the buffer is exactly what was written since |
| `WsByteStream.ReadyLeavesBytesIffWrittenSince` | src/transport/ws.rs:143-152 | over every run until a failure, a Ready flush leaves bytes behind iff something was written after that flush, and leaves exactly that |
| `WsByteStream.ReadyWithBytesBuffered` | src/transport/ws.rs:143-152 | a run in which a Ready flush leaves any given bytes behind |
| `WsByteStream.WriteRunConserves` | src/transport/ws.rs:129-173 | frames ++ buffer = everything accepted, in order, for any interleaving of writes, flushes and Pending |
| `WsByteStream.FlushSendsOneFrame` | src/transport/ws.rs:140-173 | a batch flushed to Ready is one frame (none if empty) and leaves the adapter clean |
| `WsByteStream.OneFramePerBatch` | src/transport/ws.rs:60-66 | under write-then-flush-to-Ready, the frames are exactly the non-empty batches |
| `WsByteStream.RoundTrip` | src/transport/ws.rs:92-173 | writer composed with reader: delivered ++ unread ++ in transit ++ buffered = everything written |
| `WsByteStream.RoundTripDeliversAll` | src/transport/ws.rs:92-173 | once the write buffer is flushed, enough polls deliver exactly the bytes written |
| `WsByteStream.Adapter.ReadInto` | src/transport/ws.rs:92-122 | the loop computes the poll the lemmas are about, on the object's fields |
| `WsByteStream.Adapter.WriteBytes` | src/transport/ws.rs:129-138 | accepts everything, changes only the write buffer |
| `WsByteStream.Adapter.FlushFrames` | src/transport/ws.rs:140-173 | the loop computes the flush the lemmas are about, in at most two rounds |
| `LatencyStats.SortedIsUnique` | src/bench/stats.rs:52-55 | a sorted vector is determined by its multiset, so any correct sort gives the same statistics |
| `LatencyStats.NearestRank` | src/bench/stats.rs:80-88 | for 0 < p ≤ 1 and every u: at least p·n samples are ≤ u iff the percentile is ≤ u; the percentile is a sample |
| `LatencyStats.PercentileMonotone` | src/bench/stats.rs:80-88 | percentiles are monotone in p and between the extremes |
| `LatencyStats.SummaryDependsOnMultiset` | src/bench/stats.rs:48-66 | the summary depends only on the multiset of samples |
| `LatencyStats.SummaryIsSane` | src/bench/stats.rs:48-66 | min ≤ p50 ≤ p95 ≤ p99 ≤ max, min ≤ mean ≤ max, min and max are attained bounds, the 128-bit sum and 64-bit mean do not overflow |
| `LatencyStats.SummaryPercentiles` | src/bench/stats.rs:48-66 | p50, p95 and p99 are the least values with 50, 95 and 99 of a hundred of the recorded samples at or below them, for every candidate |
| `LatencyStats.SummaryMean` | src/bench/stats.rs:56-64 | the mean is the sum of the recorded samples over their number, rounded down |
| `LatencyStats.NoSummaryIffEmpty` | src/bench/stats.rs:48-51 | there is no summary iff nothing was recorded |
| `LatencyStats.SummarizeSorts` | src/bench/stats.rs:52-55 | taking a summary leaves the vector sorted and marked so |
| `LatencyStats.PerformAllKeepsSamples` | src/bench/stats.rs:26-55 | any sequence of record, merge and summary keeps the multiset and an honest `sorted` flag |
| `LatencyStats.HistoryIsIrrelevant` | src/bench/stats.rs:26-66 | two histories with the same samples report the same summary |
| `LatencyStats.Total` | src/bench/stats.rs:56-56 | the summing loop |
| `LatencyStats.Samples.Add` | src/bench/stats.rs:26-29 | appends and clears the flag |
| `LatencyStats.Samples.Absorb` | src/bench/stats.rs:32-35 | appends the other vector and clears the flag |
| `LatencyStats.Samples.Summarise` | src/bench/stats.rs:48-66 | sorts at most once, keeps the flag honest, and reports the summary of what was recorded whether or not it was already sorted |
| `BenchRun.QuotaPartition` | src/bench/mod.rs:124-132 | quotas sum to the count, never increase with the index, differ by at most 1 |
| `BenchRun.RunSendsTheCount` | src/bench/publisher.rs:208-223 | over every run of all publishers the total published is at most the count, and equal when each ends by quota |
| `BenchRun.QuotaOnlyForCounts` | src/bench/mod.rs:124-128 | there is no quota iff only a duration limits the run |
| `BenchRun.MergedHoldsEverything` | src/bench/mod.rs:177-193 | the merged samples are exactly those of the finished tasks, in number and as a multiset |
| `BenchRun.RunSummary` | src/bench/mod.rs:177-193 | the summary of the run is the summary of everything the finished tasks recorded, in any order |
| `BenchRun.JoinTasks` | src/bench/mod.rs:177-193 | the loop merges them; each task has its own entry, None iff it finished, else its own error or the panic; failures and panics do not stop the join |
| `Measurement.MostSignificantFirst` | src/bench/payload.rs:27-29 | byte i of a field is its i-th most significant byte |
| `Measurement.Build` | src/bench/payload.rs:25-31 | the buffer filled in place is the specified payload |
| `Measurement.DecodeBuild` | src/bench/payload.rs:25-44 | for every size, even below 16, decode returns the header, the length is max(size, 16), the rest is zero |
| `Measurement.EndToEndTiming` | src/bench/subscriber.rs:98-121 | a message delivered unchanged names its publisher and number, is sampled iff sent after the warm-up, and the sample is exactly receive time − send time while that fits 64 bits |
| `Measurement.SampleIff` | src/bench/subscriber.rs:113-121 | any payload is timed iff it has 16 bytes and claims a time the clock can hold, not before the end of the warm-up and not after its arrival |
| `Measurement.ReplyMeetsDuty` | src/bench/subscriber.rs:126-141 | the reply to a packet gives, with success, exactly the answer the packet asks for under its own identifier |
| `Measurement.RepliesMeetDuties` | src/bench/subscriber.rs:126-141 | while the loop goes on, the replies written are exactly the answers asked for |
| `Measurement.EndingTells` | src/bench/subscriber.rs:81-160 | which turn ends the loop and how: stop and end of stream keep the samples, a read error, a DISCONNECT or an unwritable reply do not |
| `Measurement.SamplesBounded` | src/bench/subscriber.rs:98-121 | samples never exceed messages received, whatever the payloads |
| `Measurement.HandleArrival` | src/bench/subscriber.rs:98-141 | one packet: counted, timed and answered per QoS; fails iff an answer is due and cannot be written |
| `Measurement.ReceiveLoop` | src/bench/subscriber.rs:81-160 | the loop ends at the first stop signal, end of stream, read error, DISCONNECT or failed reply; it counts, times and answers exactly what came before, and the samples survive only the first two |
| `Lockstep.CodeIsInLockstep` | src/publish.rs:103-204 | for every payload list and every conforming broker the conversation follows the reference protocol: own identifier, own acknowledgements, PUBREL only after a non-error PUBREC, next message only after the last acceptance, although identifiers are never compared |
| `Lockstep.CompletedIffDelivered` | src/publish.rs:103-204 | against a conforming broker `pub` succeeds iff every payload was sent, in order, and finally accepted under its own identifier |
| `Lockstep.PubOutcome` | src/publish.rs:103-204 | for every inbox at QoS 1 and 2: what is sent, consumed and left, and the result, read off the packets other than PINGRESP: completed iff enough accept in a row, else waiting, rejected with the code of the first refusal or DISCONNECT, a protocol error, or connection loss |
| `Lockstep.AnsweredMeansCompleted` | src/publish.rs:125-191 | if each message gets its accepting acknowledgements, `pub` completes, has sent everything, consumed every answer and left nothing but PINGRESP |
| `Lockstep.Qos0Outcome` | src/publish.rs:125-152 | at QoS 0 everything is sent without an identifier and nothing is read |
| `Lockstep.AtMostOneOwed` | src/publish.rs:125-168 | at every moment of such a conversation the broker owes at most one answer |
| `Lockstep.Client.NextPacketId` | src/client.rs:193-199 | the n-th identifier of the cycle, never 0 |
| `Lockstep.Client.AwaitAck` | src/publish.rs:172-191 | the loop consumes up to and including the first thing that is not PINGRESP and classifies it, connection loss included |
| `Lockstep.Client.PublishMessage` | src/publish.rs:125-168 | one handshake as specified, one identifier used at QoS 1/2 and none at QoS 0 |
| `Lockstep.Client.PublishLines` | src/publish.rs:103-116 | the line loop computes the conversation the lemmas are about and stops at the first failure |
| `TerminalEscape.WritePayload` | src/subscribe.rs:181-201 | the index-tracking loop equals escaping byte by byte; without a terminal the bytes are unchanged |
| `TerminalEscape.EscapeConcat` | src/subscribe.rs:181-201 | escaping distributes over concatenation |
| `TerminalEscape.NothingUnprintable` | src/subscribe.rs:181-201 | the output has no control byte but tab and no DEL; its length is input + 3 × escaped bytes |
| `TerminalEscape.EscapeRoundTrip` | src/subscribe.rs:181-201 | reading `\xHH` back gives every byte of an input without a backslash |
| `TerminalEscape.EscapeIdempotent` | src/subscribe.rs:181-201 | escaping twice is escaping once |
| `TerminalEscape.AmbiguousIff` | src/subscribe.rs:181-201 | some other input has the same output iff the input contains a control byte or the literal four-byte spelling of one |
| `TerminalEscape.InjectiveWithoutBackslash` | src/subscribe.rs:181-201 | inputs without a backslash, controls included, have different outputs |

## Left out

- The MQTT codec and framing: they live in another crate. Packets are a datatype and `is_error` is a code of at least 0x80.
- Sockets, TLS, stream splitting, the WebSocket upgrade and the CONNECT handshake: calls into other libraries.
- The command-line surface, passwords, warnings, topic strings and client identifiers: configuration that no other property depends on.
- Table and JSON rendering, `per_second`, `collect_failures` labels, `bytes_sent` and `bytes_received`: formatting or one addition each.
- IEEE-754 rounding in `percentile`, `Schedule` and the per-publisher rate: fractions are exact rationals, the interval a whole number of clock units.
- The runtime's scheduling, timers and memory orderings: steps are interleaved nondeterministically, and the 5-second and drain timeouts are choices that may fall either way. A failed PUBLISH write (count the error, remove the entry, drop the permit) is one step.
- A dropped stop channel and a panicking ack task: both end the publisher by paths that touch no shared state.
- Exactly-once on the receiving side: neither subscriber removes duplicates, so it is not a property of this code.
- `recv_keepalive`, `request` and the SUBACK loops: they depend on what cancelling a library read does, which is not visible here.
- That a payload size below 16 disables end-to-end timing (`src/bench/mod.rs:105-107`): the subscriber does not consult that flag and times such messages, as `EndToEndTiming` states.
- PublisherCode.Publisher.Run: a publisher without a quota may send for ever, so `rounds` says how many of its messages to look at, and `world` is finite; the theorems about reachable states have no such bound.
- PublisherCode.Publisher.SendLoop: looks at `rounds` messages when there is no quota, for the same reason.
- BrokerTheorems.ExchangePhases: speaks of runs before a write failure and before the first reuse; `ConformingReuse.ConformingReuseIff` says when reuse is possible, and after it two messages share one identifier.
- PublisherTheorems.PubrelOrder: ends with the first failed write or with the publisher, since the channel's receiver is dropped there.
- WsByteStream.PollReadConserves: `poll_shutdown` only forwards to the inner stream and is not modelled.
- LatencyStats.Samples.Summarise: the library sort is the function `Sort`; the vector is a `seq`, so the in-place exchange of elements is not modelled.
- Lockstep.Client.Send: a failing write, which ends `pub` at once, is not modelled.
