# A verified model of the distributed load tester

The program under study is an HTTP load tester. An orchestrator splits a load profile over any
number of load generators. Each generator paces its share as a Poisson process, runs every
transaction as a concurrent task on a pool of virtual users, counts results in a tracker made of
separate atomics, and streams one report per interval. The orchestrator merges the reports round by
round, labels them by counting, writes them out and decides whether the run was valid.

The model has five cores and some smaller parts.

| files | what they model |
|---|---|
| `Bytes`, `Codec`, `CodecProofs`, `Utf8`, `Wire`, `Buffers`, `Framing`, `Messages` | the hand-written wire codec, its buffers, the back-patched frame header, the incremental decoder, and the message types that really travel |
| `Schedule`, `Pacer`, `WaitUntil` | arrival times, the pacing thread, sleeping by halves |
| `Reports`, `Tracker`, `UserPool`, `Generator`, `GeneratorSums`, `GeneratorProofs`, `GeneratorTheorems`, `GeneratorHistory` | one load generator as a state machine over atomic steps: pacer, tasks, pool, tracker, reporting loop |
| `Distribute`, `Collect`, `Collection`, `Phases`, `Cluster`, `Barrier` | splitting, the round-robin merge, labels and drop summary, the whole system end to end, and the connect/configure/start barriers |
| `Script`, `VirtualUser`, `Csv` | script cursors and jumps, virtual users, the transactions file |
| `Arithmetic`, `Vectors`, `Wrappers` | helpers |

How to read the state machines. In `Generator` every `fetch_add`, every `swap`, every push under a
lock, every semaphore operation and every channel operation is one action, and a run is any
sequence of actions for which `Execute` is `Some`. A lemma about `Execute(cfg, users, actions)` is
therefore about every interleaving, every outcome of a request, every timeout and every random
choice. `Cluster` puts any number of such runs behind the collecting loop; `Collection` shows that
the timing of deliveries between them cannot be seen. `Barrier` works the same way, with a fault
possible at every send and receive. `Generator` lets the pacer dispatch any number of transactions before
it announces a step; which ones it dispatches, and when, is the subject of `Schedule` and `Pacer`.

Where the code is a loop over mutable state, the model is a method proved against a function:
`Buffers` against `Codec`, `SerializeMessage` and `DecodeMessage` against `Frame` and
`DecodeFrame`, `ArrivalSchedule.Next` against the per-step specification, `RunSchedule` against
`Trace`, `CollectReports` against `CollectRound`, `WriterLoop` against `Labelled`, and so on.

Properties one might expect and the program does not have, each with the failing input and the exact
condition under which it does hold:

- The pacer need not end. It ends exactly when in every step some sum of gaps reaches the deadline
  (`ScheduleEndsIff`). Gaps are whole nanoseconds, so in a step of more than 74 thousand million requests
  per second every gap of the sampler rounds to zero, and the step has no end (`FastStepsNeverEnd`); the
  profile row `1e-9,4294967295` is accepted and gives one (`AcceptedProfileCanRunForever`).
- `RevertHandle::revert` is documented to make the next call produce the same spec as before. The cursor
  is put back but the store is not (`RevertCanChangeTheSpec` is such a run). The same spec is produced
  exactly when, call by call, the replies do not depend on the store up to jumps to functions of which the
  same holds (`RevertRepeatsIffIndifferent`); a static spec and functions that do not look at the store are
  the plain cases (`StoreIndependentRevertRepeats`).
- `Finished` does not mean that everything was reported (`FinishedCanLeaveResultsBehind`): the loop takes no
  snapshot after it has read an in-flight count of zero. The reports of a class are complete exactly when
  nothing of it was counted after the last snapshot took it and nobody is about to count it
  (`CompleteAtFinishedIff`); every result is reported exactly when none was pushed after the last snapshot
  took the results and every transaction has finished logging (`ResultsCompleteAtFinishedIff`); and every
  result, count and sum when that holds of each field (`EverythingReportedAtFinishedIff`).
- So a run can be declared valid although a load transaction was dropped (`UnreportedDropStaysValid`). The
  verdict reflects all drops exactly when no generator holds one back or is still logging one
  (`VerdictReflectsAllDrops`).
- Generators that all finish can still make the collection fail: drain reports of one round must be for the
  same second. It succeeds exactly when, for each drain report, the generators that begin it read their clocks
  within the same second (`CollectsAllIffSameSeconds`).
- The start is not all or nothing (`StartCanBePartial`): all generators are told exactly when every start was
  attempted and no failed start also failed to arrive (`AllToldToStartIff`); `AllToldToAbortIff` says the same
  of the abort.
- Resolving a jump need not end (`SelfJumpOverflows`): it overflows a stack exactly when more dynamic specs
  are linked by jumps than the stack has room for (`OverflowIffPath`).
- The decoder's length check compares a number of elements with a number of bytes. A type round-trips for
  all its values exactly when no sequence or map in it has elements that may take no bytes
  (`RoundTripsIffSafe`); all messages of this program do (`MessageTypesAreSafe`).

## Model

| member | source | states |
|---|---|---|
| Buffers.BytesSerializer.Serialize | src/net/ser.rs:42-247 | appends exactly the encoding of the value to whatever the buffer held |
| Buffers.BytesDeserializer.Deserialize | src/net/de.rs:57-334 | returns what the decoding function says, error by error, and leaves exactly the undecoded bytes in the buffer |
| Buffers.BytesDeserializer.DeserializeAndEnsureLength | src/net/de.rs:29-37 | a length prefix is taken only if at least that many bytes follow, whatever the length counts |
| CodecProofs.RoundTrip | src/net/de.rs:238-334 | for every type, value and trailing bytes: decoding the encoding gives back value and trailing bytes exactly when every element count is covered by the bytes after it, and an unexpected end otherwise |
| CodecProofs.SafeCountsFit | src/net/de.rs:29-37 | if every sequence element and map entry takes a byte, the length check never rejects what was encoded |
| CodecProofs.SafeRoundTrip | src/net/ser.rs:42-247 | for such types the round trip holds for every value and every trailing bytes |
| CodecProofs.SeqRoundTripsIffElementsTakeBytes | src/net/de.rs:361-404 | a sequence type whose element type round-trips does so for all its values exactly when its elements always take bytes |
| CodecProofs.RoundTripsIffSafe | src/net/de.rs:29-37 | for every inhabited type small enough for 64-bit lengths: it round-trips with all values and trailing bytes exactly when no sequence or map inside it has elements that may take no bytes |
| CodecProofs.Canonical | src/net/de.rs:39-205 | whatever bytes decode, the decoded value is well typed and encodes to precisely the bytes consumed: no two byte strings stand for one value |
| Utf8.WellFormedIffSpelled | src/net/de.rs:157-173 | bytes are accepted as text exactly when they are the encodings of Unicode scalar values, one after the other |
| Bytes.BigEndianAt | src/net/ser.rs:67-85 | byte k of an integer on the wire is its k-th base-256 digit from the front |
| Wire.SignedIsTwosComplement | src/net/ser.rs:47-65 | the bytes of a signed number stand for it modulo the span of its width |
| Wire.NumberSamples | src/net/ser.rs:47-148 | known bytes of numbers, characters and variant indices |
| Wire.FlagSamples | src/net/ser.rs:42-131 | known bytes of flags and options |
| Wire.CountSamples | src/net/ser.rs:102-118 | known bytes of text and of byte strings, with a count of eight bytes |
| Wire.ListSamples | src/net/ser.rs:180-190 | known bytes of a sequence, with a count, and of a tuple, without one |
| Wire.DecodesIffEncoded | src/net/de.rs:39-404 | bytes decode exactly when they begin with the encoding of some value of the type whose counts fit, and then to that value |
| Wire.ErrorsAreJustified | src/net/de.rs:39-404 | an invalid flag, character, variant or text that the decoder complains of, at any depth, is among the bytes, is invalid, and is so for a part of the type |
| CodecProofs.MapRoundTrip | src/net/ser.rs:215-223 | entries of a map in any order arrive, and collecting them gives the map again |
| CodecProofs.ListingsAreDistinctEncodings | src/net/de.rs:275-284 | any two different listings of a map, of any key and value types, are different encodings that both decode to that map |
| CodecProofs.MapsAreNotCanonical | src/net/de.rs:275-284 | for any key and value types, a map of two entries has two encodings, so canonical decoding stops at maps |
| Framing.SerializeMessage | src/net/protocol.rs:56-127 | writing the header with size zero and patching it in place appends exactly one frame |
| Framing.DecodeMessage | src/net/framer.rs:153-179 | no message leaves the buffer as it was; a message, or a payload error, consumes exactly one frame; a header error consumes nothing |
| Framing.FrameBytes | src/net/protocol.rs:80-127 | a frame byte by byte: AB CD, version 1, flags 0, the payload size digit by digit, the payload |
| Framing.HeaderDecides | src/net/protocol.rs:129-157 | which headers are refused, with which error and in which order, how long the decoder waits, and that the flags do not matter |
| Framing.FrameRoundTrip | src/net/framer.rs:118-179 | a frame decodes to its message and leaves what follows, exactly when the codec's counts fit |
| Framing.PartialFrame | src/net/framer.rs:157-172 | every proper part of a frame asks for more bytes |
| Framing.ChunkingIsInvisible | src/net/framer.rs:153-179 | for any bytes, valid or not, feeding them in chunks or at once ends in the same messages, buffer and error |
| Framing.DrainOfPrefix | src/net/framer.rs:153-179 | after any number of bytes, exactly the whole frames have been decoded and exactly the bytes behind them are buffered |
| Framing.Delivery | src/net/framer.rs:118-179 | for any messages and any chunks of their frames: after each chunk the whole frames so far, at the end all messages in order and an empty buffer |
| Messages.MessageTypesAreSafe | src/wire/report.rs:1-8 | every type that travels meets the condition of the round trip |
| Messages.MessagesArrive | src/net/framer.rs:118-179 | so every list of real messages arrives under any chunking |
| Schedule.FromProfile | src/load/schedule.rs:23-58 | each step is paced over the time since the latest earlier deadline, not the previous one: rate times that time is the number of requests, and the rate is zero if the time is not positive |
| Schedule.LatestDeadlineIsLatest | src/load/schedule.rs:31-34 | no earlier deadline is later than the one a step is paced from |
| Schedule.FromWarmup | src/load/schedule.rs:43-51 | one-second steps, each starting where the one before ends and paced like a profile step with that many requests |
| Schedule.ArrivalSchedule.Next | src/load/schedule.rs:102-124 | for any stream of gaps the arrivals so far are those of the per-step specification; none is left exactly when every step has its longest run of gap sums below its deadline, and then samples drawn are arrivals plus active steps |
| Schedule.CompleteRunIsUnique | src/load/schedule.rs:80-81 | the specification determines the schedule: one stream of gaps has one set of arrivals |
| Schedule.ArrivalsAreOrdered | src/load/schedule.rs:70-81 | offsets and step indices never go back, and each arrival lies between the start and the deadline of its step |
| Schedule.SamplesAreArrivalsAndOvershoots | src/load/schedule.rs:105-123 | the sample position of the specification, to which `Next` ties its counter, is arrivals plus one discarded overshoot for each step with a positive rate |
| Schedule.ScheduleEndsIff | src/load/schedule.rs:105-123 | for any stream of gaps: the first n steps have a whole history exactly when in each of them, from wherever the samples are, some gap sum reaches the deadline |
| Schedule.PositiveSamplesEnd | src/load/schedule.rs:108-112 | the schedule ends if at the rate of every active step there is always another sample that does not round to zero |
| Schedule.FastStepsNeverEnd | src/load/schedule.rs:108-118 | with gaps below 37 means rounded to nanoseconds, a step of positive length that is too fast has no whole history |
| Schedule.AcceptedProfileCanRunForever | src/config/profile.rs:33-64 | a profile of one row that the configuration accepts, and that however it is paced has no whole history |
| Pacer.RunSchedule | src/dispatch.rs:97-140 | for every schedule whose steps end: with a receiver that stays, the log of dispatches and messages is the full trace of all arrivals and every step is announced; if the receiver goes away, the log is a prefix of every full trace the schedule could have led to |
| Pacer.TraceIsOrdered | src/dispatch.rs:88-96 | nothing of a step comes after its announcement, and steps are announced in order, once each |
| Pacer.TraceAnnouncesAll | src/dispatch.rs:111-139 | every step is announced with the time of its final dispatch, and with none if it had no arrival |
| Pacer.LastTimeIsFinal | src/dispatch.rs:111-129 | the time announced with a step is that of its final dispatch, and missing exactly when it had none |
| Pacer.TraceHasAllDispatches | src/dispatch.rs:111-129 | the dispatches in the trace are all dispatches made, in order |
| WaitUntil.WaitUntil | src/load/time/wait_until.rs:22-35 | never returns before the deadline, and not after a reading past it: every reading but the last is at or before the deadline; the number of sleeps is logarithmic in the time left at the first reading over the threshold; if no sleep takes more than twice its length, every recorded wake-up is at or before the deadline |
| WaitUntil.Spin | src/load/time/wait_until.rs:27-32 | spinning ends at the first reading at or after the deadline, if the clock does not stand still for ever |
| Tracker.SoloTracker.LogResult | src/tracker.rs:19-41 | undisturbed, one result enters total and interval once each |
| Tracker.SoloTracker.IntervalStatistics | src/tracker.rs:43-64 | undisturbed, a snapshot is the whole interval and leaves an empty one |
| Reports.StatsSumOfConcat | src/tracker.rs:191-215 | summing statistics does not depend on how they are grouped |
| Reports.SumKeepsOrder | src/tracker.rs:191-215 | the results of a sum are those of its parts, one part after the other |
| UserPool.Pool.TryAcquire | src/virtual_user/pool.rs:155-166 | undisturbed, takes the free user that the random number picks, and its permit, or nothing if none is free |
| GeneratorProofs.EveryRunKeepsInvariant | src/dispatch.rs:74-86 | after every interleaving: users in the pool are permits plus tasks between permit and user; users are conserved; dispatches are tasks; nothing logged is lost; reports follow the plan; the in-flight count is behind the counters |
| GeneratorTheorems.TakersFindUsers | src/virtual_user/pool.rs:162-166 | whoever holds a forgotten permit finds a user, so the random index is never drawn from an empty range |
| GeneratorTheorems.UsersAreExclusive | src/virtual_user/pool.rs:146-177 | with distinct users, no user is held by two transactions or held and pooled at once, in any interleaving |
| GeneratorTheorems.PoolRefills | src/virtual_user/pool.rs:169-177 | once all transactions are logged the pool holds exactly the initial users, with a permit for each |
| GeneratorTheorems.EachUserReturnsOnce | src/dispatch.rs:148-174 | in every run each task takes at most one user and puts it back exactly once, also when it came too late |
| GeneratorTheorems.NobodyWaitsForAFreeUser | src/dispatch.rs:160-168 | a transaction begins to wait only while every user in the pool is promised to someone |
| GeneratorTheorems.ChecksFollowWaits | src/dispatch.rs:160-172 | in every run the clock is checked again, once, for exactly those transactions that waited for a user, before they are sent |
| GeneratorTheorems.ResultIsSettledOnce | src/dispatch.rs:77-86 | in every run a transaction's result is settled by exactly one of its steps, too late, no user in time, or the answer, and that result is the one it logs |
| GeneratorTheorems.TransactionsOnlyAdvance | src/virtual_user/user.rs:127-135 | a task's steps only shorten what is left, and its result never changes once it has one |
| GeneratorTheorems.NoTransactionIsStuck | src/dispatch.rs:148-174 | in every reachable state a task can go on exactly when it has not finished logging |
| GeneratorTheorems.DispatchAccounting | src/dispatch.rs:74-86 | in every reachable state dispatched is logged plus live plus the one about to be spawned |
| GeneratorTheorems.InflightIsNotInTotals | src/tracker.rs:80-85 | in every reachable state dispatched minus all totals is the number of transactions in no total yet, plus the one about to be spawned |
| GeneratorTheorems.ClassAccounting | src/tracker.rs:19-64 | at any moment the total of a class is what was reported, plus interval and running snapshot, plus tasks past the total but not yet in the interval |
| GeneratorTheorems.ResultAccounting | src/tracker.rs:128-158 | each logged result is in exactly one of the reports, the running snapshot and the interval |
| GeneratorTheorems.QuiescentSnapshotSettles | src/tracker.rs:43-64 | in any phase: one snapshot begun when everything dispatched is logged makes the reports sent equal to the totals, in counts and in every result, whatever else happens until its report is sent as long as nothing is dispatched |
| GeneratorTheorems.FinishedMeansAllCounted | src/load_generator/phases/ready.rs:187-203 | although its loads are not atomic together, an in-flight count of zero means every dispatched transaction is in a total |
| GeneratorTheorems.ReportedAtFinished | src/load_generator/phases/ready.rs:187-203 | at `Finished` the reports fall short of the totals by exactly what is left in the interval and between two bumps, and are complete exactly if nothing is |
| GeneratorTheorems.CompleteAtFinishedIff | src/load_generator/phases/ready.rs:187-203 | in terms of the run: the reports of a class are complete at `Finished` exactly when the class was not counted after the last snapshot took it and nobody is about to count it |
| GeneratorTheorems.ResultsCompleteAtFinishedIff | src/load_generator/phases/ready.rs:187-203 | in terms of the run: the reports hold the result of every transaction at `Finished` exactly when no result was pushed after the last snapshot took the results and every transaction has finished logging |
| GeneratorTheorems.EverythingReportedAtFinishedIff | src/load_generator/phases/ready.rs:187-203 | every result, class count and service sum is reported at `Finished` exactly when every transaction has finished logging and nothing was added to any field after that field's last swap |
| GeneratorTheorems.FinishedCanLeaveResultsBehind | src/load_generator/phases/ready.rs:187-203 | two runs that finish with a result that no report holds: pushed after the last snapshot, or counted and not yet pushed |
| GeneratorTheorems.UpdatesFollowThePlan | src/load_generator/phases/ready.rs:104-206 | in every run the updates are the planned warm-up, pause and load reports in order, then drain reports, then one `Finished` |
| GeneratorTheorems.ReportWasSentInItsPhase | src/load_generator/phases/ready.rs:104-206 | in every run the k-th report was sent by an action taken in the phase that number k belongs to |
| GeneratorHistory.ReportsCarryTheirBatchTimes | src/load_generator/phases/ready.rs:143-180 | in every run the report of a paced step carries the time announced with that step, however far ahead the pacer is; pause and drain reports carry none |
| GeneratorHistory.DispatchIsBeforeItsStep | src/dispatch.rs:111-139 | in every reachable state a transaction is dispatched only while the pacer has a step of the phase left to announce |
| GeneratorHistory.TargetsAreDeadlines | src/load_generator/phases/ready.rs:104-186 | the target times of planned reports are the deadlines of the paced steps and the seconds of the pause |
| GeneratorHistory.DrainReportsFollowReadings | src/load_generator/phases/ready.rs:187-203 | in every finished run each drain report is for the first whole second after the clock reading that began it |
| GeneratorHistory.DrainGoesOnForATransaction | src/load_generator/phases/ready.rs:187-203 | the drain takes another report only if some transaction was dispatched and in no total when the in-flight count was begun |
| GeneratorHistory.TotalsCountKinds | src/tracker.rs:19-41 | in every reachable state each total is the number of transactions past that count that ended as its name says |
| GeneratorHistory.ResultsKeepTheirOrder | src/tracker.rs:128-158 | in every run the results in reports, snapshot and interval are those pushed, in the order in which they were pushed |
| Distribute.PortionsAreFair | src/orchestrator/distribute.rs:3-15 | the portions add up to the whole and differ by at most one |
| Distribute.DistributeProfile | src/orchestrator/distribute.rs:17-38 | the nested loops give every generator its portion of every step, with the step's deadline |
| Distribute.CombinedRateIsWholeRate | src/load/schedule.rs:53-58 | together the generators run each step at the rate of the undivided profile |
| Collect.CrashIffGone | src/orchestrator/phases/collect.rs:42-46 | a round fails for a crash exactly when a generator is gone, and names such a generator |
| Collect.ExhaustedIffAllFinished | src/orchestrator/phases/collect.rs:26-52 | the collection ends exactly when all generators have finished, and then no handle is left |
| Collect.MismatchBlamesItsSender | src/orchestrator/phases/collect.rs:61-71 | although handles move, a wrong target time is blamed on the generator that sent it |
| Collect.MergedIffUniform | src/orchestrator/phases/collect.rs:54-79 | a round merges exactly when nobody is gone, somebody reports and all reports agree on the time |
| Collect.MergedBatchIsLatest | src/orchestrator/phases/collect.rs:56-80 | the batch time of a merged round is the latest that any generator reported in it, and missing exactly if all are |
| Collect.MergedLevelIsSum | src/orchestrator/phases/collect.rs:55-80 | the load level of a merged round is the sum of all that were reported in it, in 32 bits |
| Collect.LatestBatchIsLatest | src/orchestrator/phases/collect.rs:56-59 | the fold over batch times gives the latest one present, and none only if all are missing |
| Collect.PollAllKeepsInvariant | src/orchestrator/phases/collect.rs:32-48 | throughout the loop the first handles are the senders of the reports, and kept plus removed handles are a permutation of the originals |
| Collection.Collector.CollectReports | src/orchestrator/phases/collect.rs:23-80 | the loop leaves the handles and returns the outcome that the round function gives |
| Collection.Collector.CollectAndPersist | src/orchestrator/runner.rs:275-304 | what is written and what the summary recorded are the merged reports, or the part of them up to a refused report or a failure signal; the outcome says which |
| Collection.LoopEndMeans | src/orchestrator/runner.rs:275-304 | what the loop's outcome says: all is collected exactly if every generator finished and the writer took every report before any failure; else the writer has a prefix and the summary at most the one refused report more |
| Collection.RoundConserves | src/orchestrator/phases/collect.rs:54-79 | a round moves its reports from the streams into the merged report: every count, sum and result |
| Collection.CollectionConserves | src/orchestrator/runner.rs:275-304 | a collection that ends well has merged every report of every generator and nothing else |
| Collection.RoundsStayAligned | src/orchestrator/phases/collect.rs:32-48 | while streams agree on target times, round k merges exactly the k-th report of every generator |
| Collection.TimingIsInvisible | src/orchestrator/phases/collect.rs:32-48 | in every interleaving of arrivals and polls a round comes to what the streams alone decide |
| Collection.CollectionFollowsStreams | src/orchestrator/phases/start.rs:57-67 | in every interleaving of arrivals, polls and round ends, a whole collection comes to the rounds of the streams |
| Collection.RoundsDoNotStall | src/orchestrator/phases/collect.rs:33-34 | while a round is not over, the awaited update can be polled or can still arrive |
| Collection.CollectSummariseWrite | src/orchestrator/runner.rs:159-196 | every persister gets a prefix of the recorded reports under the labels of the summary, and if nothing fails the summary is the tally of what each persister wrote as load and as warm-up |
| Phases.WriterLoop | src/orchestrator/persist/mod.rs:67-94 | every persister sees the same reports with the same labels in order; writing fails exactly if some persister cannot take every report or cannot flush after each and once at the end, and then each has a prefix |
| Phases.LabelsRunThroughPhases | src/orchestrator/persist/mod.rs:35-45 | the labels are warm-up as often as the warm-up lasts, pause as often as the pause lasts, then load for good |
| Phases.SummaryAgreesWithWriter | src/orchestrator/summary.rs:91-96 | the summary puts every result under the label with which the writer writes it |
| Phases.DropSummary.Record | src/orchestrator/summary.rs:91-103 | the counters are always the tally of all results recorded under their label |
| Phases.DropSummary.IsValid | src/orchestrator/summary.rs:105-108 | valid exactly when no transaction was dropped in any report from the first load report on |
| Phases.DropSummary.Report | src/orchestrator/summary.rs:110-116 | there is a drop report exactly when some transaction was dropped |
| Phases.TallyCountsReasons | src/orchestrator/summary.rs:22-45 | each counter is the number of transactions dropped for the reason it is named after |
| Phases.TallyDecides | src/orchestrator/summary.rs:22-33 | a phase has no drop in total exactly when none of its results is one |
| Cluster.SharesHavePlan | src/orchestrator/distribute.rs:17-52 | splitting keeps phases and target times of all planned reports and portions their load levels |
| Cluster.PlannedRounds | src/orchestrator/phases/collect.rs:54-79 | end to end: while every stream has a k-th report, wherever it breaks off later, round k merges these reports, at the planned time, at the undivided load level without overflow, with exactly the generators' statistics |
| Cluster.PlannedRoundsEndOnlyByCrash | src/orchestrator/phases/collect.rs:32-71 | whichever generators lose their connection: all planned rounds are merged exactly when every stream holds the whole plan; otherwise the collection ends where the shortest stream does, for the crash of such a generator, so no time mismatch comes before the drain |
| Collection.RoundsEndWithShortest | src/orchestrator/phases/collect.rs:32-71 | streams that keep to given target times, each as far as it goes, are merged up to the end of the shortest, and then the round fails for the crash of a generator whose stream ends there |
| Cluster.LabelsAreEmittingPhases | src/orchestrator/persist/mod.rs:35-45 | whichever generator's k-th report: it was sent by an action of that generator's run in the phase that the k-th label names, in any interleaving; the drain counts as load |
| Cluster.MergedPlusLeftBehind | src/orchestrator/runner.rs:275-304 | end to end: what was merged plus what generators still hold is what they counted, so the merged count is complete exactly if nothing is left |
| Cluster.MergedResultsAreLogged | src/orchestrator/runner.rs:275-304 | end to end: every single result is in the merged reports or still held by its generator, as often as it was pushed there, and with those still being logged as often as transactions came to it |
| Cluster.OnlyDrainRoundsCanFail | src/orchestrator/phases/collect.rs:61-71 | with finished generators the collection succeeds, or fails for a time mismatch after all planned rounds, never for a crash |
| Cluster.CollectsAllIffTimesAgree | src/orchestrator/phases/collect.rs:61-71 | finished generators, in any order of handles: the collection succeeds exactly when all that still report in a round agree on its time |
| Cluster.CollectsAllIffSameSeconds | src/load_generator/phases/ready.rs:187-203 | end to end: a run in which every generator finishes is collected whole exactly when for each drain report the generators that begin it read their clocks within the same second |
| Cluster.VerdictReflectsAllDrops | src/orchestrator/summary.rs:71-108 | end to end: all transactions dropped anywhere were merged under warm-up or pause labels exactly when the summary calls the run valid and no generator holds a drop back or is still logging one |
| Cluster.UnreportedDropStaysValid | src/orchestrator/summary.rs:105-108 | two whole runs that are called valid although a load transaction was dropped: its result was pushed and never reported, or counted and never pushed |
| Barrier.EveryRunKeepsInvariant | src/orchestrator/runner.rs:79-157 | in every run with any faults the exchange on each connection alternates until the command is sent |
| Barrier.StartMeansAllReady | src/orchestrator/runner.rs:120-157 | a generator starts, or is about to, only if every generator has answered ready |
| Barrier.NoConfigAfterConnectFailure | src/orchestrator/runner.rs:79-91 | after a failed connection no generator is ever configured |
| Barrier.HandoffsLoseNothing | src/load_generator/phases/configure.rs:95-102 | handing a stream from one framer to the next never drops a byte |
| Barrier.StartExcludesAbort | src/orchestrator/runner.rs:137-157 | no run tells one generator to start and another to abort |
| Barrier.LinksAreQueues | src/orchestrator/phases/configure.rs:60-113 | in every run with any faults, what each side has yet to read is what was sent to it, in order, without what it has read |
| Barrier.AllConnectedToldToAbortIff | src/orchestrator/runner.rs:79-91 | after a failed connection: all connected generators are told to abort exactly when the loop got to all of them and no failed abort also failed to arrive |
| Barrier.FailedConnectionAborts | src/orchestrator/runner.rs:79-91 | a run in which one connection fails and the generator behind the other is told to abort, stops, and answers |
| Barrier.NoDeadlock | src/orchestrator/runner.rs:56-157 | in every reachable state the orchestrator can go on by itself, until in the last stage it has dealt with every link |
| Barrier.AllToldToStartIff | src/orchestrator/runner.rs:147-157 | all generators are told to start exactly when every start was attempted and no failed start also failed to arrive |
| Barrier.AllToldToAbortIff | src/orchestrator/runner.rs:137-145 | all ready generators are told to abort exactly when the loop got to all of them and no failed abort also failed to arrive |
| Barrier.StartCanBePartial | src/orchestrator/runner.rs:154-157 | the start is not all or nothing: a run in which one of two ready generators runs and the other was never told to |
| Script.NamesResolveToLast | src/script/runner/mod.rs:75-93 | a name stands for the last spec that carries it |
| Script.ResolutionFollowsChain | src/script/runner/mod.rs:241-273 | every successful resolution follows a chain of jumps from the cursor and reports the index of its end |
| Script.ChainIsResolved | src/script/runner/mod.rs:241-273 | and every such chain for which the stack has room is followed to its end |
| Script.FailureIsAtItsEnd | src/script/runner/mod.rs:241-273 | a resolution that fails has followed jumps to the function at fault, and names it and its error, or the name that no spec carries |
| Script.OverflowIffPath | src/script/runner/mod.rs:241-273 | for every script, cursor, store and stack: resolution overflows exactly when a path of jumps through dynamic specs is longer than the stack has room for |
| Script.DepthDoesNotMatter | src/script/runner/mod.rs:241-273 | a resolution that does not overflow comes to the same with more stack |
| Script.ResolutionNeedsAtMostAllSpecs | src/script/runner/mod.rs:241-273 | without a cycle of jumps a resolution makes at most as many calls as there are specs |
| Script.SelfJumpOverflows | src/script/runner/mod.rs:267-269 | a spec that jumps to itself overflows any stack |
| Script.RevertRepeatsIffIndifferent | src/script/runner/mod.rs:191-201 | for any given script and cursor: a revert repeats the spec, whatever happened to the store, exactly when places can be related so that related functions reply alike, or jump to related functions, and any two stores are related at the cursor |
| Script.StoreIndependentRevertRepeats | src/script/runner/mod.rs:191-201 | for a given script, a revert repeats the spec if no function that its jumps can reach looks at the store |
| VirtualUser.RevertCanChangeTheSpec | src/virtual_user/user.rs:155-160 | a run in which a failed and reverted transaction is followed by one that sends another spec |
| Script.ScriptRunner.NextUserSpec | src/script/runner/mod.rs:148-160 | on success the cursor is one past the resolved spec, wrapped around; an error leaves it where it was |
| Script.ScriptRunner.NextSetupSpec | src/script/runner/mod.rs:116-129 | ends once the cursor is past the last spec; an error leaves the cursor where it was |
| VirtualUser.User.Setup | src/virtual_user/user.rs:76-99 | the loop sends, ends and fails as the setup function of script, store and environment says |
| VirtualUser.JumpFreeSetup | src/virtual_user/user.rs:76-99 | without jumps: if no spec fails in its turn, specs 0 to n-1 are sent once each and the user is set up; otherwise the specs before the first failure are sent and exactly that failure is reported |
| VirtualUser.PatienceDoesNotMatter | src/virtual_user/user.rs:84-93 | a setup that ends comes to the same however long one is ready to wait |
| VirtualUser.User.SendNextRequest | src/virtual_user/user.rs:137-187 | one transaction is one step of the transaction function: cursor, store, outcome class and spec |
| VirtualUser.OutcomeIsHowItEnded | src/virtual_user/user.rs:137-187 | a transaction is a timeout exactly when its request timed out, dropped exactly when there was no spec or the URL was bad, failed exactly when sending, the status or the extraction failed; the store is what resolving, or `extract`, left |
| VirtualUser.ClassesCountRequests | src/virtual_user/user.rs:163-187 | over any number of transactions each class counts exactly the requests that ended as it says |
| VirtualUser.OnlySuccessMovesCursor | src/virtual_user/user.rs:146-161 | over any run a success moves the cursor past the spec sent and anything else leaves it |
| VirtualUser.StaticScriptsCycle | src/virtual_user/user.rs:137-162 | in an all-static script each transaction sends the spec given by the number of earlier successes, modulo the length |
| Csv.RowsRoundTrip | src/orchestrator/persist/csv.rs:1-7 | a reader following section 2, rules 5 to 7, of RFC 4180 gets exactly the rows back, exactly when every row has a field |
| Csv.RowsAreUnambiguous | src/orchestrator/persist/transactions.rs:131-154 | no two files of rows look the same |
| Csv.OnlySpecialFieldsAreQuoted | src/orchestrator/persist/csv.rs:1-7 | a field is changed exactly when it holds a quote, a comma or an end of line |
| Csv.FieldsStandUnderTheirNames | src/orchestrator/persist/transactions.rs:23-137 | every field of a row is what the header says of its column |
| Csv.RowsTellTransactionsApart | src/orchestrator/persist/transactions.rs:23-137 | transactions with the same row agree on everything that is printed, including how they ended |
| Csv.TransactionCsvPersister.Persist | src/orchestrator/persist/transactions.rs:148-154 | the file always reads back as the header and one row of ten fields per transaction, in order |

## Left out

- Numbers: counters and sums are unbounded, the program's are 64-bit and wrap; only the merged load level is 32-bit here, because its sum is where it could overflow. `usize` is 64 bits wide.
- Times: nanoseconds, and the panics of `Duration` arithmetic at its ends are not modelled. The seconds that travel as floats are bit patterns in `Codec` and whole nanoseconds elsewhere.
- Rates are reals; rounding of floats, the logarithm behind the gaps and the distribution of arrivals are not modelled.
- Relaxed atomics are single steps in one order; weaker memory orders are not modelled.
- Generator: the state machine holds pool and tracker as values, because their methods interleave; `UserPool` and `SoloTracker` show the same operations as objects that nobody disturbs.
- Generator: the in-flight warning at the end of the pause changes nothing and is not a step. Request outcomes, random choices and all times are arbitrary.
- Generator: sending an update never fails. A generator that loses its connection stops; its stream is then a prefix, as `Cluster.PlannedRounds` and `Cluster.PlannedRoundsEndOnlyByCrash` allow.
- Collection.Collector.CollectAndPersist: when the failure signal is seen, a round may have been polled in part; the contract says nothing about the handles then, and the program does not use them for reports any more.
- Pacer.RunSchedule: `counts`, the whole history of the steps to pace, is a ghost argument that only says that they end; the method is not about schedules that do not. Waiting for the time of an arrival is `WaitUntil` and leaves no entry in the log.
- Barrier: ends when the commands are sent. Aborting a running test is not modelled, since a generator reads no command after `Start`. Connection retries are one step.
- Script: `depth` stands for the size of the stack, which the program leaves to the operating system. Lua, the parsing of specs and request bodies are functions of the store.
- VirtualUser.User.Setup: jumps can make the program's setup run for ever; `patience` bounds the requests that the model follows.
- WaitUntil.WaitUntil: reading the clock takes no time of its own beyond what the clock says, and the clock has to advance for the wait to end.
- Framing: bytes that a payload leaves undecoded within its frame are dropped by the program and by the model. Reserving capacity has no effect on contents.
- Codec: `deserialize_any`, identifiers and ignored values are errors in the program and have no schema here.
- Csv: numbers and error texts are already rendered; buffering and write errors are not modelled. The intervals file and the console are left out.
- The HTTP client, URL building, logging, the command line, output directories and run metadata are left out.
