/**
 The whole system: every generator runs its share in any interleaving of its own, its updates
 travel to the orchestrator, and the orchestrator merges them round by round.
 */
module Cluster {
  import opened Wrappers
  import opened Reports
  import opened Vectors
  import opened Schedule
  import opened Distribute
  import opened Tracker
  import opened Generator
  import opened GeneratorSums
  import opened GeneratorProofs
  import opened GeneratorTheorems
  import opened GeneratorHistory
  import opened Collect
  import opened Collection
  import Phases

  /** What generator `g` of `n` is told to do. */
  function ShareOf(cfg: Config, n: nat, g: nat): Config
    requires g < n
  {
    Config(Portion(cfg.warmupRate, n, g), cfg.warmupDuration, cfg.warmupPause, Share(cfg.profile, n, g))
  }

  /** The program's load levels are unsigned 32-bit numbers. */
  predicate FitsU32(cfg: Config) {
    cfg.warmupRate < U32 && forall j :: 0 <= j < |cfg.profile| ==> cfg.profile[j].count < U32
  }

  lemma SharesHavePlan(cfg: Config, n: nat, g: nat, k: nat)
    requires g < n && k < cfg.Planned()
    ensures ShareOf(cfg, n, g).Planned() == cfg.Planned()
    ensures var (phase, time, level) := Plan(cfg, k); Plan(ShareOf(cfg, n, g), k) == (phase, time, Portion(level, n, g))
  {
  }

  // ---------------------------------------------------------------- generators and their streams

  /** One generator: its address, its virtual users, and everything that happened on it. */
  datatype GeneratorRun = GeneratorRun(address: nat, users: seq<nat>, actions: seq<Action>)

  ghost predicate Possible(cfg: Config, runs: seq<GeneratorRun>) {
    forall g :: 0 <= g < |runs| ==> Execute(ShareOf(cfg, |runs|, g), runs[g].users, runs[g].actions).Some?
  }

  /** Where generator `g` got to. */
  ghost function EndOf(cfg: Config, runs: seq<GeneratorRun>, g: nat): State
    requires Possible(cfg, runs) && g < |runs|
  {
    Execute(ShareOf(cfg, |runs|, g), runs[g].users, runs[g].actions).value
  }

  /** Each handle delivers what its generator sent, or the beginning of it. */
  ghost predicate Delivers(cfg: Config, runs: seq<GeneratorRun>, handles: seq<Handle>) {
    && Possible(cfg, runs) && |handles| == |runs|
    && forall g :: 0 <= g < |runs| ==>
         && handles[g].address == runs[g].address
         && handles[g].pending <= EndOf(cfg, runs, g).sent
  }

  function TargetTimes(cfg: Config): seq<nat> {
    seq(cfg.Planned(), k requires 0 <= k < cfg.Planned() => Plan(cfg, k).1)
  }

  lemma StreamFollowsPlan(cfg: Config, runs: seq<GeneratorRun>, handles: seq<Handle>, g: nat, k: nat)
    requires Delivers(cfg, runs, handles) && g < |runs| && k < cfg.Planned() && k < |handles[g].pending|
    ensures HasAt(handles[g], k) && handles[g].pending[k] == EndOf(cfg, runs, g).sent[k]
    ensures var report := handles[g].pending[k].report;
            report.targetTime == Plan(cfg, k).1 && report.loadLevel == Portion(Plan(cfg, k).2, |runs|, g)
  {
    hide Execute, Plan, Portion, Share;
    UpdatesFollowThePlan(ShareOf(cfg, |runs|, g), runs[g].users, runs[g].actions);
    SharesHavePlan(cfg, |runs|, g, k);
  }

  /** However short it is, a stream reports for the planned times, in their order. */
  lemma StreamsKeepToPlan(cfg: Config, runs: seq<GeneratorRun>, handles: seq<Handle>)
    requires Delivers(cfg, runs, handles)
    ensures AllKeepTo(handles, TargetTimes(cfg))
  {
    hide EndOf, Plan, Portion, Possible;
    forall g | 0 <= g < |handles| ensures KeepsTo(handles[g].pending, TargetTimes(cfg)) {
      forall k | 0 <= k < |handles[g].pending| && k < cfg.Planned()
        ensures handles[g].pending[k].Interval? && handles[g].pending[k].report.targetTime == TargetTimes(cfg)[k]
      {
        StreamFollowsPlan(cfg, runs, handles, g, k);
      }
    }
  }

  lemma StreamsAreAligned(cfg: Config, runs: seq<GeneratorRun>, handles: seq<Handle>, m: nat)
    requires Delivers(cfg, runs, handles) && m <= cfg.Planned() && AllReach(handles, m)
    ensures Aligned(handles, TargetTimes(cfg)[..m])
  {
    hide EndOf, Plan, Portion, Possible;
    forall k | 0 <= k < m ensures RowOnTime(handles, k, TargetTimes(cfg)[..m][k]) {
      forall g | 0 <= g < |handles| ensures HasAt(handles[g], k) && handles[g].pending[k].report.targetTime == Plan(cfg, k).1 {
        StreamFollowsPlan(cfg, runs, handles, g, k);
      }
      assert FullRow(handles, k);
      forall r | r in Row(handles, k) ensures r.targetTime == Plan(cfg, k).1 {
        var g :| 0 <= g < |handles| && Row(handles, k)[g] == r;
      }
    }
  }

  lemma RowLoadLevel(cfg: Config, runs: seq<GeneratorRun>, handles: seq<Handle>, k: nat)
    requires runs != [] && Delivers(cfg, runs, handles) && k < cfg.Planned() && FullRow(handles, k)
    ensures LoadLevels(Row(handles, k)) == Plan(cfg, k).2
  {
    hide EndOf, Plan, Portion, Possible;
    var row, n := Row(handles, k), |runs|;
    var counts := DistributeCount(Plan(cfg, k).2, n);
    forall g | 0 <= g < n ensures row[g].loadLevel == counts[g] {
      assert HasAt(handles[g], k);
      StreamFollowsPlan(cfg, runs, handles, g, k);
    }
    SumOfPointwise((r: IntervalReport) => r.loadLevel, row, Identity, counts);
    PortionsAreFair(Plan(cfg, k).2, n);
  }

  lemma PlanFitsU32(cfg: Config, k: nat)
    requires FitsU32(cfg) && k < cfg.Planned()
    ensures Plan(cfg, k).2 < U32
  {
  }

  // ---------------------------------------------------------------- the planned rounds

  /**
   As long as every stream has a k-th report, round k merges exactly these, however each generator was
   interleaved and wherever its stream breaks off later: at the planned time, at the undivided load level
   without overflow, and with nothing but the sum of what the generators measured.
   */
  lemma PlannedRounds(cfg: Config, runs: seq<GeneratorRun>, handles: seq<Handle>, k: nat)
    requires runs != [] && FitsU32(cfg) && Delivers(cfg, runs, handles) && k < cfg.Planned() && AllReach(handles, k + 1)
    ensures |Rounds(handles).0| > k
    ensures var round := Rounds(handles).0[k];
            && round.targetTime == Plan(cfg, k).1 && round.loadLevel == Plan(cfg, k).2
            && FullRow(handles, k)
            && forall m :: Amount(round.stats, m) == SumOf((r: IntervalReport) => Amount(r.stats, m), Row(handles, k))
  {
    hide Delivers, Rounds, Row, FullRow, Plan, AllReach;
    StreamsAreAligned(cfg, runs, handles, k + 1);
    HandlesNotEmpty(cfg, runs, handles);
    RoundsStayAligned(handles, TargetTimes(cfg)[..k + 1], k);
    RowLoadLevel(cfg, runs, handles, k);
    PlanFitsU32(cfg, k);
    RowNotEmpty(handles, k);
    MergeOfRow(Row(handles, k));
  }

  lemma HandlesNotEmpty(cfg: Config, runs: seq<GeneratorRun>, handles: seq<Handle>)
    requires runs != [] && Delivers(cfg, runs, handles)
    ensures handles != []
  {
  }

  /**
   All planned rounds are merged exactly when every stream holds the whole plan. Otherwise the collection
   ends where the shortest stream does, with the crash of a generator that sent no more: before the drain
   there is no time mismatch, whoever loses its connection.
   */
  lemma PlannedRoundsEndOnlyByCrash(cfg: Config, runs: seq<GeneratorRun>, handles: seq<Handle>)
    requires runs != [] && Delivers(cfg, runs, handles)
    ensures var (reports, end) := Rounds(handles);
            && (|reports| >= cfg.Planned() <==> AllReach(handles, cfg.Planned()))
            && (|reports| < cfg.Planned() ==>
                  end.Broken? && end.error.InstanceCrashed? && FirstToBreakOff(handles, |reports|, end.error.address))
  {
    hide Delivers, Rounds, Plan;
    HandlesNotEmpty(cfg, runs, handles);
    StreamsKeepToPlan(cfg, runs, handles);
    RoundsEndWithShortest(handles, TargetTimes(cfg));
  }

  lemma RowNotEmpty(handles: seq<Handle>, k: nat)
    requires handles != [] && FullRow(handles, k)
    ensures Row(handles, k) != []
  {
  }

  lemma MergeOfRow(row: seq<IntervalReport>)
    requires row != []
    ensures MergeOf(row).loadLevel == LoadLevels(row) % U32
    ensures forall m :: Amount(MergeOf(row).stats, m) == SumOf((r: IntervalReport) => Amount(r.stats, m), row)
  {
    forall m ensures Amount(Sum(Statistics(row)), m) == SumOf((r: IntervalReport) => Amount(r.stats, m), row) {
      AmountOfSum(row, m);
    }
  }

  /** The label that counting gives is the one of the phase. */
  predicate LabelFits(shown: Phases.Phase, phase: Phase) {
    match phase
    case Warmup => shown == Phases.Warmup
    case Pause => shown == Phases.Pause
    case Load => shown == Phases.Load
    case Drain => shown == Phases.Load
  }

  lemma LabelFitsPhase(cfg: Config, phase: Phase, k: nat)
    requires InPhase(cfg, phase, k)
    ensures LabelFits(Phases.LabelAt(cfg.warmupDuration, cfg.warmupPause, k), phase)
  {
  }

  /**
   Counting rounds finds the phase in which the reports were taken: whichever generator's k-th report
   is merged into round k, that generator sent it, by the i-th action of its run, in the phase that
   the k-th label names. The drain counts as load.
   */
  lemma LabelsAreEmittingPhases(cfg: Config, runs: seq<GeneratorRun>, handles: seq<Handle>, g: nat, k: nat) returns (i: nat)
    requires Delivers(cfg, runs, handles) && g < |runs| && HasAt(handles[g], k)
    ensures var (users, actions, share) := (runs[g].users, runs[g].actions, ShareOf(cfg, |runs|, g));
            && i < |actions| && actions[i] == SendReport && Execute(share, users, actions[..i]).Some?
            && var before := Execute(share, users, actions[..i]).value;
               && before.sent + [handles[g].pending[k]] <= EndOf(cfg, runs, g).sent && |before.sent| == k
               && LabelFits(Phases.LabelAt(cfg.warmupDuration, cfg.warmupPause, k), before.phase)
  {
    hide Execute, InPhase, LabelFits, Phases.LabelAt;
    var share, sent := ShareOf(cfg, |runs|, g), EndOf(cfg, runs, g).sent;
    assert sent[k] == handles[g].pending[k];
    i := ReportWasSentInItsPhase(share, runs[g].users, runs[g].actions, k);
    var before := Execute(share, runs[g].users, runs[g].actions[..i]).value;
    assert sent[..k] + [sent[k]] == sent[..k + 1];
    LabelFitsPhase(share, before.phase, k);
  }

  // ---------------------------------------------------------------- the whole collection

  /** Every generator has finished and everything it sent is delivered. */
  ghost predicate AllEnded(cfg: Config, runs: seq<GeneratorRun>, handles: seq<Handle>) {
    && Delivers(cfg, runs, handles)
    && forall g :: 0 <= g < |runs| ==>
         EndOf(cfg, runs, g).reporter == Ended && handles[g].pending == EndOf(cfg, runs, g).sent
  }

  /** The last update of the stream is `Finished`, and no other is. */
  ghost predicate Closed(us: seq<GeneratorUpdate>) {
    us != [] && us[|us| - 1] == Finished && forall k :: 0 <= k < |us| - 1 ==> us[k].Interval?
  }

  lemma EndedStreamsAreClosed(cfg: Config, runs: seq<GeneratorRun>, handles: seq<Handle>, g: nat)
    requires AllEnded(cfg, runs, handles) && g < |runs|
    ensures Closed(handles[g].pending) && |handles[g].pending| > cfg.Planned()
  {
    hide Execute, Plan, Portion;
    UpdatesFollowThePlan(ShareOf(cfg, |runs|, g), runs[g].users, runs[g].actions);
  }

  lemma {:induction false} ClosedStreamAmount(us: seq<GeneratorUpdate>, m: Measure)
    requires Closed(us)
    ensures StreamAmount(us, m) == Amount(Reported(us), m)
  {
    hide Amount, Add;
    ReportedFromFront(us);
    AmountAdd(StatsOf(us[0]), Reported(us[1..]), m);
    AmountAdd(NoStatistics, NoStatistics, m);
    if |us| > 1 {
      ClosedStreamAmount(us[1..], m);
    } else {
      assert us[1..] == [] && StatsOf(us[0]) == NoStatistics;
    }
  }

  lemma {:induction false} ReportedFromFront(us: seq<GeneratorUpdate>)
    requires us != []
    ensures Reported(us) == Add(StatsOf(us[0]), Reported(us[1..]))
  {
    var init, last := us[..|us| - 1], us[|us| - 1];
    if |us| == 1 {
      assert init == [] && us[1..] == [];
      AddIsAssociative(StatsOf(us[0]), NoStatistics, NoStatistics);
    } else {
      hide Add, StatsOf;
      ReportedFromFront(init);
      assert init[1..] == us[1..][..|us| - 2] && us[1..][|us| - 2] == last;
      AddIsAssociative(StatsOf(us[0]), Reported(init[1..]), StatsOf(last));
    }
  }

  /** Where all generators got to. */
  ghost function Ends(cfg: Config, runs: seq<GeneratorRun>): seq<State>
    requires Possible(cfg, runs)
  {
    seq(|runs|, g requires 0 <= g < |runs| => EndOf(cfg, runs, g))
  }

  /** What a generator counted. */
  ghost function TotalOf(s: State, c: Class): nat {
    s.tracker.total.Of(c)
  }

  /** What a generator still holds in its interval, or between two bumps. */
  ghost function LeftOf(s: State, c: Class): nat {
    s.tracker.interval.counts.Of(c) + BetweenBumps(s.tasks, c)
  }

  ghost function TotalsOf(ends: seq<State>, c: Class): nat {
    SumOf((s: State) => TotalOf(s, c), ends)
  }

  ghost function LeftBehind(ends: seq<State>, c: Class): nat {
    SumOf((s: State) => LeftOf(s, c), ends)
  }

  lemma StreamPlusLeft(cfg: Config, runs: seq<GeneratorRun>, handles: seq<Handle>, c: Class, g: nat)
    requires AllEnded(cfg, runs, handles) && g < |runs|
    ensures StreamAmount(handles[g].pending, Scalar(ClassCount(c))) + LeftOf(EndOf(cfg, runs, g), c) == TotalOf(EndOf(cfg, runs, g), c)
  {
    hide Execute, Reported, BetweenBumps, StreamAmount, ShareOf;
    EndedStreamsAreClosed(cfg, runs, handles, g);
    ClosedStreamAmount(handles[g].pending, Scalar(ClassCount(c)));
    ReportedAtFinished(ShareOf(cfg, |runs|, g), runs[g].users, runs[g].actions, c);
  }

  lemma PendingPlusLeft(cfg: Config, runs: seq<GeneratorRun>, handles: seq<Handle>, c: Class)
    requires AllEnded(cfg, runs, handles)
    ensures PendingAmount(handles, Scalar(ClassCount(c))) + LeftBehind(Ends(cfg, runs), c) == TotalsOf(Ends(cfg, runs), c)
  {
    hide EndOf, LeftOf, TotalOf, StreamAmount;
    var m := Scalar(ClassCount(c));
    var f, g, h := (k: Handle) => StreamAmount(k.pending, m), (s: State) => LeftOf(s, c), (s: State) => TotalOf(s, c);
    var ends := Ends(cfg, runs);
    forall i | 0 <= i < |runs| ensures f(handles[i]) + g(ends[i]) == h(ends[i]) {
      StreamPlusLeft(cfg, runs, handles, c, i);
    }
    SumOfSplit(f, handles, g, h, ends);
  }

  /**
   End to end, per outcome class: what the orchestrator merged, plus what is left behind on the
   generators, is what the generators counted. So the merged count is complete exactly when
   nothing of the class is left behind.
   */
  lemma MergedPlusLeftBehind(cfg: Config, runs: seq<GeneratorRun>, handles: seq<Handle>, c: Class)
    requires AllEnded(cfg, runs, handles) && Rounds(handles).1 == Exhausted
    ensures var merged, ends := Sum(Statistics(Rounds(handles).0)).counts.Of(c), Ends(cfg, runs);
            && merged + LeftBehind(ends, c) == TotalsOf(ends, c)
            && (merged == TotalsOf(ends, c) <==> LeftBehind(ends, c) == 0)
  {
    hide Rounds, Statistics, Sum, PendingAmount, EndOf, LeftBehind, TotalsOf;
    CollectionConserves(handles, Scalar(ClassCount(c)));
    PendingPlusLeft(cfg, runs, handles, c);
  }

  /** How many transactions of a generator came out as `r`. */
  ghost function CountedTimes(s: State, r: TransactionResult): nat {
    CountedResults(s.tasks)[r]
  }

  /** How often it is still logging `r`, and has not pushed it yet. */
  ghost function UnderWayTimes(s: State, r: TransactionResult): nat {
    UnderWayResults(s.tasks)[r]
  }

  /** How often it pushed `r`. */
  ghost function PushedTimes(s: State, r: TransactionResult): nat {
    PushedResults(s.tasks)[r]
  }

  /** How often it pushed `r` and never reported it. */
  ghost function HeldTimes(s: State, r: TransactionResult): nat {
    multiset(s.tracker.interval.results)[r]
  }

  lemma CountedIsPushedPlusUnderWay(ends: seq<State>, r: TransactionResult)
    ensures SumOf((s: State) => PushedTimes(s, r), ends) + SumOf((s: State) => UnderWayTimes(s, r), ends)
         == SumOf((s: State) => CountedTimes(s, r), ends)
  {
    hide PushedResults, UnderWayResults, CountedResults;
    var f, g, h := (s: State) => PushedTimes(s, r), (s: State) => UnderWayTimes(s, r), (s: State) => CountedTimes(s, r);
    forall i | 0 <= i < |ends| ensures f(ends[i]) + g(ends[i]) == h(ends[i]) {
      CountedIsPushedOrUnderWay(ends[i].tasks);
    }
    SumOfSplit(f, ends, g, h, ends);
  }

  lemma StreamPlusHeld(cfg: Config, runs: seq<GeneratorRun>, handles: seq<Handle>, r: TransactionResult, g: nat)
    requires AllEnded(cfg, runs, handles) && g < |runs|
    ensures var s := EndOf(cfg, runs, g);
            StreamAmount(handles[g].pending, Times(r)) + HeldTimes(s, r) == PushedTimes(s, r)
  {
    hide Execute, Reported, StreamAmount, ShareOf, PushedResults;
    EndedStreamsAreClosed(cfg, runs, handles, g);
    ClosedStreamAmount(handles[g].pending, Times(r));
    ResultAccounting(ShareOf(cfg, |runs|, g), runs[g].users, runs[g].actions);
    var s := EndOf(cfg, runs, g);
    AddIsAssociative(s.tracker.interval, NoStatistics, NoStatistics);
    assert Unreported(s) == s.tracker.interval;
  }

  /**
   End to end, result by result: whatever a generator pushed is in the merged reports or still held
   there, as often as it was pushed, and nothing else is in the merged reports. What the generators are
   still logging is all that the transactions came to and that is in neither place.
   */
  lemma MergedResultsAreLogged(cfg: Config, runs: seq<GeneratorRun>, handles: seq<Handle>, r: TransactionResult)
    requires AllEnded(cfg, runs, handles) && Rounds(handles).1 == Exhausted
    ensures var merged, ends := multiset(Sum(Statistics(Rounds(handles).0)).results), Ends(cfg, runs);
            var merging := merged[r] + SumOf((s: State) => HeldTimes(s, r), ends);
            && merging == SumOf((s: State) => PushedTimes(s, r), ends)
            && merging + SumOf((s: State) => UnderWayTimes(s, r), ends) == SumOf((s: State) => CountedTimes(s, r), ends)
  {
    hide Rounds, Statistics, Sum, EndOf, HeldTimes, PushedTimes, UnderWayTimes, CountedTimes, StreamAmount;
    CollectionConserves(handles, Times(r));
    var f := (k: Handle) => StreamAmount(k.pending, Times(r));
    var g, h := (s: State) => HeldTimes(s, r), (s: State) => PushedTimes(s, r);
    var ends := Ends(cfg, runs);
    forall i | 0 <= i < |runs| ensures f(handles[i]) + g(ends[i]) == h(ends[i]) {
      StreamPlusHeld(cfg, runs, handles, r, i);
    }
    SumOfSplit(f, handles, g, h, ends);
    CountedIsPushedPlusUnderWay(ends, r);
  }

  // ---------------------------------------------------------------- what can go wrong

  /** Whoever sent `Finished` is removed before its channel could look closed. */
  ghost predicate AllClosed(handles: seq<Handle>) {
    forall j :: 0 <= j < |handles| ==> Closed(handles[j].pending)
  }

  lemma ClosedStaysClosed(handles: seq<Handle>)
    requires AllClosed(handles)
    ensures var (after, o) := CollectRound(handles); o.Merged? ==> AllClosed(after)
  {
    var r := RoundFacts(handles);
    if r.crashed == None {
      SendersAndFinished(handles, r);
      var senders := Senders(r.handles, r.reports);
      hide Closed, CollectRound;
      forall j | 0 <= j < |r.handles| ensures Closed(r.handles[j].pending) {
        var h := senders[j];
        assert h in senders && h in handles;
        ClosedTail(h.pending);
        assert r.handles[j].pending == h.pending[1..];
      }
    }
  }

  lemma ClosedTail(us: seq<GeneratorUpdate>)
    requires Closed(us) && us[0].Interval?
    ensures Closed(us[1..])
  {
  }

  /** Finished generators are never taken for crashed: the collection succeeds, or two reports disagree on the time. */
  lemma {:induction false} FinishedNeverCrash(handles: seq<Handle>)
    requires AllClosed(handles)
    ensures var end := Rounds(handles).1; end == Exhausted || (end.Broken? && end.error.TimeMismatch?)
    decreases Backlog(handles)
  {
    RoundShrinksBacklog(handles);
    ClosedStaysClosed(handles);
    CrashIffGone(handles);
    var (after, o) := CollectRound(handles);
    hide CollectRound, Closed;
    if o.Merged? {
      FinishedNeverCrash(after);
    }
  }

  /** With finished generators the only possible failure is a mismatch, and not before the drain. */
  lemma OnlyDrainRoundsCanFail(cfg: Config, runs: seq<GeneratorRun>, handles: seq<Handle>)
    requires runs != [] && AllEnded(cfg, runs, handles)
    ensures var (reports, end) := Rounds(handles);
            && (end == Exhausted || (end.Broken? && end.error.TimeMismatch?))
            && |reports| >= cfg.Planned()
  {
    hide Rounds, Execute;
    forall g | 0 <= g < |runs| ensures Closed(handles[g].pending) && |handles[g].pending| > cfg.Planned() {
      EndedStreamsAreClosed(cfg, runs, handles, g);
    }
    FinishedNeverCrash(handles);
    PlannedRoundsEndOnlyByCrash(cfg, runs, handles);
  }

  /** Whoever has a k-th report has it for the same time. */
  ghost predicate AgreeAt(handles: seq<Handle>, k: nat) {
    forall h, l :: h in handles && l in handles && HasAt(h, k) && HasAt(l, k) ==>
      h.pending[k].report.targetTime == l.pending[k].report.targetTime
  }

  function Behind(h: Handle): Handle
    requires HasReport(h)
  {
    h.(pending := h.pending[1..])
  }

  /** After a merged round the handles are those that reported, each without that report. */
  lemma MergedRoundAdvances(handles: seq<Handle>)
    requires CollectRound(handles).1.Merged?
    ensures forall h :: h in handles && HasReport(h) ==> Behind(h) in CollectRound(handles).0
    ensures forall a :: a in CollectRound(handles).0 ==> exists h :: h in handles && HasReport(h) && Behind(h) == a
  {
    var r := RoundFacts(handles);
    SendersAndFinished(handles, r);
    var senders := Senders(r.handles, r.reports);
    forall h | h in handles && HasReport(h) ensures Behind(h) in r.handles {
      assert h in senders;
      var j :| 0 <= j < |senders| && senders[j] == h;
      assert Behind(h) == r.handles[j];
    }
    forall a | a in r.handles ensures exists h :: h in handles && HasReport(h) && Behind(h) == a {
      var j :| 0 <= j < |r.handles| && r.handles[j] == a;
      assert senders[j] in senders && Behind(senders[j]) == a;
    }
  }

  lemma AgreeThenBehind(handles: seq<Handle>, k: nat)
    requires CollectRound(handles).1.Merged? && AgreeAt(handles, k + 1)
    ensures AgreeAt(CollectRound(handles).0, k)
  {
    MergedRoundAdvances(handles);
    hide CollectRound;
    var after := CollectRound(handles).0;
    forall a, b | a in after && b in after && HasAt(a, k) && HasAt(b, k)
      ensures a.pending[k].report.targetTime == b.pending[k].report.targetTime
    {
      var h :| h in handles && HasReport(h) && Behind(h) == a;
      var l :| l in handles && HasReport(l) && Behind(l) == b;
      assert HasAt(h, k + 1) && HasAt(l, k + 1);
    }
  }

  lemma BehindThenAgree(handles: seq<Handle>, k: nat)
    requires AllClosed(handles) && CollectRound(handles).1.Merged? && AgreeAt(CollectRound(handles).0, k)
    ensures AgreeAt(handles, k + 1)
  {
    MergedRoundAdvances(handles);
    hide CollectRound;
    forall h, l | h in handles && l in handles && HasAt(h, k + 1) && HasAt(l, k + 1)
      ensures h.pending[k + 1].report.targetTime == l.pending[k + 1].report.targetTime
    {
      ReportsBefore(handles, h, k);
      ReportsBefore(handles, l, k);
      assert HasAt(Behind(h), k) && HasAt(Behind(l), k);
    }
  }

  lemma ReportsBefore(handles: seq<Handle>, h: Handle, k: nat)
    requires AllClosed(handles) && h in handles && HasAt(h, k + 1)
    ensures HasReport(h)
  {
    var j :| 0 <= j < |handles| && handles[j] == h;
    assert Closed(handles[j].pending);
  }

  lemma FirstRoundAgrees(handles: seq<Handle>)
    requires AllClosed(handles)
    ensures var o := CollectRound(handles).1;
            && (o.Merged? ==> AgreeAt(handles, 0))
            && (o.Broken? ==> !AgreeAt(handles, 0))
            && (o == Exhausted ==> forall k :: AgreeAt(handles, k))
  {
    MergedIffUniform(handles);
    ExhaustedIffAllFinished(handles);
    hide CollectRound;
    forall h | h in handles ensures Closed(h.pending) && (HasReport(h) || Finishes(h)) && (HasReport(h) <==> HasAt(h, 0)) {
      var j :| 0 <= j < |handles| && handles[j] == h;
      assert Closed(handles[j].pending);
    }
  }

  /** The collection of finished generators succeeds exactly when, round by round, all that still report agree on the time. */
  lemma {:induction false} CollectsAllIffTimesAgree(handles: seq<Handle>)
    requires AllClosed(handles)
    ensures Rounds(handles).1 == Exhausted <==> forall k: nat :: AgreeAt(handles, k)
    decreases Backlog(handles)
  {
    RoundShrinksBacklog(handles);
    ClosedStaysClosed(handles);
    FirstRoundAgrees(handles);
    RoundsUnfold(handles);
    var (after, o) := CollectRound(handles);
    hide AgreeAt;
    if o.Merged? {
      CollectsAllIffTimesAgree(after);
      forall k: nat ensures AgreeAt(after, k) <==> AgreeAt(handles, k + 1) {
        if AgreeAt(after, k) {
          BehindThenAgree(handles, k);
        } else if AgreeAt(handles, k + 1) {
          AgreeThenBehind(handles, k);
        }
      }
      hide CollectRound, AllClosed;
      if forall k: nat :: AgreeAt(after, k) {
        forall k: nat ensures AgreeAt(handles, k) {
          if k > 0 {
            assert AgreeAt(after, k - 1);
          }
        }
      }
    }
  }

  /** The drain readings of a generator's clock. */
  function ReadingsOf(run: GeneratorRun): seq<nat> {
    DrainReadings(run.actions)
  }

  /** The generators that begin a j-th drain report read their clocks within the same second. */
  ghost predicate SameSecond(runs: seq<GeneratorRun>, j: nat) {
    forall g, h :: 0 <= g < |runs| && 0 <= h < |runs| && j < |ReadingsOf(runs[g])| && j < |ReadingsOf(runs[h])| ==>
      ReadingsOf(runs[g])[j] / SECOND == ReadingsOf(runs[h])[j] / SECOND
  }

  lemma StreamTimes(cfg: Config, runs: seq<GeneratorRun>, handles: seq<Handle>, g: nat, k: nat)
    requires AllEnded(cfg, runs, handles) && g < |runs|
    ensures HasAt(handles[g], k) <==> k < cfg.Planned() + |ReadingsOf(runs[g])|
    ensures HasAt(handles[g], k) ==>
              handles[g].pending[k].report.targetTime
              == if k < cfg.Planned() then Plan(cfg, k).1 else NextSecond(ReadingsOf(runs[g])[k - cfg.Planned()])
  {
    hide Execute, Plan, Portion, NextSecond;
    var share := ShareOf(cfg, |runs|, g);
    EndedStreamsAreClosed(cfg, runs, handles, g);
    DrainReportsFollowReadings(share, runs[g].users, runs[g].actions);
    if k < cfg.Planned() {
      StreamFollowsPlan(cfg, runs, handles, g, k);
    }
  }

  lemma SameNextSecond(a: nat, b: nat)
    ensures NextSecond(a) == NextSecond(b) <==> a / SECOND == b / SECOND
  {
  }

  lemma RowAgreesIffSameSecond(cfg: Config, runs: seq<GeneratorRun>, handles: seq<Handle>, k: nat)
    requires AllEnded(cfg, runs, handles)
    ensures AgreeAt(handles, k) <==> k < cfg.Planned() || SameSecond(runs, k - cfg.Planned())
  {
    hide Plan, NextSecond, EndOf, ReadingsOf;
    forall g | 0 <= g < |runs|
      ensures HasAt(handles[g], k) <==> k < cfg.Planned() + |ReadingsOf(runs[g])|
      ensures HasAt(handles[g], k) ==>
                handles[g].pending[k].report.targetTime
                == if k < cfg.Planned() then Plan(cfg, k).1 else NextSecond(ReadingsOf(runs[g])[k - cfg.Planned()])
    {
      StreamTimes(cfg, runs, handles, g, k);
    }
    hide AllEnded, HasAt;
    if k >= cfg.Planned() {
      var j: nat := k - cfg.Planned();
      forall g, h | 0 <= g < |runs| && 0 <= h < |runs| && j < |ReadingsOf(runs[g])| && j < |ReadingsOf(runs[h])|
        ensures ReadingsOf(runs[g])[j] / SECOND == ReadingsOf(runs[h])[j] / SECOND
           <==> handles[g].pending[k].report.targetTime == handles[h].pending[k].report.targetTime
      {
        SameNextSecond(ReadingsOf(runs[g])[j], ReadingsOf(runs[h])[j]);
      }
      if AgreeAt(handles, k) {
        forall g, h | 0 <= g < |runs| && 0 <= h < |runs| && j < |ReadingsOf(runs[g])| && j < |ReadingsOf(runs[h])|
          ensures ReadingsOf(runs[g])[j] / SECOND == ReadingsOf(runs[h])[j] / SECOND
        {
          assert handles[g] in handles && handles[h] in handles;
        }
      }
    }
  }

  /**
   What becomes of a run in which every generator finishes: it is collected whole exactly when, for each drain
   report, the generators that begin it read their clocks within the same second.
   */
  lemma CollectsAllIffSameSeconds(cfg: Config, runs: seq<GeneratorRun>, handles: seq<Handle>)
    requires AllEnded(cfg, runs, handles)
    ensures Rounds(handles).1 == Exhausted <==> forall j: nat :: SameSecond(runs, j)
  {
    hide Rounds, EndOf, AgreeAt, SameSecond;
    forall g | 0 <= g < |runs| ensures Closed(handles[g].pending) {
      EndedStreamsAreClosed(cfg, runs, handles, g);
    }
    CollectsAllIffTimesAgree(handles);
    forall k: nat ensures AgreeAt(handles, k) <==> k < cfg.Planned() || SameSecond(runs, k - cfg.Planned()) {
      RowAgreesIffSameSecond(cfg, runs, handles, k);
    }
    hide AllEnded, AllClosed;
    if forall k: nat :: AgreeAt(handles, k) {
      forall j: nat ensures SameSecond(runs, j) {
        assert AgreeAt(handles, cfg.Planned() + j);
      }
    }
  }

  // ---------------------------------------------------------------- the verdict

  lemma {:induction false} ResultsByLabel(w: nat, p: nat, reports: seq<IntervalReport>, r: TransactionResult)
    ensures Amount(Sum(Statistics(reports)), Times(r))
         == multiset(Phases.ResultsIn(w, p, reports, true))[r] + multiset(Phases.ResultsIn(w, p, reports, false))[r]
  {
    AmountOfSum(reports, Times(r));
    if reports != [] {
      var init, last := reports[..|reports| - 1], reports[|reports| - 1];
      ResultsByLabel(w, p, init, r);
      AmountOfSum(init, Times(r));
      CountInConcat(Phases.ResultsIn(w, p, init, true), last.stats.results, r);
      CountInConcat(Phases.ResultsIn(w, p, init, false), last.stats.results, r);
    }
  }

  lemma CountInConcat<T>(xs: seq<T>, ys: seq<T>, x: T)
    ensures multiset(xs + ys)[x] == multiset(xs)[x] + multiset(ys)[x]
  {
  }

  /** Every transaction that was dropped anywhere was merged under a warm-up or pause label. */
  ghost predicate DropsOnlyBeforeLoad(cfg: Config, ends: seq<State>, reports: seq<IntervalReport>) {
    forall r: TransactionResult :: r.Dropped? ==>
      SumOf((s: State) => CountedTimes(s, r), ends)
      == multiset(Phases.ResultsIn(cfg.warmupDuration, cfg.warmupPause, reports, false))[r]
  }

  /** No generator still holds a dropped result that it never reported. */
  ghost predicate NoDropHeldBack(ends: seq<State>) {
    forall r: TransactionResult :: r.Dropped? ==> SumOf((s: State) => HeldTimes(s, r), ends) == 0
  }

  /** No generator is still logging a dropped result. */
  ghost predicate NoDropUnderWay(ends: seq<State>) {
    forall r: TransactionResult :: r.Dropped? ==> SumOf((s: State) => UnderWayTimes(s, r), ends) == 0
  }

  /**
   When the verdict tells the whole truth. The summary calls the run valid if no load report has a drop
   (`DropSummary.IsValid`). That, and no generator holding back a drop or still logging one, is exactly
   what it takes for all drops anywhere to have been reported before the load phase.
   */
  lemma VerdictReflectsAllDrops(cfg: Config, runs: seq<GeneratorRun>, handles: seq<Handle>)
    requires AllEnded(cfg, runs, handles) && Rounds(handles).1 == Exhausted
    ensures var reports, ends := Rounds(handles).0, Ends(cfg, runs);
            DropsOnlyBeforeLoad(cfg, ends, reports)
            <==> && Phases.Clean(cfg.warmupDuration, cfg.warmupPause, reports, true)
                 && NoDropHeldBack(ends) && NoDropUnderWay(ends)
  {
    hide Rounds, Statistics, Sum, EndOf, Phases.Clean, Phases.ResultsIn, PushedTimes, HeldTimes, CountedTimes, UnderWayTimes;
    var (w, p) := (cfg.warmupDuration, cfg.warmupPause);
    var reports, ends := Rounds(handles).0, Ends(cfg, runs);
    var load, early := Phases.ResultsIn(w, p, reports, true), Phases.ResultsIn(w, p, reports, false);
    forall r: TransactionResult | r.Dropped?
      ensures multiset(load)[r] + multiset(early)[r]
              + SumOf((s: State) => HeldTimes(s, r), ends) + SumOf((s: State) => UnderWayTimes(s, r), ends)
           == SumOf((s: State) => CountedTimes(s, r), ends)
    {
      ResultsByLabel(w, p, reports, r);
      MergedResultsAreLogged(cfg, runs, handles, r);
    }
    Phases.ResultsInDecide(w, p, reports, true);
    assert Phases.HasDrop(load) <==> exists r: TransactionResult :: r.Dropped? && multiset(load)[r] > 0 by {
      DropCounts(load);
    }
  }

  lemma DropCounts(results: seq<TransactionResult>)
    ensures Phases.HasDrop(results) <==> exists r: TransactionResult :: r.Dropped? && multiset(results)[r] > 0
  {
    if Phases.HasDrop(results) {
      var r :| r in results && r.Dropped?;
      assert multiset(results)[r] > 0;
    }
    if r: TransactionResult :| r.Dropped? && multiset(results)[r] > 0 {
      assert r in results;
    }
  }

  // Two runs that are called valid although a load transaction was dropped: the one generator of
  // `FinishedCanLeaveResultsBehind`, holding the result back or still logging it.

  function OneRun(pushed: bool): seq<GeneratorRun> {
    [GeneratorRun(0, [], OPENING + PACING + REPORTING + (if pushed then LOGGING else COUNTING) + FINISHING)]
  }

  const ONE_HANDLE := [Handle(0, [EMPTY_REPORT, Finished])]

  lemma OneShareIsAll()
    ensures ShareOf(SMALL, 1, 0) == SMALL
  {
    assert Portion(1, 1, 0) == 1 && Portion(0, 1, 0) == 0;
    assert Share(SMALL.profile, 1, 0) == SMALL.profile;
  }

  lemma OneHandleRounds()
    ensures Rounds(ONE_HANDLE) == ([MergeOf([EMPTY_REPORT.report])], Exhausted)
  {
    var rest := [Handle(0, [Finished])];
    assert FullRow(ONE_HANDLE, 0) by {
      assert HasAt(ONE_HANDLE[0], 0);
    }
    assert Row(ONE_HANDLE, 0) == [EMPTY_REPORT.report] && Advanced(ONE_HANDLE) == rest by {
      assert [EMPTY_REPORT, Finished][1..] == [Finished];
    }
    AlignedRound(ONE_HANDLE);
    RoundsUnfold(ONE_HANDLE);
    RoundsUnfold(rest);
    ExhaustedIffAllFinished(rest);
    hide Rounds, CollectRound, MergeOf;
    assert CollectRound(rest).1 == Exhausted && Rounds(rest) == ([], Exhausted);
    assert [MergeOf([EMPTY_REPORT.report])] + [] == [MergeOf([EMPTY_REPORT.report])];
  }

  lemma EmptyMergeHasNoDrop(w: nat, p: nat)
    ensures Phases.Clean(w, p, [MergeOf([EMPTY_REPORT.report])], true)
  {
    SumOfNothing();
    hide Sum, LatestBatch, LoadLevels;
    assert Statistics([EMPTY_REPORT.report]) == [NoStatistics];
    assert MergeOf([EMPTY_REPORT.report]).stats.results == [];
  }

  lemma SumOfNothing()
    ensures Sum([NoStatistics]) == NoStatistics
  {
    hide Add, Sum;
    AddIsAssociative(NoStatistics, NoStatistics, NoStatistics);
    SumOfFirst(NoStatistics, []);
    assert [NoStatistics] + [] == [NoStatistics];
    assert Sum([]) == NoStatistics by {
      SumOfNone();
    }
  }

  lemma SumOfNone()
    ensures Sum([]) == NoStatistics
  {
  }

  lemma OnePushed(t: Task)
    ensures PushedResults([t]) == if HasPushed(t) then multiset{t.result} else multiset{}
  {
    PushDecides(t);
    assert [t][..0] == [];
  }

  lemma UnreportedDropStaysValid(pushed: bool)
    ensures var runs := OneRun(pushed);
            && AllEnded(SMALL, runs, ONE_HANDLE) && Rounds(ONE_HANDLE).1 == Exhausted
            && Phases.Clean(0, 0, Rounds(ONE_HANDLE).0, true)
            && CountedTimes(EndOf(SMALL, runs, 0), Dropped(0, Late)) == 1
            && PushedTimes(EndOf(SMALL, runs, 0), Dropped(0, Late)) == if pushed then 1 else 0
  {
    hide Rounds, Execute, Phases.Clean, ShareOf, MergeOf, CountedResults, PushedResults;
    OneShareIsAll();
    FinishedCanLeaveResultsBehind(pushed);
    OnePushed(Logging(Dropped(0, Late), if pushed then Logged else BumpCount));
    OneHandleRounds();
    EmptyMergeHasNoDrop(0, 0);
  }
}
