/** What the history of a run says about its reports: whose batch time each carries, and why the drain goes on. */
module GeneratorHistory {
  import opened Wrappers
  import opened Reports
  import opened Tracker
  import opened Schedule
  import opened Generator
  import opened GeneratorSums
  import opened GeneratorProofs
  import opened GeneratorTheorems
  import opened Vectors

  // ---------------------------------------------------------------- batch times

  /** The times that the pacer announced with the steps of a run, in order. */
  function Announced(actions: seq<Action>): seq<Option<nat>> {
    if actions == [] then []
    else
      var a := actions[|actions| - 1];
      Announced(actions[..|actions| - 1]) + if a.SendStepDone? then [a.lastDispatch] else []
  }

  /** The step, over both paced phases, that planned report `k` is about, unless it belongs to the pause. */
  function StepOfReport(cfg: Config, k: nat): Option<nat> {
    if k < cfg.warmupDuration then Some(k)
    else if k < cfg.warmupDuration + cfg.warmupPause || k >= cfg.Planned() then None
    else Some(k - cfg.warmupPause)
  }

  /** The steps announced so far. */
  function StepsAnnounced(cfg: Config, s: State): nat {
    match s.phase
    case Warmup => s.nextStep
    case Pause => cfg.warmupDuration
    case Load => cfg.warmupDuration + s.nextStep
    case Drain => cfg.warmupDuration + |cfg.profile|
  }

  ghost predicate CarriesBatchTime(cfg: Config, sent: seq<GeneratorUpdate>, times: seq<Option<nat>>, k: nat)
    requires k < |sent|
  {
    sent[k].Interval? ==>
      match StepOfReport(cfg, k)
      case Some(j) => j < |times| && sent[k].report.finalBatchTime == times[j]
      case None => sent[k].report.finalBatchTime == None
  }

  /** What was announced is, in order, in the reports sent, in the running snapshot, and in the channel. */
  ghost predicate TimesMatch(cfg: Config, s: State, times: seq<Option<nat>>) {
    && |times| == StepsAnnounced(cfg, s) && |s.channel| <= |times|
    && (forall i :: 0 <= i < |s.channel| ==> s.channel[i].lastDispatch == times[|times| - |s.channel| + i])
    && (s.reporter.Snapshot? && (s.phase == Warmup || s.phase == Load) ==>
          |s.channel| < |times| && s.reporter.heading.finalBatchTime == times[|times| - |s.channel| - 1])
    && forall k :: 0 <= k < |s.sent| ==> CarriesBatchTime(cfg, s.sent, times, k)
  }

  lemma TimesMatchPacer(cfg: Config, s: State, a: Action, times: seq<Option<nat>>)
    requires InStep(cfg, s) && TimesMatch(cfg, s, times) && Apply(cfg, s, a).Some? && (a.TaskAction? || PacerAction(a))
    ensures TimesMatch(cfg, Apply(cfg, s, a).value, times + if a.SendStepDone? then [a.lastDispatch] else [])
  {
    hide StepTask, Plan, HeadingIsPlan;
    var s', more := Apply(cfg, s, a).value, times + if a.SendStepDone? then [a.lastDispatch] else [];
    forall k | 0 <= k < |s.sent| ensures CarriesBatchTime(cfg, s.sent, more, k) {
      assert CarriesBatchTime(cfg, s.sent, times, k);
    }
  }

  lemma TimesMatchSend(cfg: Config, s: State, times: seq<Option<nat>>)
    requires InStep(cfg, s) && TimesMatch(cfg, s, times) && Apply(cfg, s, SendReport).Some?
    ensures TimesMatch(cfg, Apply(cfg, s, SendReport).value, times)
  {
    var s' := Apply(cfg, s, SendReport).value;
    assert CarriesBatchTime(cfg, s'.sent, times, |s.sent|);
    forall k | 0 <= k < |s.sent| ensures CarriesBatchTime(cfg, s'.sent, times, k) {
      assert CarriesBatchTime(cfg, s.sent, times, k);
    }
  }

  lemma TimesMatchReporter(cfg: Config, s: State, a: Action, times: seq<Option<nat>>)
    requires InStep(cfg, s) && TimesMatch(cfg, s, times) && Apply(cfg, s, a).Some? && !a.TaskAction? && !PacerAction(a)
    requires a != SendReport
    ensures TimesMatch(cfg, Apply(cfg, s, a).value, times)
  {
    hide SwapStep, Plan, HeadingIsPlan;
    var s' := Apply(cfg, s, a).value;
    forall k | 0 <= k < |s'.sent| ensures CarriesBatchTime(cfg, s'.sent, times, k) {
      if k < |s.sent| {
        assert CarriesBatchTime(cfg, s.sent, times, k);
      }
    }
  }

  lemma {:induction false} EveryRunMatchesTimes(cfg: Config, users: seq<nat>, actions: seq<Action>)
    requires Execute(cfg, users, actions).Some?
    ensures TimesMatch(cfg, Execute(cfg, users, actions).value, Announced(actions))
  {
    hide Apply, TimesMatch, InStep, Initial;
    if actions != [] {
      var init, a := actions[..|actions| - 1], actions[|actions| - 1];
      EveryRunMatchesTimes(cfg, users, init);
      EveryRunKeepsInvariant(cfg, users, init);
      var s := Execute(cfg, users, init).value;
      if a.TaskAction? || PacerAction(a) {
        TimesMatchPacer(cfg, s, a, Announced(init));
      } else {
        assert Announced(init) + [] == Announced(init);
        if a == SendReport {
          TimesMatchSend(cfg, s, Announced(init));
        } else {
          TimesMatchReporter(cfg, s, a, Announced(init));
        }
      }
    } else {
      NothingAnnounced(cfg, users);
    }
  }

  lemma NothingAnnounced(cfg: Config, users: seq<nat>)
    ensures TimesMatch(cfg, Initial(users), [])
  {
  }

  /**
   The report of a paced step carries the time that the pacer announced with that step, however far the
   pacer was ahead; pause and drain reports carry none.
   */
  lemma ReportsCarryTheirBatchTimes(cfg: Config, users: seq<nat>, actions: seq<Action>, k: nat)
    requires Execute(cfg, users, actions).Some?
    requires var sent := Execute(cfg, users, actions).value.sent; k < |sent| && sent[k].Interval?
    ensures var report := Execute(cfg, users, actions).value.sent[k].report;
            match StepOfReport(cfg, k)
            case Some(j) => j < |Announced(actions)| && report.finalBatchTime == Announced(actions)[j]
            case None => report.finalBatchTime == None
  {
    hide Execute;
    EveryRunMatchesTimes(cfg, users, actions);
    var s := Execute(cfg, users, actions).value;
    assert CarriesBatchTime(cfg, s.sent, Announced(actions), k);
  }

  /** A transaction is dispatched only while the pacer still has a step of the phase to announce. */
  lemma DispatchIsBeforeItsStep(cfg: Config, users: seq<nat>, actions: seq<Action>)
    requires Execute(cfg, users, actions).Some?
    requires Apply(cfg, Execute(cfg, users, actions).value, CountDispatch).Some?
    ensures match Execute(cfg, users, actions).value.phase
            case Warmup => |Announced(actions)| < cfg.warmupDuration
            case Load => |Announced(actions)| < cfg.warmupDuration + |cfg.profile|
            case _ => false
  {
    hide Execute;
    EveryRunMatchesTimes(cfg, users, actions);
  }

  // ---------------------------------------------------------------- target times

  /**
   The target times of the planned reports are the deadlines of the steps that the pacer is given, and the
   seconds of the pause.
   */
  lemma TargetsAreDeadlines(cfg: Config, steps: seq<ScheduledStep>, k: nat)
    requires k < cfg.Planned() && Paces(steps, cfg.profile)
    ensures var w, p := cfg.warmupDuration, cfg.warmupPause;
            Plan(cfg, k).1 ==
              if k < w then FromWarmup(cfg.warmupRate, w)[k].deadline
              else if k < w + p then FromWarmup(0, p)[k - w].deadline
              else steps[k - w - p].deadline
  {
    hide Rate, LatestDeadline, Start;
  }

  // ---------------------------------------------------------------- the times of drain reports

  /** The times that the loop read from the clock for its drain reports, in order. */
  function DrainReadings(actions: seq<Action>): seq<nat> {
    if actions == [] then []
    else
      var a := actions[|actions| - 1];
      DrainReadings(actions[..|actions| - 1]) + if a.BeginDrainReport? then [a.elapsed] else []
  }

  ghost predicate DrainReportOnTime(cfg: Config, sent: seq<GeneratorUpdate>, readings: seq<nat>, k: nat)
    requires k < |sent|
  {
    k >= cfg.Planned() && sent[k].Interval? ==>
      k - cfg.Planned() < |readings| && sent[k].report.targetTime == NextSecond(readings[k - cfg.Planned()])
  }

  /** There is one reading for each drain report that was sent or is being taken. */
  ghost predicate ReadingsMatch(cfg: Config, s: State, readings: seq<nat>) {
    && (s.phase != Drain ==> readings == [])
    && (s.phase == Drain ==>
          |s.sent| + (if s.reporter.Snapshot? then 1 else 0) == cfg.Planned() + |readings| + (if s.reporter == Ended then 1 else 0))
    && (s.reporter.Snapshot? && s.phase == Drain ==>
          readings != [] && s.reporter.heading.targetTime == NextSecond(readings[|readings| - 1]))
    && forall k :: 0 <= k < |s.sent| ==> DrainReportOnTime(cfg, s.sent, readings, k)
  }

  lemma ReadingsMatchElsewhere(cfg: Config, s: State, a: Action, readings: seq<nat>)
    requires ReadingsMatch(cfg, s, readings) && Apply(cfg, s, a).Some? && (a.TaskAction? || PacerAction(a))
    ensures ReadingsMatch(cfg, Apply(cfg, s, a).value, readings)
  {
    hide StepTask, NextSecond;
    var s' := Apply(cfg, s, a).value;
    forall k | 0 <= k < |s'.sent| ensures DrainReportOnTime(cfg, s'.sent, readings, k) {
      assert DrainReportOnTime(cfg, s.sent, readings, k);
    }
  }

  lemma ReadingsMatchReporter(cfg: Config, s: State, a: Action, readings: seq<nat>)
    requires InStep(cfg, s) && FinishedLast(cfg, s) && ReadingsMatch(cfg, s, readings)
    requires Apply(cfg, s, a).Some? && !a.TaskAction? && !PacerAction(a)
    ensures ReadingsMatch(cfg, Apply(cfg, s, a).value, readings + if a.BeginDrainReport? then [a.elapsed] else [])
  {
    hide SwapStep, NextSecond, Plan, StepHeading, HeadingIsPlan;
    var s', more := Apply(cfg, s, a).value, readings + if a.BeginDrainReport? then [a.elapsed] else [];
    forall k | 0 <= k < |s'.sent| ensures DrainReportOnTime(cfg, s'.sent, more, k) {
      if k < |s.sent| {
        assert DrainReportOnTime(cfg, s.sent, readings, k);
      }
    }
  }

  lemma {:induction false} EveryRunMatchesReadings(cfg: Config, users: seq<nat>, actions: seq<Action>)
    requires Execute(cfg, users, actions).Some?
    ensures ReadingsMatch(cfg, Execute(cfg, users, actions).value, DrainReadings(actions))
  {
    hide Apply, ReadingsMatch, InStep, FinishedLast, Initial;
    if actions != [] {
      var init, a := actions[..|actions| - 1], actions[|actions| - 1];
      EveryRunMatchesReadings(cfg, users, init);
      EveryRunKeepsInvariant(cfg, users, init);
      var s := Execute(cfg, users, init).value;
      if a.TaskAction? || PacerAction(a) {
        ReadingsMatchElsewhere(cfg, s, a, DrainReadings(init));
        assert DrainReadings(init) + [] == DrainReadings(init);
      } else {
        ReadingsMatchReporter(cfg, s, a, DrainReadings(init));
      }
    } else {
      NothingRead(cfg, users);
    }
  }

  lemma NothingRead(cfg: Config, users: seq<nat>)
    ensures ReadingsMatch(cfg, Initial(users), [])
  {
  }

  lemma NextSecondIsNext(elapsed: nat)
    ensures elapsed < NextSecond(elapsed) <= elapsed + SECOND && NextSecond(elapsed) % SECOND == 0
  {
  }

  /** The first whole second after a reading. */
  ghost predicate FirstSecondAfter(reading: nat, time: nat) {
    reading < time <= reading + SECOND && time % SECOND == 0
  }

  /** At `Finished`: each drain report is for the first whole second after its reading, and each reading has its report. */
  lemma DrainReportsFollowReadings(cfg: Config, users: seq<nat>, actions: seq<Action>)
    requires Execute(cfg, users, actions).Some? && Execute(cfg, users, actions).value.reporter == Ended
    ensures var sent, readings := Execute(cfg, users, actions).value.sent, DrainReadings(actions);
            && |sent| == cfg.Planned() + |readings| + 1
            && forall k :: cfg.Planned() <= k < |sent| - 1 ==>
                 && sent[k].Interval? && sent[k].report.targetTime == NextSecond(readings[k - cfg.Planned()])
                 && FirstSecondAfter(readings[k - cfg.Planned()], sent[k].report.targetTime)
  {
    hide Execute, NextSecond;
    EveryRunMatchesReadings(cfg, users, actions);
    UpdatesFollowThePlan(cfg, users, actions);
    var s := Execute(cfg, users, actions).value;
    assert FinishedLast(cfg, s) by { EveryRunKeepsInvariant(cfg, users, actions); }
    forall k | cfg.Planned() <= k < |s.sent| - 1
      ensures s.sent[k].Interval? && s.sent[k].report.targetTime == NextSecond(DrainReadings(actions)[k - cfg.Planned()])
      ensures FirstSecondAfter(DrainReadings(actions)[k - cfg.Planned()], s.sent[k].report.targetTime)
    {
      NextSecondIsNext(DrainReadings(actions)[k - cfg.Planned()]);
      assert DrainReportOnTime(cfg, s.sent, DrainReadings(actions), k);
    }
  }

  // ---------------------------------------------------------------- why the drain goes on

  /** The state in which the in-flight count that is being read was begun. */
  function CountBegan(cfg: Config, users: seq<nat>, actions: seq<Action>): Option<State>
    requires Execute(cfg, users, actions).Some?
  {
    if actions == [] then None
    else
      var init := actions[..|actions| - 1];
      if actions[|actions| - 1] == LoadDispatched then Some(Execute(cfg, users, init).value) else CountBegan(cfg, users, init)
  }

  /** The count is that of the state in which it was begun, except that totals may have been read later. */
  ghost predicate CountsFrom(began: Option<State>, s: State) {
    s.reporter.ReadTotals? ==>
      && began.Some? && s.reporter.n <= TOTALS && s.reporter.dispatched == began.value.tracker.dispatched
      && TotalsRead(began.value.tracker.total, s.reporter.n) <= s.reporter.sum
      && forall c: Class :: began.value.tracker.total.Of(c) <= s.tracker.total.Of(c)
  }

  lemma TaskKeepsTotals(cfg: Config, s: State, i: nat, step: TaskStep)
    requires Apply(cfg, s, TaskAction(i, step)).Some?
    ensures forall c: Class :: s.tracker.total.Of(c) <= Apply(cfg, s, TaskAction(i, step)).value.tracker.total.Of(c)
    ensures Apply(cfg, s, TaskAction(i, step)).value.reporter == s.reporter
  {
    hide SwapRemove;
  }

  lemma CountsFromStep(cfg: Config, began: Option<State>, s: State, a: Action)
    requires CountsFrom(began, s) && Apply(cfg, s, a).Some?
    ensures CountsFrom(if a == LoadDispatched then Some(s) else began, Apply(cfg, s, a).value)
  {
    match a
    case TaskAction(i, step) =>
      hide Apply;
      TaskKeepsTotals(cfg, s, i, step);
    case LoadTotal =>
      if s.reporter.ReadTotals? {
        TotalAtIsOf(began.value.tracker.total, s.tracker.total, s.reporter.n);
      }
    case _ => hide SwapStep, StepHeading;
  }

  lemma TotalAtIsOf(c: Counts, c': Counts, n: nat)
    requires forall k: Class :: c.Of(k) <= c'.Of(k)
    ensures TotalAt(c, n) <= TotalAt(c', n)
  {
    assert c.Of(Succeeded) <= c'.Of(Succeeded) && c.Of(Erred) <= c'.Of(Erred);
    assert c.Of(TimedOut) <= c'.Of(TimedOut) && c.Of(WasDropped) <= c'.Of(WasDropped);
  }

  lemma {:induction false} EveryRunCountsFrom(cfg: Config, users: seq<nat>, actions: seq<Action>)
    requires Execute(cfg, users, actions).Some?
    ensures CountsFrom(CountBegan(cfg, users, actions), Execute(cfg, users, actions).value)
  {
    hide Apply, CountsFrom, Initial;
    if actions != [] {
      var init, a := actions[..|actions| - 1], actions[|actions| - 1];
      EveryRunCountsFrom(cfg, users, init);
      CountsFromStep(cfg, CountBegan(cfg, users, init), Execute(cfg, users, init).value, a);
    } else {
      assert CountsFrom(None, Initial(users)) by { NoCountBegan(users); }
    }
  }

  lemma NoCountBegan(users: seq<nat>)
    ensures CountsFrom(None, Initial(users))
  {
  }

  /**
   The drain goes on only for a transaction in flight: when the loop begins another drain report, some
   transaction was dispatched and in no total at the moment when the in-flight count was begun.
   */
  lemma DrainGoesOnForATransaction(cfg: Config, users: seq<nat>, actions: seq<Action>, elapsed: nat)
    requires Execute(cfg, users, actions).Some?
    requires Apply(cfg, Execute(cfg, users, actions).value, BeginDrainReport(elapsed)).Some?
    ensures var began := CountBegan(cfg, users, actions);
            began.Some? && began.value.tracker.dispatched > began.value.tracker.total.Sum()
  {
    hide Execute, CountBegan;
    EveryRunCountsFrom(cfg, users, actions);
    AllTotalsRead(CountBegan(cfg, users, actions).value.tracker.total);
  }

  lemma AllTotalsRead(t: Counts)
    ensures TotalsRead(t, TOTALS) == t.Sum()
  {
    assert TotalsRead(t, 1) == t.success;
    assert TotalsRead(t, 2) == t.success + t.failed;
    assert TotalsRead(t, 3) == t.success + t.failed + t.timeout;
  }

  // ---------------------------------------------------------------- what is counted as what

  /** The tasks that are in a total and whose result is of the wanted kind. */
  function Counted(ts: seq<Task>, kind: TransactionResult -> bool): nat {
    if ts == [] then 0
    else
      var t := ts[|ts| - 1];
      Counted(ts[..|ts| - 1], kind) + if t.Logging? && t.stage != BumpTotal && kind(t.result) then 1 else 0
  }

  lemma {:induction false} CountedIsTotal(ts: seq<Task>, kind: TransactionResult -> bool, c: Class)
    requires forall r :: kind(r) <==> ClassOf(r) == c
    ensures Counted(ts, kind) == Total(InTotal(c), ts)
  {
    if ts != [] {
      CountedIsTotal(ts[..|ts| - 1], kind, c);
    }
  }

  /** Each total counts the transactions that ended as its name says, of all that are past that count. */
  lemma TotalsCountKinds(cfg: Config, users: seq<nat>, actions: seq<Action>)
    requires Execute(cfg, users, actions).Some?
    ensures var s := Execute(cfg, users, actions).value;
            && s.tracker.total.success == Counted(s.tasks, (r: TransactionResult) => r.Success?)
            && s.tracker.total.failed == Counted(s.tasks, (r: TransactionResult) => r.Failed?)
            && s.tracker.total.timeout == Counted(s.tasks, (r: TransactionResult) => r.Timeout?)
            && s.tracker.total.dropped == Counted(s.tasks, (r: TransactionResult) => r.Dropped?)
  {
    hide Execute, Total, Counted;
    EveryRunKeepsInvariant(cfg, users, actions);
    var s := Execute(cfg, users, actions).value;
    var t := s.tracker.total;
    assert t.Of(Succeeded) == Total(InTotal(Succeeded), s.tasks) && t.Of(Erred) == Total(InTotal(Erred), s.tasks);
    assert t.Of(TimedOut) == Total(InTotal(TimedOut), s.tasks) && t.Of(WasDropped) == Total(InTotal(WasDropped), s.tasks);
    CountedIsTotal(s.tasks, (r: TransactionResult) => r.Success?, Succeeded);
    CountedIsTotal(s.tasks, (r: TransactionResult) => r.Failed?, Erred);
    CountedIsTotal(s.tasks, (r: TransactionResult) => r.Timeout?, TimedOut);
    CountedIsTotal(s.tasks, (r: TransactionResult) => r.Dropped?, WasDropped);
  }

  // ---------------------------------------------------------------- the order of results

  /** The results that a run pushed, in the order in which it did. */
  function PushedInOrder(cfg: Config, users: seq<nat>, actions: seq<Action>): seq<TransactionResult>
    requires Execute(cfg, users, actions).Some?
  {
    if actions == [] then []
    else
      var init, a := actions[..|actions| - 1], actions[|actions| - 1];
      var s := Execute(cfg, users, init).value;
      PushedInOrder(cfg, users, init) + if LogsAt(s, a, PushResult) then [s.tasks[a.i].result] else []
  }

  /** All results: first those reported, then those in the running snapshot, then those in the interval. */
  function AllResults(s: State): seq<TransactionResult> {
    Reported(s.sent).results + Captured(s.reporter).results + s.tracker.interval.results
  }

  lemma TaskPushes(cfg: Config, s: State, i: nat, step: TaskStep)
    requires Apply(cfg, s, TaskAction(i, step)).Some?
    ensures var s' := Apply(cfg, s, TaskAction(i, step)).value;
            && s'.sent == s.sent && s'.reporter == s.reporter
            && s'.tracker.interval.results
               == s.tracker.interval.results + (if LogsAt(s, TaskAction(i, step), PushResult) then [s.tasks[i].result] else [])
  {
    hide SwapRemove;
  }

  lemma SwapKeepsOrder(cfg: Config, s: State)
    requires SnapshotInOrder(s) && Apply(cfg, s, Swap).Some?
    ensures AllResults(Apply(cfg, s, Swap).value) == AllResults(s)
  {
    hide Reported;
  }

  lemma SendKeepsOrder(cfg: Config, s: State)
    requires Apply(cfg, s, SendReport).Some?
    ensures AllResults(Apply(cfg, s, SendReport).value) == AllResults(s)
  {
    ReportedLast(s.sent, Apply(cfg, s, SendReport).value.sent[|s.sent|]);
    hide Reported;
  }

  lemma OthersKeepResults(cfg: Config, s: State, a: Action)
    requires Apply(cfg, s, a).Some? && !a.TaskAction? && a != Swap && a != SendReport
    ensures var s' := Apply(cfg, s, a).value;
            && s'.tracker.interval == s.tracker.interval && Captured(s'.reporter).results == Captured(s.reporter).results
            && (s'.sent == s.sent || s'.sent == s.sent + [Finished])
  {
    hide StepHeading;
  }

  lemma ReporterKeepsOrder(cfg: Config, s: State, a: Action)
    requires SnapshotInOrder(s) && Apply(cfg, s, a).Some? && !a.TaskAction?
    ensures AllResults(Apply(cfg, s, a).value) == AllResults(s)
  {
    hide Apply, Reported;
    match a
    case SendReport => SendKeepsOrder(cfg, s);
    case Swap => SwapKeepsOrder(cfg, s);
    case _ =>
      OthersKeepResults(cfg, s, a);
      ReportedLast(s.sent, Finished);
      AddIsAssociative(Reported(s.sent), NoStatistics, NoStatistics);
  }

  /** Results reach the reports in the order in which they were pushed, whatever snapshots cut in between. */
  lemma {:induction false} ResultsKeepTheirOrder(cfg: Config, users: seq<nat>, actions: seq<Action>)
    requires Execute(cfg, users, actions).Some?
    ensures AllResults(Execute(cfg, users, actions).value) == PushedInOrder(cfg, users, actions)
  {
    hide Apply, AllResults, LogsAt, Initial, Invariant;
    if actions != [] {
      var init, a := actions[..|actions| - 1], actions[|actions| - 1];
      ResultsKeepTheirOrder(cfg, users, init);
      var s := Execute(cfg, users, init).value;
      if a.TaskAction? {
        TaskPushes(cfg, s, a.i, a.step);
        AllResultsOfTask(s, Apply(cfg, s, a).value);
      } else {
        EveryRunKeepsInvariant(cfg, users, init);
        InvariantHasOrder(cfg, users, s);
        ReporterKeepsOrder(cfg, s, a);
        OnlyTasksAdd(s, a, ServiceSum);
      }
    } else {
      NoResults(users);
    }
  }

  lemma InvariantHasOrder(cfg: Config, users: seq<nat>, s: State)
    requires Invariant(cfg, users, s)
    ensures SnapshotInOrder(s)
  {
  }

  lemma AllResultsOfTask(s: State, s': State)
    requires s'.sent == s.sent && s'.reporter == s.reporter && s.tracker.interval.results <= s'.tracker.interval.results
    ensures AllResults(s') == AllResults(s) + s'.tracker.interval.results[|s.tracker.interval.results|..]
  {
  }

  lemma NoResults(users: seq<nat>)
    ensures AllResults(Initial(users)) == []
  {
  }
}
