/** What every run of a load generator keeps, over all interleavings. */
module GeneratorProofs {
  import opened Wrappers
  import opened Reports
  import opened Tracker
  import opened Schedule
  import opened Generator
  import opened GeneratorSums
  import opened Vectors

  // ---------------------------------------------------------------- what has been reported

  /** The statistics in one update. */
  function StatsOf(u: GeneratorUpdate): IntervalStatistics {
    if u.Interval? then u.report.stats else NoStatistics
  }

  /** The sum of everything sent so far. */
  function Reported(sent: seq<GeneratorUpdate>): IntervalStatistics {
    if sent == [] then NoStatistics else Add(Reported(sent[..|sent| - 1]), StatsOf(sent[|sent| - 1]))
  }

  /** What a running snapshot has already taken out of the tracker. */
  function Captured(r: Reporter): IntervalStatistics {
    if r.Snapshot? then r.part else NoStatistics
  }

  // ---------------------------------------------------------------- the invariants

  /** The pool's vector and its semaphore agree up to the tasks that are between the two. */
  ghost predicate PermitsMatch(s: State) {
    |s.pool.users| == s.pool.permits + Total(PermitTaken, s.tasks) + Total(PermitOwed, s.tasks)
  }

  /** Pooled and held users together are exactly the initial users. */
  ghost predicate UsersConserved(users: seq<nat>, s: State) {
    multiset(s.pool.users) + Held(s.tasks) == multiset(users)
  }

  /** Every dispatch has its task, except while the pacer is between the two. */
  ghost predicate DispatchesMatch(s: State) {
    && s.tracker.dispatched == |s.tasks| + (if s.pacer == Counted then 1 else 0)
    && (forall c :: s.tracker.total.Of(c) == Total(InTotal(c), s.tasks))
  }

  /**
   Conservation of what is logged: for every field of the statistics, interval plus running
   snapshot plus sent reports is what the tasks have put in, and likewise for the results.
   */
  ghost predicate NothingLost(s: State) {
    && (forall f :: Read(s.tracker.interval, f) + Read(Captured(s.reporter), f) + Read(Reported(s.sent), f)
                    == Total(InInterval(f), s.tasks))
    && multiset(s.tracker.interval.results) + multiset(Captured(s.reporter).results) + multiset(Reported(s.sent).results)
       == PushedResults(s.tasks)
  }

  /** A snapshot has not yet filled the fields whose swap is still to come. */
  ghost predicate SnapshotInOrder(s: State) {
    s.reporter.Snapshot? ==>
      var p, n := s.reporter.part, s.reporter.n;
      && n <= SWAPS
      && (n <= 0 ==> p.counts.success == 0) && (n <= 1 ==> p.counts.failed == 0)
      && (n <= 2 ==> p.counts.timeout == 0) && (n <= 3 ==> p.counts.dropped == 0)
      && (n <= 4 ==> p.serviceSum == 0) && (n <= 5 ==> p.serviceCount == 0) && (n <= 6 ==> p.results == [])
  }

  // ---------------------------------------------------------------- users and permits

  lemma PermitsMatchStep(cfg: Config, s: State, a: Action)
    requires PermitsMatch(s) && Apply(cfg, s, a).Some?
    ensures PermitsMatch(Apply(cfg, s, a).value)
  {
    hide PermitsMatch, Apply;
    match a
    case TaskAction(i, step) => PermitsMatchTask(cfg, s, i, step);
    case SpawnTask => PermitsMatchSpawn(cfg, s);
    case _ => PermitsMatchElsewhere(cfg, s, a);
  }

  lemma PermitsMatchTask(cfg: Config, s: State, i: nat, step: TaskStep)
    requires PermitsMatch(s) && Apply(cfg, s, TaskAction(i, step)).Some?
    ensures PermitsMatch(Apply(cfg, s, TaskAction(i, step)).value)
  {
    hide Weight, StepTask;
    StepKeepsPermits(s.tasks[i], s.pool, s.tracker, step);
    var e := StepTask(s.tasks[i], s.pool, s.tracker, step).value;
    TotalUpdate(PermitTaken, s.tasks, i, e.task);
    TotalUpdate(PermitOwed, s.tasks, i, e.task);
  }

  lemma PermitsMatchSpawn(cfg: Config, s: State)
    requires PermitsMatch(s) && Apply(cfg, s, SpawnTask).Some?
    ensures PermitsMatch(Apply(cfg, s, SpawnTask).value)
  {
    hide Weight, Total;
    SpawnAddsNothing(s.tasks);
  }

  lemma PermitsMatchElsewhere(cfg: Config, s: State, a: Action)
    requires PermitsMatch(s) && Apply(cfg, s, a).Some? && !a.TaskAction? && a != SpawnTask
    ensures PermitsMatch(Apply(cfg, s, a).value)
  {
    hide PermitsMatch, SwapStep, StepHeading;
    var s' := Apply(cfg, s, a).value;
    assert s'.pool == s.pool && s'.tasks == s.tasks;
    PermitsCarryOver(s, s');
  }

  lemma PermitsCarryOver(s: State, s': State)
    requires PermitsMatch(s) && s'.pool == s.pool && s'.tasks == s.tasks
    ensures PermitsMatch(s')
  {
  }

  lemma UsersConservedStep(cfg: Config, users: seq<nat>, s: State, a: Action)
    requires UsersConserved(users, s) && Apply(cfg, s, a).Some?
    ensures UsersConserved(users, Apply(cfg, s, a).value)
  {
    hide Apply, UsersConserved;
    match a
    case TaskAction(i, step) => UsersConservedTask(cfg, users, s, i, step);
    case SpawnTask => UsersConservedSpawn(cfg, users, s);
    case _ => UsersConservedElsewhere(cfg, users, s, a);
  }

  lemma UsersConservedSpawn(cfg: Config, users: seq<nat>, s: State)
    requires UsersConserved(users, s) && Apply(cfg, s, SpawnTask).Some?
    ensures UsersConserved(users, Apply(cfg, s, SpawnTask).value)
  {
    hide Held;
    SpawnAddsNothing(s.tasks);
  }

  lemma UsersConservedElsewhere(cfg: Config, users: seq<nat>, s: State, a: Action)
    requires UsersConserved(users, s) && Apply(cfg, s, a).Some? && !a.TaskAction? && a != SpawnTask
    ensures UsersConserved(users, Apply(cfg, s, a).value)
  {
    hide UsersConserved, SwapStep, StepHeading;
    var s' := Apply(cfg, s, a).value;
    assert s'.pool == s.pool && s'.tasks == s.tasks;
    SamePoolSameTasks(users, s, s');
  }

  lemma SamePoolSameTasks(users: seq<nat>, s: State, s': State)
    requires UsersConserved(users, s) && s'.pool == s.pool && s'.tasks == s.tasks
    ensures UsersConserved(users, s')
  {
  }

  lemma UsersConservedTask(cfg: Config, users: seq<nat>, s: State, i: nat, step: TaskStep)
    requires UsersConserved(users, s) && Apply(cfg, s, TaskAction(i, step)).Some?
    ensures UsersConserved(users, Apply(cfg, s, TaskAction(i, step)).value)
  {
    hide HeldBy, StepTask, Held;
    StepKeepsUsers(s.tasks[i], s.pool, s.tracker, step);
    var e := StepTask(s.tasks[i], s.pool, s.tracker, step).value;
    HeldUpdate(s.tasks, i, e.task);
    MoveUnit(multiset(e.pool.users), Held(s.tasks[i := e.task]), HeldBy(s.tasks[i]),
             multiset(s.pool.users), Held(s.tasks), HeldBy(e.task));
  }

  /** If `x' + h' = x + h` and `y' + h = y + h'` then `x' + y' = x + y`. */
  lemma MoveUnit<T>(x': multiset<T>, y': multiset<T>, h: multiset<T>, x: multiset<T>, y: multiset<T>, h': multiset<T>)
    requires x' + h' == x + h && y' + h == y + h'
    ensures x' + y' == x + y
  {
    forall e: T ensures (x' + y')[e] == (x + y)[e] {
      assert (x' + h')[e] == (x + h)[e] && (y' + h)[e] == (y + h')[e];
    }
  }

  // ---------------------------------------------------------------- counters

  /** No pacer runs during the pause or the drain. */
  ghost predicate PacerRests(s: State) {
    s.phase == Drain || s.reporter == Pausing ==> s.pacer == Gone
  }

  lemma DispatchesMatchStep(cfg: Config, s: State, a: Action)
    requires DispatchesMatch(s) && PacerRests(s) && Apply(cfg, s, a).Some?
    ensures DispatchesMatch(Apply(cfg, s, a).value)
  {
    match a
    case TaskAction(i, step) => DispatchesMatchTask(cfg, s, i, step);
    case SpawnTask => SpawnAddsNothing(s.tasks);
    case _ => DispatchesMatchElsewhere(cfg, s, a);
  }

  lemma DispatchesMatchTask(cfg: Config, s: State, i: nat, step: TaskStep)
    requires DispatchesMatch(s) && Apply(cfg, s, TaskAction(i, step)).Some?
    ensures DispatchesMatch(Apply(cfg, s, TaskAction(i, step)).value)
  {
    hide Weight, StepTask;
    var s' := Apply(cfg, s, TaskAction(i, step)).value;
    var e := StepTask(s.tasks[i], s.pool, s.tracker, step).value;
    StepKeepsCounters(s.tasks[i], s.pool, s.tracker, step, InAnyTotal);
    forall c ensures s'.tracker.total.Of(c) == Total(InTotal(c), s'.tasks) {
      StepKeepsCounters(s.tasks[i], s.pool, s.tracker, step, InTotal(c));
      TotalUpdate(InTotal(c), s.tasks, i, e.task);
    }
  }

  lemma DispatchesMatchElsewhere(cfg: Config, s: State, a: Action)
    requires DispatchesMatch(s) && PacerRests(s) && Apply(cfg, s, a).Some? && !a.TaskAction? && a != SpawnTask
    ensures DispatchesMatch(Apply(cfg, s, a).value)
  {
    hide Total, StepHeading;
    var s' := Apply(cfg, s, a).value;
    assert s'.tracker.total == s.tracker.total && s'.tasks == s.tasks;
  }

  lemma SwapKeepsFields(t: TrackerState, part: IntervalStatistics, n: nat, f: Field)
    requires n < SWAPS
    requires (n <= 0 ==> part.counts.success == 0) && (n <= 1 ==> part.counts.failed == 0)
    requires (n <= 2 ==> part.counts.timeout == 0) && (n <= 3 ==> part.counts.dropped == 0)
    requires (n <= 4 ==> part.serviceSum == 0) && (n <= 5 ==> part.serviceCount == 0) && (n <= 6 ==> part.results == [])
    ensures var (t', part') := SwapStep(t, part, n);
            && Read(t'.interval, f) + Read(part', f) == Read(t.interval, f) + Read(part, f)
            && multiset(t'.interval.results) + multiset(part'.results) == multiset(t.interval.results) + multiset(part.results)
            && t'.total == t.total && t'.dispatched == t.dispatched
  {
  }

  lemma SnapshotInOrderStep(cfg: Config, s: State, a: Action)
    requires SnapshotInOrder(s) && Apply(cfg, s, a).Some?
    ensures SnapshotInOrder(Apply(cfg, s, a).value)
  {
    hide StepTask, StepHeading;
  }

  lemma NothingLostStep(cfg: Config, s: State, a: Action)
    requires NothingLost(s) && SnapshotInOrder(s) && Apply(cfg, s, a).Some?
    ensures NothingLost(Apply(cfg, s, a).value)
  {
    match a
    case TaskAction(i, step) => NothingLostTask(cfg, s, i, step);
    case SpawnTask =>
      SpawnAddsNothing(s.tasks);
      FieldsCarryOver(s, Apply(cfg, s, a).value);
    case Swap => NothingLostSwap(cfg, s);
    case SendReport => NothingLostSend(cfg, s);
    case Finish => NothingLostFinish(cfg, s);
    case _ => NothingLostElsewhere(cfg, s, a);
  }

  lemma NothingLostElsewhere(cfg: Config, s: State, a: Action)
    requires NothingLost(s) && Apply(cfg, s, a).Some?
    requires !a.TaskAction? && a != SpawnTask && a != Swap && a != SendReport && a != Finish
    ensures NothingLost(Apply(cfg, s, a).value)
  {
    hide NothingLost, Read, StepHeading;
    var s' := Apply(cfg, s, a).value;
    assert s'.tracker.interval == s.tracker.interval && Captured(s'.reporter) == Captured(s.reporter);
    FieldsCarryOver(s, s');
  }

  lemma FieldsCarryOver(s: State, s': State)
    requires NothingLost(s)
    requires s'.tracker.interval == s.tracker.interval && Captured(s'.reporter) == Captured(s.reporter)
    requires Reported(s'.sent) == Reported(s.sent)
    requires PushedResults(s'.tasks) == PushedResults(s.tasks) && forall k :: Total(k, s'.tasks) == Total(k, s.tasks)
    ensures NothingLost(s')
  {
  }

  lemma NothingLostTask(cfg: Config, s: State, i: nat, step: TaskStep)
    requires NothingLost(s) && Apply(cfg, s, TaskAction(i, step)).Some?
    ensures NothingLost(Apply(cfg, s, TaskAction(i, step)).value)
  {
    hide Weight, StepTask, PushedBy;
    var s' := Apply(cfg, s, TaskAction(i, step)).value;
    var e := StepTask(s.tasks[i], s.pool, s.tracker, step).value;
    forall f ensures Read(s'.tracker.interval, f) + Read(Captured(s'.reporter), f) + Read(Reported(s'.sent), f)
                     == Total(InInterval(f), s'.tasks) {
      StepKeepsCounters(s.tasks[i], s.pool, s.tracker, step, InInterval(f));
      TotalUpdate(InInterval(f), s.tasks, i, e.task);
    }
    StepKeepsResults(s.tasks[i], s.pool, s.tracker, step);
    PushedUpdate(s.tasks, i, e.task);
    var elsewhere := multiset(Captured(s.reporter).results) + multiset(Reported(s.sent).results);
    var before, after := multiset(s.tracker.interval.results), multiset(s'.tracker.interval.results);
    assert before + elsewhere == PushedResults(s.tasks);
    AddUnit(after, PushedBy(s.tasks[i]), before, PushedBy(e.task), elsewhere, PushedResults(s.tasks), PushedResults(s'.tasks));
    assert after + elsewhere == after + multiset(Captured(s.reporter).results) + multiset(Reported(s.sent).results);
  }

  lemma AddUnit<T>(x': multiset<T>, p: multiset<T>, x: multiset<T>, p': multiset<T>,
                   y: multiset<T>, all: multiset<T>, all': multiset<T>)
    requires x' + p == x + p' && x + y == all && all' + p == all + p'
    ensures x' + y == all'
  {
    forall e: T ensures (x' + y)[e] == all'[e] {
      assert (x' + p)[e] == (x + p')[e] && (x + y)[e] == all[e] && (all' + p)[e] == (all + p')[e];
    }
  }

  lemma NothingLostSwap(cfg: Config, s: State)
    requires NothingLost(s) && SnapshotInOrder(s) && Apply(cfg, s, Swap).Some?
    ensures NothingLost(Apply(cfg, s, Swap).value)
  {
    hide SwapStep, Read;
    var s' := Apply(cfg, s, Swap).value;
    forall f ensures Read(s'.tracker.interval, f) + Read(Captured(s'.reporter), f) + Read(Reported(s'.sent), f)
                     == Total(InInterval(f), s'.tasks) {
      SwapKeepsFields(s.tracker, s.reporter.part, s.reporter.n, f);
    }
    SwapKeepsFields(s.tracker, s.reporter.part, s.reporter.n, ServiceSum);
  }

  lemma NothingLostSend(cfg: Config, s: State)
    requires NothingLost(s) && Apply(cfg, s, SendReport).Some?
    ensures NothingLost(Apply(cfg, s, SendReport).value)
  {
    var s' := Apply(cfg, s, SendReport).value;
    var part := s.reporter.part;
    assert s'.sent[..|s.sent|] == s.sent;
    assert Reported(s'.sent) == Add(Reported(s.sent), part);
    assert Captured(s'.reporter) == NoStatistics;
    forall f ensures Read(s'.tracker.interval, f) + Read(Captured(s'.reporter), f) + Read(Reported(s'.sent), f)
                     == Total(InInterval(f), s'.tasks) {
      ReadAdd(Reported(s.sent), part, f);
    }
    assert multiset(Reported(s'.sent).results) == multiset(Reported(s.sent).results) + multiset(part.results);
  }

  lemma NothingLostFinish(cfg: Config, s: State)
    requires NothingLost(s) && Apply(cfg, s, Finish).Some?
    ensures NothingLost(Apply(cfg, s, Finish).value)
  {
    var s' := Apply(cfg, s, Finish).value;
    assert s'.sent[..|s.sent|] == s.sent;
    AddIsAssociative(Reported(s.sent), NoStatistics, NoStatistics);
    hide NothingLost;
    FieldsCarryOver(s, s');
  }

  // ---------------------------------------------------------------- the order of reports

  /** The channel holds exactly the announcements made but not yet received, in order. */
  ghost predicate Consecutive(channel: seq<StepDoneMessage>, first: nat, end: nat) {
    first + |channel| == end && forall i :: 0 <= i < |channel| ==> channel[i].index == first + i
  }

  ghost predicate HeadingIsPlan(cfg: Config, h: Heading, k: nat) {
    k < cfg.Planned() && (h.targetTime, h.loadLevel) == (Plan(cfg, k).1, Plan(cfg, k).2)
  }

  /** The phase that report number `k` belongs to. */
  ghost predicate InPhase(cfg: Config, phase: Phase, k: nat) {
    if k < cfg.Planned() then Plan(cfg, k).0 == phase else phase == Drain
  }

  /** Sent updates follow the plan, then drain reports follow, then at most one `Finished`. */
  ghost predicate SentAsPlanned(cfg: Config, sent: seq<GeneratorUpdate>) {
    forall k :: 0 <= k < |sent| ==>
      if k < cfg.Planned() then
        && sent[k].Interval?
        && (sent[k].report.targetTime, sent[k].report.loadLevel) == (Plan(cfg, k).1, Plan(cfg, k).2)
        && (Plan(cfg, k).0 == Pause ==> sent[k].report.finalBatchTime == None)
      else if sent[k].Interval? then sent[k].report.loadLevel == 0 && sent[k].report.finalBatchTime == None
      else k == |sent| - 1
  }

  /** Pacer, channel and reporting loop keep step with the number of reports sent. */
  ghost predicate InStep(cfg: Config, s: State) {
    var busy := if s.reporter.Snapshot? then 1 else 0;
    var done := |s.sent| + busy;
    && (s.reporter.Snapshot? && s.phase != Drain ==>
          HeadingIsPlan(cfg, s.reporter.heading, |s.sent|) && Plan(cfg, |s.sent|).0 == s.phase)
    && (s.reporter.Snapshot? && s.phase == Drain ==> s.reporter.heading.loadLevel == 0)
    && (s.reporter.Snapshot? && (s.phase == Pause || s.phase == Drain) ==> s.reporter.heading.finalBatchTime == None)
    && match s.phase
       case Warmup =>
         && (s.reporter.Receiving? || s.reporter.Snapshot?)
         && Consecutive(s.channel, done, s.nextStep) && s.nextStep <= cfg.warmupDuration
         && (s.pacer == Gone ==> s.nextStep == cfg.warmupDuration)
       case Pause =>
         && (s.reporter.Pausing? || s.reporter.Snapshot?)
         && s.pacer == Gone && s.channel == []
         && done == cfg.warmupDuration + s.pauses && s.pauses <= cfg.warmupPause
       case Load =>
         && (s.reporter.Receiving? || s.reporter.Snapshot?)
         && done >= cfg.warmupDuration + cfg.warmupPause
         && Consecutive(s.channel, done - cfg.warmupDuration - cfg.warmupPause, s.nextStep) && s.nextStep <= |cfg.profile|
         && (s.pacer == Gone ==> s.nextStep == |cfg.profile|)
       case Drain =>
         && !s.reporter.Receiving? && !s.reporter.Pausing?
         && s.pacer == Gone && s.channel == []
         && |s.sent| >= cfg.Planned()
  }

  /** `Finished` is sent last, and only then is the loop over. */
  ghost predicate FinishedLast(cfg: Config, s: State) {
    && (s.reporter == Ended ==>
          s.phase == Drain && s.sent != [] && s.sent[|s.sent| - 1] == Finished && |s.sent| > cfg.Planned())
    && (s.reporter != Ended ==> forall k :: 0 <= k < |s.sent| ==> s.sent[k].Interval?)
  }

  lemma InStepStep(cfg: Config, s: State, a: Action)
    requires InStep(cfg, s) && Apply(cfg, s, a).Some?
    ensures InStep(cfg, Apply(cfg, s, a).value)
  {
    if a.TaskAction? || PacerAction(a) {
      hide StepTask, Plan;
    } else {
      InStepReporter(cfg, s, a);
    }
  }

  lemma InStepReporter(cfg: Config, s: State, a: Action)
    requires InStep(cfg, s) && Apply(cfg, s, a).Some? && !a.TaskAction? && !PacerAction(a)
    ensures InStep(cfg, Apply(cfg, s, a).value)
  {
    hide SwapStep;
    var s' := Apply(cfg, s, a).value;
    match a
    case ReceiveStepDone =>
    case Swap => hide Plan;
    case SendReport => hide Plan;
    case _ =>
  }

  lemma PacerRestsInStep(cfg: Config, s: State)
    requires InStep(cfg, s)
    ensures PacerRests(s)
  {
  }

  lemma SentAsPlannedStep(cfg: Config, s: State, a: Action)
    requires InStep(cfg, s) && FinishedLast(cfg, s) && SentAsPlanned(cfg, s.sent) && Apply(cfg, s, a).Some?
    ensures FinishedLast(cfg, Apply(cfg, s, a).value) && SentAsPlanned(cfg, Apply(cfg, s, a).value.sent)
  {
    hide StepTask, SwapStep, StepHeading;
  }

  // ---------------------------------------------------------------- the in-flight count

  function TotalsRead(c: Counts, n: nat): nat {
    if n == 0 then 0 else TotalsRead(c, n - 1) + TotalAt(c, n - 1)
  }

  /** What `inflight_count` has read so far is not ahead of the counters. */
  ghost predicate ReadsAreBehind(s: State) {
    && (s.reporter.ReadTotals? ==>
          && s.phase == Drain && s.reporter.n <= TOTALS
          && s.reporter.dispatched == s.tracker.dispatched
          && s.reporter.sum <= TotalsRead(s.tracker.total, s.reporter.n))
    && (s.reporter == Ended ==> forall i :: 0 <= i < |s.tasks| ==> Weight(InAnyTotal, s.tasks[i]) == 1)
  }

  lemma TotalsOnlyGrow(c: Counts, c': Counts, n: nat)
    requires n <= TOTALS && forall k :: c.Of(k) <= c'.Of(k)
    ensures TotalsRead(c, n) <= TotalsRead(c', n)
  {
    assert c.Of(Succeeded) <= c'.Of(Succeeded) && c.Of(Erred) <= c'.Of(Erred);
    assert c.Of(TimedOut) <= c'.Of(TimedOut) && c.Of(WasDropped) <= c'.Of(WasDropped);
    assert forall d: Counts :: TotalsRead(d, 1) == d.success && TotalsRead(d, 2) == d.success + d.failed;
    assert forall d: Counts :: TotalsRead(d, 3) == TotalsRead(d, 2) + d.timeout && TotalsRead(d, 4) == d.Sum();
  }

  lemma ReadsAreBehindStep(cfg: Config, s: State, a: Action)
    requires InStep(cfg, s) && DispatchesMatch(s) && ReadsAreBehind(s) && Apply(cfg, s, a).Some?
    ensures ReadsAreBehind(Apply(cfg, s, a).value)
  {
    match a
    case TaskAction(i, step) => ReadsAreBehindTask(cfg, s, i, step);
    case Finish => FinishMeansAllInTotal(s);
    case Swap => hide Weight;
    case _ => hide Weight, SwapStep;
  }

  lemma ReadsAreBehindTask(cfg: Config, s: State, i: nat, step: TaskStep)
    requires ReadsAreBehind(s) && Apply(cfg, s, TaskAction(i, step)).Some?
    ensures ReadsAreBehind(Apply(cfg, s, TaskAction(i, step)).value)
  {
    hide Weight, StepTask, TotalsRead;
    var s' := Apply(cfg, s, TaskAction(i, step)).value;
    var e := StepTask(s.tasks[i], s.pool, s.tracker, step).value;
    StepKeepsCounters(s.tasks[i], s.pool, s.tracker, step, InAnyTotal);
    WeightAtMostOne(e.task);
    forall c ensures s.tracker.total.Of(c) <= s'.tracker.total.Of(c) {
      StepKeepsCounters(s.tasks[i], s.pool, s.tracker, step, InTotal(c));
    }
    if s.reporter.ReadTotals? {
      TotalsOnlyGrow(s.tracker.total, s'.tracker.total, s.reporter.n);
    }
  }

  lemma WeightAtMostOne(t: Task)
    ensures Weight(InAnyTotal, t) <= 1
  {
  }

  /** The four loads are not atomic together, yet zero in flight means every task is in a total. */
  lemma FinishMeansAllInTotal(s: State)
    requires DispatchesMatch(s) && ReadsAreBehind(s)
    requires s.reporter.ReadTotals? && s.reporter.n == TOTALS && s.reporter.dispatched <= s.reporter.sum
    ensures forall i :: 0 <= i < |s.tasks| ==> Weight(InAnyTotal, s.tasks[i]) == 1
  {
    var c := s.tracker.total;
    assert TotalsRead(c, 1) == c.success;
    assert TotalsRead(c, 2) == c.success + c.failed;
    assert TotalsRead(c, 3) == c.success + c.failed + c.timeout;
    assert TotalsRead(c, 4) == c.Sum();
    assert c.Of(Succeeded) + c.Of(Erred) + c.Of(TimedOut) + c.Of(WasDropped) == c.Sum();
    AnyTotalIsSumOfTotals(s.tasks);
    AnyTotalAtMostAll(s.tasks);
  }

  // ---------------------------------------------------------------- every run

  ghost predicate Invariant(cfg: Config, users: seq<nat>, s: State) {
    && PermitsMatch(s) && UsersConserved(users, s)
    && DispatchesMatch(s) && NothingLost(s) && SnapshotInOrder(s)
    && InStep(cfg, s) && FinishedLast(cfg, s) && SentAsPlanned(cfg, s.sent) && ReadsAreBehind(s)
  }

  lemma InvariantStep(cfg: Config, users: seq<nat>, s: State, a: Action)
    requires Invariant(cfg, users, s) && Apply(cfg, s, a).Some?
    ensures Invariant(cfg, users, Apply(cfg, s, a).value)
  {
    hide Apply, PermitsMatch, UsersConserved, DispatchesMatch, NothingLost, SnapshotInOrder;
    hide InStep, FinishedLast, SentAsPlanned, ReadsAreBehind;
    PacerRestsInStep(cfg, s);
    PermitsMatchStep(cfg, s, a);
    UsersConservedStep(cfg, users, s, a);
    DispatchesMatchStep(cfg, s, a);
    NothingLostStep(cfg, s, a);
    SnapshotInOrderStep(cfg, s, a);
    InStepStep(cfg, s, a);
    SentAsPlannedStep(cfg, s, a);
    ReadsAreBehindStep(cfg, s, a);
  }

  lemma {:induction false} FollowKeepsInvariant(cfg: Config, users: seq<nat>, s: State, actions: seq<Action>)
    requires Invariant(cfg, users, s) && Follow(cfg, s, actions).Some?
    ensures Invariant(cfg, users, Follow(cfg, s, actions).value)
  {
    hide Apply, Invariant;
    if actions != [] {
      var init := actions[..|actions| - 1];
      FollowKeepsInvariant(cfg, users, s, init);
      InvariantStep(cfg, users, Follow(cfg, s, init).value, actions[|actions| - 1]);
    }
  }

  /** The invariant holds after every run, whatever the interleaving and the outcomes. */
  lemma EveryRunKeepsInvariant(cfg: Config, users: seq<nat>, actions: seq<Action>)
    requires Execute(cfg, users, actions).Some?
    ensures Invariant(cfg, users, Execute(cfg, users, actions).value)
  {
    hide Invariant;
    InitialInvariant(cfg, users);
    FollowKeepsInvariant(cfg, users, Initial(users), actions);
  }

  lemma InitialInvariant(cfg: Config, users: seq<nat>)
    ensures Invariant(cfg, users, Initial(users))
  {
    assert multiset(users) + multiset{} == multiset(users);
  }
}
