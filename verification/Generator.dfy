/**
 One load generator as a state machine: the pacer thread, any number of transaction tasks, the
 virtual-user pool, the tracker and the reporting loop, in every interleaving of their atomic
 steps (src/dispatch.rs, src/virtual_user/pool.rs, src/virtual_user/user.rs, src/tracker.rs,
 src/load_generator/phases/ready.rs).

 Time, the system under test and the random choice of a user are arbitrary: a step that depends
 on them is enabled with every outcome.
 */
module Generator {
  import opened Wrappers
  import opened Reports
  import opened Tracker
  import opened Schedule
  import opened Vectors

  // ---------------------------------------------------------------- configuration

  datatype Config = Config(warmupRate: nat, warmupDuration: nat, warmupPause: nat, profile: seq<LoadStep>) {
    /** The rounds whose reports are fixed in advance. */
    function Planned(): nat {
      warmupDuration + warmupPause + |profile|
    }
  }

  datatype Phase = Warmup | Pause | Load | Drain

  /** The phase, target time and load level of the k-th planned report. */
  function Plan(cfg: Config, k: nat): (Phase, nat, nat)
    requires k < cfg.Planned()
  {
    if k < cfg.warmupDuration then (Warmup, (k + 1) * SECOND, cfg.warmupRate)
    else if k < cfg.warmupDuration + cfg.warmupPause then (Pause, (k - cfg.warmupDuration + 1) * SECOND, 0)
    else
      var step := cfg.profile[k - cfg.warmupDuration - cfg.warmupPause];
      (Load, step.deadline, step.count)
  }

  // ---------------------------------------------------------------- transaction tasks

  /** Where a transaction task is: what it does next. */
  datatype Task =
    | Spawned                                          // check the clock, then try the pool
    | Waiting                                          // waits for a permit, with a timeout
    | Granted                                          // was handed a permit but has not run yet
    | Taker(waited: bool)                              // holds a forgotten permit, takes a user
    | Acquired(user: nat)                              // got a user late, checks the clock again
    | Sending(user: nat)                               // the request is under way
    | Returning(user: nat, result: TransactionResult)  // puts the user back
    | Pushed(result: TransactionResult)                // user is back, permit is not yet
    | Logging(result: TransactionResult, stage: LogStage)

  datatype Pool = Pool(users: seq<nat>, permits: nat)

  datatype TaskStep =
    | FoundLate(detail: nat)
    | TryAcquire
    | StartWaiting
    | Grant
    | Forget
    | TimeOut(detail: nat)
    | Take(index: nat)
    | CheckDeadline(late: bool, detail: nat)
    | Answer(result: TransactionResult)
    | Push
    | AddPermit
    | Log

  datatype Effect = Effect(task: Task, pool: Pool, tracker: TrackerState)

  /** One step of one task, or `None` if the task cannot take that step now. */
  function StepTask(task: Task, pool: Pool, tracker: TrackerState, step: TaskStep): Option<Effect> {
    match (task, step)
    case (Spawned, FoundLate(d)) => Some(Effect(Logging(Dropped(d, Late), BumpTotal), pool, tracker))
    case (Spawned, TryAcquire) =>
      if pool.permits > 0 then Some(Effect(Taker(false), pool.(permits := pool.permits - 1), tracker)) else None
    case (Spawned, StartWaiting) =>
      if pool.permits == 0 then Some(Effect(Waiting, pool, tracker)) else None
    case (Waiting, Grant) =>
      if pool.permits > 0 then Some(Effect(Granted, pool.(permits := pool.permits - 1), tracker)) else None
    case (Waiting, TimeOut(d)) => Some(Effect(Logging(Dropped(d, NoVirtualUser), BumpTotal), pool, tracker))
    case (Granted, TimeOut(d)) =>
      Some(Effect(Logging(Dropped(d, NoVirtualUser), BumpTotal), pool.(permits := pool.permits + 1), tracker))
    case (Granted, Forget) => Some(Effect(Taker(true), pool, tracker))
    case (Taker(waited), Take(index)) =>
      if index < |pool.users| then
        var user := pool.users[index];
        Some(Effect(if waited then Acquired(user) else Sending(user),
                    pool.(users := SwapRemove(pool.users, index)), tracker))
      else None
    case (Acquired(user), CheckDeadline(late, d)) =>
      Some(Effect(if late then Returning(user, Dropped(d, NoVirtualUser)) else Sending(user), pool, tracker))
    case (Sending(user), Answer(result)) => Some(Effect(Returning(user, result), pool, tracker))
    case (Returning(user, result), Push) =>
      Some(Effect(Pushed(result), pool.(users := pool.users + [user]), tracker))
    case (Pushed(result), AddPermit) =>
      Some(Effect(Logging(result, BumpTotal), pool.(permits := pool.permits + 1), tracker))
    case (Logging(result, stage), Log) =>
      if stage == Logged then None
      else Some(Effect(Logging(result, NextStage(result, stage)), pool, LogStep(tracker, result, stage)))
    case _ => None
  }

  // ---------------------------------------------------------------- pacer and reporter

  datatype StepDoneMessage = StepDoneMessage(index: nat, lastDispatch: Option<nat>)

  /** The pacer thread; `Gone` once `run_schedule` has returned and dropped the channel's sender. */
  datatype PacerState = Pacing | Counted | Gone

  datatype Heading = Heading(targetTime: nat, loadLevel: nat, finalBatchTime: Option<nat>)

  /** Where the reporting loop is. */
  datatype Reporter =
    | Receiving                                                   // waits for the next `StepDone`
    | Pausing                                                     // between pause reports
    | Snapshot(heading: Heading, n: nat, part: IntervalStatistics)  // n swaps done
    | ReadDispatched                                              // `inflight_count` begins
    | ReadTotals(n: nat, dispatched: nat, sum: nat)               // n totals read
    | Ended                                                       // `Finished` has been sent

  datatype State = State(
    tasks: seq<Task>, pool: Pool, tracker: TrackerState,
    pacer: PacerState, nextStep: nat, channel: seq<StepDoneMessage>,
    phase: Phase, pauses: nat, reporter: Reporter, sent: seq<GeneratorUpdate>)

  datatype Action =
    | TaskAction(i: nat, step: TaskStep)
    | CountDispatch
    | SpawnTask
    | SendStepDone(lastDispatch: Option<nat>)
    | EndPacing
    | ReceiveStepDone
    | EndPhase
    | PauseReport
    | EndPause
    | Swap
    | SendReport
    | BeginDrainReport(elapsed: nat)
    | LoadDispatched
    | LoadTotal
    | Finish

  const TOTALS := 4

  function TotalAt(c: Counts, n: nat): nat {
    if n == 0 then c.success else if n == 1 then c.failed else if n == 2 then c.timeout else c.dropped
  }

  /** The steps of the phase that is being paced. */
  function PhaseSteps(cfg: Config, phase: Phase): nat {
    match phase case Warmup => cfg.warmupDuration case Load => |cfg.profile| case _ => 0
  }

  function StepHeading(cfg: Config, phase: Phase, m: StepDoneMessage): Heading {
    if phase == Load && m.index < |cfg.profile|
    then Heading(cfg.profile[m.index].deadline, cfg.profile[m.index].count, m.lastDispatch)
    else Heading((m.index + 1) * SECOND, cfg.warmupRate, m.lastDispatch)
  }

  /** A drain report is due at the first whole second after the time that has passed. */
  function NextSecond(elapsed: nat): nat {
    (elapsed / SECOND + 1) * SECOND
  }

  function AfterReport(s: State): Reporter {
    match s.phase
    case Warmup => Receiving
    case Pause => Pausing
    case Load => Receiving
    case Drain => ReadDispatched
  }

  /** The generator that just received `Start`: all users are in the pool. */
  function Initial(users: seq<nat>): State {
    State([], Pool(users, |users|), FreshTracker, Pacing, 0, [], Warmup, 0, Receiving, [])
  }

  function Apply(cfg: Config, s: State, a: Action): Option<State> {
    match a
    case TaskAction(i, step) =>
      if i < |s.tasks| then
        match StepTask(s.tasks[i], s.pool, s.tracker, step)
        case None => None
        case Some(e) => Some(s.(tasks := s.tasks[i := e.task], pool := e.pool, tracker := e.tracker))
      else None
    case _ => if PacerAction(a) then ApplyPacer(cfg, s, a) else ApplyReporter(cfg, s, a)
  }

  predicate PacerAction(a: Action) {
    a.CountDispatch? || a.SpawnTask? || a.SendStepDone? || a.EndPacing?
  }

  function ApplyPacer(cfg: Config, s: State, a: Action): Option<State> {
    match a
    case CountDispatch =>
      if s.pacer == Pacing && s.nextStep < PhaseSteps(cfg, s.phase)
      then Some(s.(pacer := Counted, tracker := s.tracker.(dispatched := s.tracker.dispatched + 1))) else None
    case SpawnTask =>
      if s.pacer == Counted then Some(s.(pacer := Pacing, tasks := s.tasks + [Spawned])) else None
    case SendStepDone(last) =>
      if s.pacer == Pacing && s.nextStep < PhaseSteps(cfg, s.phase)
      then Some(s.(channel := s.channel + [StepDoneMessage(s.nextStep, last)], nextStep := s.nextStep + 1)) else None
    case EndPacing =>
      if s.pacer == Pacing && s.nextStep == PhaseSteps(cfg, s.phase) then Some(s.(pacer := Gone)) else None
    case _ => None
  }

  function ApplyReporter(cfg: Config, s: State, a: Action): Option<State> {
    match a
    case ReceiveStepDone =>
      if s.reporter == Receiving && s.channel != []
      then Some(s.(channel := s.channel[1..],
                   reporter := Snapshot(StepHeading(cfg, s.phase, s.channel[0]), 0, NoStatistics)))
      else None
    case EndPhase =>
      // The channel is closed and empty, and the pacer has been awaited.
      if s.reporter == Receiving && s.channel == [] && s.pacer == Gone
      then Some(if s.phase == Warmup then s.(phase := Pause, pauses := 0, reporter := Pausing)
                else s.(phase := Drain, reporter := ReadDispatched))
      else None
    case PauseReport =>
      if s.reporter == Pausing && s.pauses < cfg.warmupPause
      then Some(s.(pauses := s.pauses + 1, reporter := Snapshot(Heading((s.pauses + 1) * SECOND, 0, None), 0, NoStatistics)))
      else None
    case EndPause =>
      if s.reporter == Pausing && s.pauses >= cfg.warmupPause
      then Some(s.(phase := Load, reporter := Receiving, pacer := Pacing, nextStep := 0))
      else None
    case Swap =>
      if s.reporter.Snapshot? && s.reporter.n < SWAPS
      then
        var (t, part) := SwapStep(s.tracker, s.reporter.part, s.reporter.n);
        Some(s.(tracker := t, reporter := s.reporter.(n := s.reporter.n + 1, part := part)))
      else None
    case SendReport =>
      if s.reporter.Snapshot? && s.reporter.n == SWAPS
      then
        var h := s.reporter.heading;
        var report := IntervalReport(h.targetTime, h.loadLevel, s.reporter.part, h.finalBatchTime);
        Some(s.(sent := s.sent + [Interval(report)], reporter := AfterReport(s)))
      else None
    case LoadDispatched =>
      if s.reporter == ReadDispatched then Some(s.(reporter := ReadTotals(0, s.tracker.dispatched, 0))) else None
    case LoadTotal =>
      if s.reporter.ReadTotals? && s.reporter.n < TOTALS
      then Some(s.(reporter := s.reporter.(n := s.reporter.n + 1, sum := s.reporter.sum + TotalAt(s.tracker.total, s.reporter.n))))
      else None
    case Finish =>
      if s.reporter.ReadTotals? && s.reporter.n == TOTALS && s.reporter.dispatched <= s.reporter.sum
      then Some(s.(sent := s.sent + [Finished], reporter := Ended))
      else None
    case BeginDrainReport(elapsed) =>
      if s.reporter.ReadTotals? && s.reporter.n == TOTALS && s.reporter.dispatched > s.reporter.sum
      then Some(s.(reporter := Snapshot(Heading(NextSecond(elapsed), 0, None), 0, NoStatistics)))
      else None
    case _ => None
  }

  /** Where the actions lead from `s`, or `None` if one of them was not possible. */
  function Follow(cfg: Config, s: State, actions: seq<Action>): Option<State> {
    if actions == [] then Some(s)
    else
      match Follow(cfg, s, actions[..|actions| - 1])
      case None => None
      case Some(s') => Apply(cfg, s', actions[|actions| - 1])
  }

  /** A run of the generator is any sequence of actions for which this is `Some`. */
  function Execute(cfg: Config, users: seq<nat>, actions: seq<Action>): Option<State> {
    Follow(cfg, Initial(users), actions)
  }
}
