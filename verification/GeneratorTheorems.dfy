/** What every run of a load generator guarantees, in the terms of its users and its reports. */
module GeneratorTheorems {
  import opened Wrappers
  import opened Reports
  import opened Tracker
  import opened Schedule
  import opened Generator
  import opened GeneratorSums
  import opened GeneratorProofs
  import opened Vectors

  // ---------------------------------------------------------------- the pool

  /** Whoever holds a forgotten permit finds a user: the random choice is never over `0..0`. */
  lemma TakersFindUsers(cfg: Config, users: seq<nat>, actions: seq<Action>, i: nat)
    requires Execute(cfg, users, actions).Some?
    requires var s := Execute(cfg, users, actions).value; i < |s.tasks| && s.tasks[i].Taker?
    ensures var s := Execute(cfg, users, actions).value;
            && s.pool.users != []
            && forall index: nat :: index < |s.pool.users| ==> StepTask(s.tasks[i], s.pool, s.tracker, Take(index)).Some?
  {
    hide Execute, Apply;
    EveryRunKeepsInvariant(cfg, users, actions);
    WeightInTotal(PermitTaken, Execute(cfg, users, actions).value.tasks, i);
  }

  /** A transaction waits only while no user is free: every user in the pool is already promised to someone. */
  lemma NobodyWaitsForAFreeUser(cfg: Config, users: seq<nat>, actions: seq<Action>, i: nat)
    requires Execute(cfg, users, actions).Some?
    requires Apply(cfg, Execute(cfg, users, actions).value, TaskAction(i, StartWaiting)).Some?
    ensures var s := Execute(cfg, users, actions).value;
            |s.pool.users| == Total(PermitTaken, s.tasks) + Total(PermitOwed, s.tasks)
  {
    hide Execute;
    EveryRunKeepsInvariant(cfg, users, actions);
  }

  predicate Distinct<T(==)>(xs: seq<T>) {
    forall i, j :: 0 <= i < j < |xs| ==> xs[i] != xs[j]
  }

  /** Pooled and held users together hold every user at most once, and no other. */
  lemma UsersOccurOnce(users: seq<nat>, s: State, u: nat)
    requires UsersConserved(users, s) && Distinct(users)
    ensures multiset(s.pool.users)[u] + Held(s.tasks)[u] <= 1
    ensures multiset(s.pool.users)[u] + Held(s.tasks)[u] > 0 ==> u in users
  {
    hide Held, Distinct;
    assert (multiset(s.pool.users) + Held(s.tasks))[u] == multiset(users)[u];
    DistinctOccurOnce(users, u);
    assert u in multiset(users) ==> u in users;
  }

  lemma PooledUsersDistinct(users: seq<nat>, s: State)
    requires UsersConserved(users, s) && Distinct(users)
    ensures Distinct(s.pool.users)
  {
    hide Held, UsersConserved;
    forall i, j | 0 <= i < j < |s.pool.users| ensures s.pool.users[i] != s.pool.users[j] {
      UsersOccurOnce(users, s, s.pool.users[i]);
      if s.pool.users[i] == s.pool.users[j] {
        TwiceInMultiset(s.pool.users, i, j);
      }
    }
  }

  lemma HeldUsersNotPooled(users: seq<nat>, s: State, i: nat)
    requires UsersConserved(users, s) && Distinct(users) && i < |s.tasks| && Holds(s.tasks[i])
    ensures s.tasks[i].user in users && s.tasks[i].user !in s.pool.users
  {
    hide Held, UsersConserved, Distinct;
    HolderIsHeld(s.tasks, i);
    UsersOccurOnce(users, s, s.tasks[i].user);
    assert s.tasks[i].user !in multiset(s.pool.users);
  }

  /** No user is ever shared: not by two transactions, nor by a transaction and the pool. */
  lemma UsersAreExclusive(cfg: Config, users: seq<nat>, actions: seq<Action>)
    requires Execute(cfg, users, actions).Some? && Distinct(users)
    ensures var s := Execute(cfg, users, actions).value;
            && Distinct(s.pool.users)
            && (forall i :: 0 <= i < |s.tasks| && Holds(s.tasks[i]) ==>
                  s.tasks[i].user in users && s.tasks[i].user !in s.pool.users)
            && (forall i, j :: 0 <= i < j < |s.tasks| && Holds(s.tasks[i]) && Holds(s.tasks[j]) ==>
                  s.tasks[i].user != s.tasks[j].user)
  {
    hide Execute, Apply, Held, Distinct, UsersConserved;
    EveryRunKeepsInvariant(cfg, users, actions);
    var s := Execute(cfg, users, actions).value;
    PooledUsersDistinct(users, s);
    forall i | 0 <= i < |s.tasks| && Holds(s.tasks[i])
      ensures s.tasks[i].user in users && s.tasks[i].user !in s.pool.users
    {
      HeldUsersNotPooled(users, s, i);
    }
    forall i, j | 0 <= i < j < |s.tasks| && Holds(s.tasks[i]) && Holds(s.tasks[j])
      ensures s.tasks[i].user != s.tasks[j].user
    {
      TwoHoldersHold(s.tasks, i, j);
      UsersOccurOnce(users, s, s.tasks[i].user);
    }
  }

  lemma {:induction false} DistinctOccurOnce<T>(xs: seq<T>, x: T)
    requires Distinct(xs)
    ensures multiset(xs)[x] <= 1
  {
    if xs != [] {
      var init, last := xs[..|xs| - 1], xs[|xs| - 1];
      DistinctOccurOnce(init, x);
      assert xs == init + [last];
      assert multiset(xs)[x] == multiset(init)[x] + (if x == last then 1 else 0);
      assert last in multiset(init) ==> last in init;
    }
  }

  lemma TwiceInMultiset<T>(xs: seq<T>, i: nat, j: nat)
    requires i < j < |xs| && xs[i] == xs[j]
    ensures multiset(xs)[xs[i]] >= 2
  {
    var front, back := xs[..j], xs[j..];
    assert xs == front + back;
    assert front[i] in front && back[0] in back;
    assert multiset(xs)[xs[i]] == multiset(front)[xs[i]] + multiset(back)[xs[i]];
  }

  lemma {:induction false} HolderIsHeld(ts: seq<Task>, i: nat)
    requires i < |ts| && Holds(ts[i])
    ensures Held(ts)[ts[i].user] >= 1
  {
    HolderDecides(ts[i]);
    if i < |ts| - 1 {
      HolderIsHeld(ts[..|ts| - 1], i);
    }
  }

  lemma {:induction false} TwoHoldersHold(ts: seq<Task>, i: nat, j: nat)
    requires i < j < |ts| && Holds(ts[i]) && Holds(ts[j])
    ensures ts[i].user == ts[j].user ==> Held(ts)[ts[i].user] >= 2
  {
    var init := ts[..|ts| - 1];
    if j < |ts| - 1 {
      TwoHoldersHold(init, i, j);
    } else {
      HolderIsHeld(init, i);
      HolderDecides(ts[j]);
    }
  }

  /** Once every transaction has been logged the pool is whole again. */
  lemma PoolRefills(cfg: Config, users: seq<nat>, actions: seq<Action>)
    requires Execute(cfg, users, actions).Some? && AllLogged(Execute(cfg, users, actions).value.tasks)
    ensures var s := Execute(cfg, users, actions).value;
            multiset(s.pool.users) == multiset(users) && s.pool.permits == |users| == |s.pool.users|
  {
    hide Execute, Apply;
    EveryRunKeepsInvariant(cfg, users, actions);
    var s := Execute(cfg, users, actions).value;
    LoggedHoldNothing(s.tasks);
    assert multiset(s.pool.users) == multiset(users);
    assert |multiset(s.pool.users)| == |multiset(users)|;
  }

  // ---------------------------------------------------------------- the life of a transaction

  /** The steps that a task may still take; every step shortens it. */
  function Remaining(t: Task): nat {
    match t
    case Spawned => 13
    case Waiting => 12
    case Granted => 11
    case Taker(_) => 10
    case Acquired(_) => 9
    case Sending(_) => 8
    case Returning(_, _) => 7
    case Pushed(_) => 6
    case Logging(_, stage) => 5 - Rank(stage)
  }

  /** What a task never takes back: its result once it has one, and its place in the totals. */
  lemma TransactionsOnlyAdvance(t: Task, pool: Pool, tracker: TrackerState, step: TaskStep)
    requires StepTask(t, pool, tracker, step).Some?
    ensures var t' := StepTask(t, pool, tracker, step).value.task;
            && Remaining(t') < Remaining(t)
            && (t.Returning? || t.Pushed? || t.Logging? ==> (t'.Pushed? || t'.Logging?) && t'.result == t.result)
            && (t.Logging? ==> t'.Logging? && t'.stage == NextStage(t.result, t.stage))
  {
    hide SwapRemove, LogStep;
  }

  /** A transaction that has not been logged can always go on: no run leaves one stuck. */
  lemma NoTransactionIsStuck(cfg: Config, users: seq<nat>, actions: seq<Action>, i: nat)
    requires Execute(cfg, users, actions).Some?
    requires var s := Execute(cfg, users, actions).value; i < |s.tasks|
    ensures var s := Execute(cfg, users, actions).value;
            (exists step :: StepTask(s.tasks[i], s.pool, s.tracker, step).Some?)
            <==> !(s.tasks[i].Logging? && s.tasks[i].stage == Logged)
  {
    hide Execute, LogStep, SwapRemove;
    var s := Execute(cfg, users, actions).value;
    var t := s.tasks[i];
    var step := NextStep(t, s.pool);
    if t.Taker? {
      TakersFindUsers(cfg, users, actions, i);
    }
    if !(t.Logging? && t.stage == Logged) {
      assert StepTask(t, s.pool, s.tracker, step).Some?;
    }
  }

  function NextStep(t: Task, pool: Pool): TaskStep {
    match t
    case Spawned => if pool.permits > 0 then TryAcquire else StartWaiting
    case Waiting => TimeOut(0)
    case Granted => Forget
    case Taker(_) => Take(0)
    case Acquired(_) => CheckDeadline(true, 0)
    case Sending(_) => Answer(Dropped(0, ScriptError))
    case Returning(_, _) => Push
    case Pushed(_) => AddPermit
    case Logging(_, _) => Log
  }

  /** How often task `i` took a user from the pool, and how often it put one back. */
  function Takes(actions: seq<Action>, i: nat): nat {
    if actions == [] then 0
    else
      var a := actions[|actions| - 1];
      Takes(actions[..|actions| - 1], i) + if a.TaskAction? && a.i == i && a.step.Take? then 1 else 0
  }

  function Returns(actions: seq<Action>, i: nat): nat {
    if actions == [] then 0
    else
      var a := actions[|actions| - 1];
      Returns(actions[..|actions| - 1], i) + if a.TaskAction? && a.i == i && a.step.Push? then 1 else 0
  }

  /**
   Every user taken is put back exactly once, also when it came too late: a task takes at most
   one user, holds it until it returns it, and has returned it before it logs.
   */
  lemma {:induction false} EachUserReturnsOnce(cfg: Config, users: seq<nat>, actions: seq<Action>, i: nat)
    requires Execute(cfg, users, actions).Some?
    ensures Returns(actions, i) <= Takes(actions, i) <= 1
    ensures var s := Execute(cfg, users, actions).value;
            && (i >= |s.tasks| ==> Takes(actions, i) == 0)
            && (i < |s.tasks| ==>
                  && Takes(actions, i) == Returns(actions, i) + (if Holds(s.tasks[i]) then 1 else 0)
                  && (Remaining(s.tasks[i]) > 9 ==> Takes(actions, i) == 0))
  {
    if actions != [] {
      var init, a := actions[..|actions| - 1], actions[|actions| - 1];
      EachUserReturnsOnce(cfg, users, init, i);
      var s := Execute(cfg, users, init).value;
      if a.TaskAction? {
        hide SwapRemove, LogStep, ApplyPacer, ApplyReporter;
      } else {
        TasksOnlyGrow(cfg, s, a);
        hide Apply;
      }
    }
  }

  /** How often task `i` found no free user and waited, and how often it checked the clock after that. */
  function Waits(actions: seq<Action>, i: nat): nat {
    if actions == [] then 0
    else
      var a := actions[|actions| - 1];
      Waits(actions[..|actions| - 1], i) + if a.TaskAction? && a.i == i && a.step.StartWaiting? then 1 else 0
  }

  function Checks(actions: seq<Action>, i: nat): nat {
    if actions == [] then 0
    else
      var a := actions[|actions| - 1];
      Checks(actions[..|actions| - 1], i) + if a.TaskAction? && a.i == i && a.step.CheckDeadline? then 1 else 0
  }

  /**
   Who waited for a user, and nobody else, checks the clock again before the request is sent: a user that was
   free at once is taken unchecked, and one that came after a wait is checked exactly once.
   */
  lemma {:induction false} ChecksFollowWaits(cfg: Config, users: seq<nat>, actions: seq<Action>, i: nat)
    requires Execute(cfg, users, actions).Some?
    ensures Checks(actions, i) <= Waits(actions, i) <= 1
    ensures var s := Execute(cfg, users, actions).value;
            && (i >= |s.tasks| ==> Waits(actions, i) == 0)
            && (i < |s.tasks| ==>
                  var t := s.tasks[i];
                  && (t.Spawned? || t == Taker(false) ==> Waits(actions, i) == 0)
                  && (t.Waiting? || t.Granted? || t == Taker(true) || t.Acquired? ==> Waits(actions, i) == 1 && Checks(actions, i) == 0)
                  && (t.Sending? ==> Checks(actions, i) == Waits(actions, i)))
  {
    if actions != [] {
      var init, a := actions[..|actions| - 1], actions[|actions| - 1];
      ChecksFollowWaits(cfg, users, init, i);
      var s := Execute(cfg, users, init).value;
      if a.TaskAction? {
        hide SwapRemove, LogStep, ApplyPacer, ApplyReporter;
      } else {
        TasksOnlyGrow(cfg, s, a);
        hide Apply;
      }
    }
  }

  /** The result that a step settles, if it settles one. */
  function Settled(step: TaskStep): seq<TransactionResult> {
    match step
    case FoundLate(d) => [Dropped(d, Late)]
    case TimeOut(d) => [Dropped(d, NoVirtualUser)]
    case CheckDeadline(late, d) => if late then [Dropped(d, NoVirtualUser)] else []
    case Answer(result) => [result]
    case _ => []
  }

  /** The results that the steps of task `i` settled, in order. */
  function AllSettled(actions: seq<Action>, i: nat): seq<TransactionResult> {
    if actions == [] then []
    else
      var a := actions[|actions| - 1];
      AllSettled(actions[..|actions| - 1], i) + if a.TaskAction? && a.i == i then Settled(a.step) else []
  }

  /** The result of a task, once it has one. */
  function ResultOf(t: Task): seq<TransactionResult> {
    if t.Returning? || t.Pushed? || t.Logging? then [t.result] else []
  }

  lemma StepSettles(t: Task, pool: Pool, tracker: TrackerState, step: TaskStep)
    requires StepTask(t, pool, tracker, step).Some?
    ensures ResultOf(StepTask(t, pool, tracker, step).value.task) == ResultOf(t) + Settled(step)
  {
    hide SwapRemove, LogStep;
  }

  /**
   The result of a transaction is settled once: too late at the start, no user in time, or the answer to its
   request. That result is the one the transaction logs.
   */
  lemma {:induction false} ResultIsSettledOnce(cfg: Config, users: seq<nat>, actions: seq<Action>, i: nat)
    requires Execute(cfg, users, actions).Some?
    ensures var s := Execute(cfg, users, actions).value;
            AllSettled(actions, i) == if i < |s.tasks| then ResultOf(s.tasks[i]) else []
  {
    if actions != [] {
      var init, a := actions[..|actions| - 1], actions[|actions| - 1];
      ResultIsSettledOnce(cfg, users, init, i);
      var s := Execute(cfg, users, init).value;
      hide StepTask, Settled, ApplyPacer, ApplyReporter;
      if a.TaskAction? {
        StepSettles(s.tasks[a.i], s.pool, s.tracker, a.step);
      } else {
        TasksOnlyGrow(cfg, s, a);
        assert ResultOf(Spawned) == [];
      }
    }
  }

  lemma TasksOnlyGrow(cfg: Config, s: State, a: Action)
    requires Apply(cfg, s, a).Some? && !a.TaskAction?
    ensures var s' := Apply(cfg, s, a).value; s'.tasks == s.tasks || s'.tasks == s.tasks + [Spawned]
  {
    hide SwapStep, StepHeading;
  }

  /** Transactions that have not finished logging. */
  function Live(ts: seq<Task>): nat {
    if ts == [] then 0 else Live(ts[..|ts| - 1]) + (if HasPushed(ts[|ts| - 1]) then 0 else 1)
  }

  lemma {:induction false} PushedOrLive(ts: seq<Task>)
    ensures |PushedResults(ts)| + Live(ts) == |ts|
  {
    if ts != [] {
      PushedOrLive(ts[..|ts| - 1]);
    }
  }

  /** What was dispatched is logged, live, or about to be spawned. */
  lemma DispatchAccounting(cfg: Config, users: seq<nat>, actions: seq<Action>)
    requires Execute(cfg, users, actions).Some?
    ensures var s := Execute(cfg, users, actions).value;
            s.tracker.dispatched == |PushedResults(s.tasks)| + Live(s.tasks) + (if s.pacer == Counted then 1 else 0)
  {
    hide Execute, Apply;
    EveryRunKeepsInvariant(cfg, users, actions);
    PushedOrLive(Execute(cfg, users, actions).value.tasks);
  }

  /** Tasks that are in no total yet. */
  function NotInTotals(ts: seq<Task>): nat {
    if ts == [] then 0 else NotInTotals(ts[..|ts| - 1]) + 1 - Weight(InAnyTotal, ts[|ts| - 1])
  }

  lemma {:induction false} NotInTotalsIsRest(ts: seq<Task>)
    ensures NotInTotals(ts) + Total(InAnyTotal, ts) == |ts|
  {
    if ts != [] {
      NotInTotalsIsRest(ts[..|ts| - 1]);
    }
  }

  /** What an undisturbed in-flight count means: the transactions dispatched and in no total yet. */
  lemma InflightIsNotInTotals(cfg: Config, users: seq<nat>, actions: seq<Action>)
    requires Execute(cfg, users, actions).Some?
    ensures var s := Execute(cfg, users, actions).value;
            s.tracker.dispatched == s.tracker.total.Sum() + NotInTotals(s.tasks) + (if s.pacer == Counted then 1 else 0)
  {
    hide Execute, Apply;
    EveryRunKeepsInvariant(cfg, users, actions);
    var s := Execute(cfg, users, actions).value;
    NotInTotalsIsRest(s.tasks);
    AnyTotalIsSumOfTotals(s.tasks);
    var t := s.tracker.total;
    assert t.Sum() == t.Of(Succeeded) + t.Of(Erred) + t.Of(TimedOut) + t.Of(WasDropped);
  }

  // ---------------------------------------------------------------- accounting at any time

  /** Tasks between the bump of their total and the bump of their interval count. */
  function BetweenBumps(ts: seq<Task>, c: Class): nat {
    if ts == [] then 0
    else
      var t := ts[|ts| - 1];
      BetweenBumps(ts[..|ts| - 1], c) + if t.Logging? && t.stage == BumpCount && ClassOf(t.result) == c then 1 else 0
  }

  lemma {:induction false} TotalsLeadIntervals(ts: seq<Task>, c: Class)
    ensures Total(InTotal(c), ts) == Total(InInterval(ClassCount(c)), ts) + BetweenBumps(ts, c)
  {
    if ts != [] {
      TotalsLeadIntervals(ts[..|ts| - 1], c);
    }
  }

  /** Everything not yet reported: the interval and what a running snapshot has taken. */
  function Unreported(s: State): IntervalStatistics {
    Add(Captured(s.reporter), s.tracker.interval)
  }

  /** At any moment the total of a class is what was reported, plus what waits, plus who is between the bumps. */
  lemma ClassAccounting(cfg: Config, users: seq<nat>, actions: seq<Action>, c: Class)
    requires Execute(cfg, users, actions).Some?
    ensures var s := Execute(cfg, users, actions).value;
            s.tracker.total.Of(c) == Reported(s.sent).counts.Of(c) + Unreported(s).counts.Of(c) + BetweenBumps(s.tasks, c)
  {
    hide Execute, Apply;
    EveryRunKeepsInvariant(cfg, users, actions);
    var s := Execute(cfg, users, actions).value;
    TotalsLeadIntervals(s.tasks, c);
    ReadAdd(Captured(s.reporter), s.tracker.interval, ClassCount(c));
    assert Read(s.tracker.interval, ClassCount(c)) + Read(Captured(s.reporter), ClassCount(c)) + Read(Reported(s.sent), ClassCount(c))
        == Total(InInterval(ClassCount(c)), s.tasks);
  }

  /** Each logged result is reported at most once, and is in exactly one place until then. */
  lemma ResultAccounting(cfg: Config, users: seq<nat>, actions: seq<Action>)
    requires Execute(cfg, users, actions).Some?
    ensures var s := Execute(cfg, users, actions).value;
            && PushedResults(s.tasks) == multiset(Reported(s.sent).results) + multiset(Unreported(s).results)
            && |Reported(s.sent).results| <= |s.tasks| <= s.tracker.dispatched <= |s.tasks| + 1
  {
    hide Execute, Apply;
    EveryRunKeepsInvariant(cfg, users, actions);
    var s := Execute(cfg, users, actions).value;
    assert multiset(Unreported(s).results) == multiset(Captured(s.reporter).results) + multiset(s.tracker.interval.results);
    PushedAtMostOnce(s.tasks);
    assert |PushedResults(s.tasks)| == |multiset(Reported(s.sent).results)| + |multiset(Unreported(s).results)|;
  }

  lemma {:induction false} PushedAtMostOnce(ts: seq<Task>)
    ensures |PushedResults(ts)| <= |ts|
  {
    if ts != [] {
      PushedAtMostOnce(ts[..|ts| - 1]);
    }
  }

  // ---------------------------------------------------------------- at `Finished`

  /** When `Finished` has been sent every dispatched transaction is in the totals. */
  lemma FinishedMeansAllCounted(cfg: Config, users: seq<nat>, actions: seq<Action>)
    requires Execute(cfg, users, actions).Some? && Execute(cfg, users, actions).value.reporter == Ended
    ensures var s := Execute(cfg, users, actions).value;
            && s.tracker.dispatched == |s.tasks| == s.tracker.total.Sum()
            && forall i :: 0 <= i < |s.tasks| ==> s.tasks[i].Logging? && s.tasks[i].stage != BumpTotal
  {
    hide Execute, Apply;
    EveryRunKeepsInvariant(cfg, users, actions);
    var s := Execute(cfg, users, actions).value;
    AllInTotalCount(s.tasks);
    AnyTotalIsSumOfTotals(s.tasks);
    var t := s.tracker.total;
    assert t.Sum() == t.Of(Succeeded) + t.Of(Erred) + t.Of(TimedOut) + t.Of(WasDropped);
    forall i | 0 <= i < |s.tasks| ensures s.tasks[i].Logging? && s.tasks[i].stage != BumpTotal {
      assert Weight(InAnyTotal, s.tasks[i]) == 1;
    }
  }

  lemma {:induction false} AllInTotalCount(ts: seq<Task>)
    requires forall i :: 0 <= i < |ts| ==> Weight(InAnyTotal, ts[i]) == 1
    ensures Total(InAnyTotal, ts) == |ts|
  {
    if ts != [] {
      AllInTotalCount(ts[..|ts| - 1]);
    }
  }

  /**
   `Finished` does not promise that everything was reported. The reported count of a class falls
   short of its total by exactly what is left in the interval and who is between the bumps.
   */
  lemma ReportedAtFinished(cfg: Config, users: seq<nat>, actions: seq<Action>, c: Class)
    requires Execute(cfg, users, actions).Some? && Execute(cfg, users, actions).value.reporter == Ended
    ensures var s := Execute(cfg, users, actions).value;
            var left := s.tracker.interval.counts.Of(c) + BetweenBumps(s.tasks, c);
            && s.tracker.total.Of(c) == Reported(s.sent).counts.Of(c) + left
            && (Reported(s.sent).counts.Of(c) == s.tracker.total.Of(c) <==>
                  s.tracker.interval.counts.Of(c) == 0 && BetweenBumps(s.tasks, c) == 0)
  {
    hide Execute, Apply, Reported, BetweenBumps, Unreported;
    ClassAccounting(cfg, users, actions, c);
    EndedLeavesInterval(Execute(cfg, users, actions).value, c);
  }

  lemma EndedLeavesInterval(s: State, c: Class)
    requires s.reporter == Ended
    ensures Unreported(s).counts.Of(c) == s.tracker.interval.counts.Of(c)
  {
  }

  /** The swap of a snapshot that takes a field. */
  function SwapOf(f: Field): nat {
    match f
    case ClassCount(Succeeded) => 0
    case ClassCount(Erred) => 1
    case ClassCount(TimedOut) => 2
    case ClassCount(WasDropped) => 3
    case ServiceSum => 4
    case ServiceCount => 5
  }

  const RESULTS_SWAP := 6

  /** The action is a step of `log_result` by a task at this stage. */
  predicate LogsAt(s: State, a: Action, stage: LogStage) {
    a.TaskAction? && a.step == Log && a.i < |s.tasks| && s.tasks[a.i].Logging? && s.tasks[a.i].stage == stage
  }

  /** What the action adds to a field of the interval. */
  function AddedBy(s: State, a: Action, f: Field): nat {
    match f
    case ClassCount(c) => if LogsAt(s, a, BumpCount) && ClassOf(s.tasks[a.i].result) == c then 1 else 0
    case ServiceSum => if LogsAt(s, a, AddService) && !s.tasks[a.i].result.Dropped? then s.tasks[a.i].result.serviceMs else 0
    case ServiceCount => if LogsAt(s, a, BumpService) && !s.tasks[a.i].result.Dropped? then 1 else 0
  }

  /** The action is the n-th swap of a snapshot. */
  predicate SwapsAt(s: State, a: Action, n: nat) {
    a == Swap && s.reporter.Snapshot? && s.reporter.n == n
  }

  /** What a run added to a field of the interval since a snapshot last took it. */
  function AddedSinceSwap(cfg: Config, users: seq<nat>, actions: seq<Action>, f: Field): nat
    requires Execute(cfg, users, actions).Some?
  {
    if actions == [] then 0
    else
      var init, a := actions[..|actions| - 1], actions[|actions| - 1];
      var s := Execute(cfg, users, init).value;
      if SwapsAt(s, a, SwapOf(f)) then 0 else AddedSinceSwap(cfg, users, init, f) + AddedBy(s, a, f)
  }

  /** How many results a run pushed since a snapshot last took the results. */
  function PushesSinceSwap(cfg: Config, users: seq<nat>, actions: seq<Action>): nat
    requires Execute(cfg, users, actions).Some?
  {
    if actions == [] then 0
    else
      var init, a := actions[..|actions| - 1], actions[|actions| - 1];
      var s := Execute(cfg, users, init).value;
      if SwapsAt(s, a, RESULTS_SWAP) then 0
      else PushesSinceSwap(cfg, users, init) + (if LogsAt(s, a, PushResult) then 1 else 0)
  }

  lemma TaskAdds(cfg: Config, s: State, i: nat, step: TaskStep, f: Field)
    requires Apply(cfg, s, TaskAction(i, step)).Some?
    ensures var s' := Apply(cfg, s, TaskAction(i, step)).value;
            && Read(s'.tracker.interval, f) == Read(s.tracker.interval, f) + AddedBy(s, TaskAction(i, step), f)
            && |s'.tracker.interval.results|
               == |s.tracker.interval.results| + (if LogsAt(s, TaskAction(i, step), PushResult) then 1 else 0)
  {
    hide SwapRemove;
  }

  lemma SwapTakes(cfg: Config, s: State, f: Field)
    requires Apply(cfg, s, Swap).Some?
    ensures var s' := Apply(cfg, s, Swap).value;
            && Read(s'.tracker.interval, f) == (if SwapsAt(s, Swap, SwapOf(f)) then 0 else Read(s.tracker.interval, f))
            && s'.tracker.interval.results == (if SwapsAt(s, Swap, RESULTS_SWAP) then [] else s.tracker.interval.results)
  {
  }

  lemma OthersLeaveInterval(cfg: Config, s: State, a: Action, f: Field)
    requires Apply(cfg, s, a).Some? && !a.TaskAction? && a != Swap
    ensures Apply(cfg, s, a).value.tracker.interval == s.tracker.interval
  {
    hide StepHeading;
  }

  lemma OnlyTasksAdd(s: State, a: Action, f: Field)
    requires !a.TaskAction?
    ensures AddedBy(s, a, f) == 0 && !LogsAt(s, a, PushResult)
  {
  }

  /** The interval holds exactly what was put into each field since a snapshot last took it. */
  lemma {:induction false} IntervalIsSinceSwap(cfg: Config, users: seq<nat>, actions: seq<Action>, f: Field)
    requires Execute(cfg, users, actions).Some?
    ensures var interval := Execute(cfg, users, actions).value.tracker.interval;
            && Read(interval, f) == AddedSinceSwap(cfg, users, actions, f)
            && |interval.results| == PushesSinceSwap(cfg, users, actions)
  {
    if actions != [] {
      hide Apply, AddedBy, LogsAt, SwapOf, Read;
      var init, a := actions[..|actions| - 1], actions[|actions| - 1];
      IntervalIsSinceSwap(cfg, users, init, f);
      var s := Execute(cfg, users, init).value;
      match a
      case TaskAction(i, step) => TaskAdds(cfg, s, i, step, f);
      case Swap =>
        SwapTakes(cfg, s, f);
        OnlyTasksAdd(s, a, f);
      case _ =>
        OthersLeaveInterval(cfg, s, a, f);
        OnlyTasksAdd(s, a, f);
    } else {
      InitialIntervalIsEmpty(users, f);
    }
  }

  lemma InitialIntervalIsEmpty(users: seq<nat>, f: Field)
    ensures Read(Initial(users).tracker.interval, f) == 0 && Initial(users).tracker.interval.results == []
  {
  }

  /**
   In terms of the run: the reported count of a class is complete at `Finished` exactly when nothing of
   the class was counted after the last snapshot took that count, and nobody is about to count it.
   */
  lemma CompleteAtFinishedIff(cfg: Config, users: seq<nat>, actions: seq<Action>, c: Class)
    requires Execute(cfg, users, actions).Some? && Execute(cfg, users, actions).value.reporter == Ended
    ensures var s := Execute(cfg, users, actions).value;
            Reported(s.sent).counts.Of(c) == s.tracker.total.Of(c)
            <==> AddedSinceSwap(cfg, users, actions, ClassCount(c)) == 0 && BetweenBumps(s.tasks, c) == 0
  {
    hide Execute, AddedSinceSwap, PushesSinceSwap, BetweenBumps, Reported;
    ReportedAtFinished(cfg, users, actions, c);
    IntervalIsSinceSwap(cfg, users, actions, ClassCount(c));
  }

  /**
   The reports hold the result of every transaction at `Finished` exactly when no result was pushed
   after the last snapshot took the results, and every transaction has finished logging.
   */
  lemma ResultsCompleteAtFinishedIff(cfg: Config, users: seq<nat>, actions: seq<Action>)
    requires Execute(cfg, users, actions).Some? && Execute(cfg, users, actions).value.reporter == Ended
    ensures var s := Execute(cfg, users, actions).value;
            multiset(Reported(s.sent).results) == CountedResults(s.tasks)
            <==> PushesSinceSwap(cfg, users, actions) == 0 && AllLogged(s.tasks)
  {
    hide Execute, AddedSinceSwap, PushesSinceSwap, Reported, PushedResults, UnderWayResults, CountedResults, AllLogged;
    var s := Execute(cfg, users, actions).value;
    ResultAccounting(cfg, users, actions);
    IntervalIsSinceSwap(cfg, users, actions, ServiceSum);
    FinishedMeansAllCounted(cfg, users, actions);
    EndedHoldsInterval(s);
    CountedIsPushedOrUnderWay(s.tasks);
    NoneUnderWayIffAllLogged(s.tasks);
    var sent, held := multiset(Reported(s.sent).results), multiset(s.tracker.interval.results);
    assert CountedResults(s.tasks) == sent + (held + UnderWayResults(s.tasks));
    AddNothing(sent, held + UnderWayResults(s.tasks));
    assert |held| == |s.tracker.interval.results|;
  }

  lemma EndedHoldsInterval(s: State)
    requires s.reporter == Ended
    ensures Unreported(s) == s.tracker.interval
  {
    AddIsAssociative(s.tracker.interval, NoStatistics, NoStatistics);
  }

  lemma AddNothing<T>(x: multiset<T>, y: multiset<T>)
    ensures x + y == x <==> |y| == 0
  {
    assert |x + y| == |x| + |y|;
  }

  /** What the transactions amount to once each has logged its whole entry. */
  function Entries(ts: seq<Task>, f: Field): nat {
    if ts == [] then 0
    else
      var last := ts[|ts| - 1];
      Entries(ts[..|ts| - 1], f) + (if last.Logging? then Read(Entry(last.result), f) else 0)
  }

  lemma LoggedEntry(t: Task, f: Field)
    ensures t.Logging? && t.stage == Logged ==> Weight(InInterval(f), t) == Read(Entry(t.result), f)
  {
  }

  lemma {:induction false} LoggedEntries(ts: seq<Task>, f: Field)
    requires AllLogged(ts)
    ensures Total(InInterval(f), ts) == Entries(ts, f)
  {
    hide Weight, Entry;
    if ts != [] {
      LoggedEntries(ts[..|ts| - 1], f);
      LoggedEntry(ts[|ts| - 1], f);
    }
  }

  /** The reports hold every result, and every count and sum is that of all transactions. */
  ghost predicate EverythingReported(s: State) {
    && multiset(Reported(s.sent).results) == CountedResults(s.tasks)
    && forall f :: Read(Reported(s.sent), f) == Entries(s.tasks, f)
  }

  ghost predicate NothingAddedSinceSwap(cfg: Config, users: seq<nat>, actions: seq<Action>)
    requires Execute(cfg, users, actions).Some?
  {
    forall f :: AddedSinceSwap(cfg, users, actions, f) == 0
  }

  /**
   Everything was reported at `Finished` exactly when every transaction has finished logging and, since
   the last swap of each field and of the results, nothing was put into it.
   */
  lemma EverythingReportedAtFinishedIff(cfg: Config, users: seq<nat>, actions: seq<Action>)
    requires Execute(cfg, users, actions).Some? && Execute(cfg, users, actions).value.reporter == Ended
    ensures var s := Execute(cfg, users, actions).value;
            EverythingReported(s)
            <==> AllLogged(s.tasks) && PushesSinceSwap(cfg, users, actions) == 0 && NothingAddedSinceSwap(cfg, users, actions)
  {
    hide Execute, Apply, AddedSinceSwap, PushesSinceSwap, Reported, CountedResults, AllLogged, Read, Total, Entries;
    var s := Execute(cfg, users, actions).value;
    ResultsCompleteAtFinishedIff(cfg, users, actions);
    if AllLogged(s.tasks) {
      forall f ensures Read(Reported(s.sent), f) + AddedSinceSwap(cfg, users, actions, f) == Entries(s.tasks, f) {
        FieldAtFinished(cfg, users, actions, f);
        LoggedEntries(s.tasks, f);
      }
      if EverythingReported(s) {
        forall f ensures AddedSinceSwap(cfg, users, actions, f) == 0 {
          assert Read(Reported(s.sent), f) == Entries(s.tasks, f);
        }
      } else if NothingAddedSinceSwap(cfg, users, actions) {
        forall f ensures Read(Reported(s.sent), f) == Entries(s.tasks, f) {
          assert AddedSinceSwap(cfg, users, actions, f) == 0;
        }
      }
    }
  }

  lemma FieldAtFinished(cfg: Config, users: seq<nat>, actions: seq<Action>, f: Field)
    requires Execute(cfg, users, actions).Some? && Execute(cfg, users, actions).value.reporter == Ended
    ensures var s := Execute(cfg, users, actions).value;
            Read(Reported(s.sent), f) + AddedSinceSwap(cfg, users, actions, f) == Total(InInterval(f), s.tasks)
  {
    hide Execute, Apply, AddedSinceSwap, PushesSinceSwap, Reported, Total;
    EveryRunKeepsInvariant(cfg, users, actions);
    IntervalIsSinceSwap(cfg, users, actions, f);
    var s := Execute(cfg, users, actions).value;
    assert Read(s.tracker.interval, f) + Read(Captured(s.reporter), f) + Read(Reported(s.sent), f) == Total(InInterval(f), s.tasks);
    assert Read(NoStatistics, f) == 0;
  }

  /** One profile step without a warm-up, and no virtual users. */
  const SMALL := Config(0, 0, 0, [LoadStep(SECOND, 1)])

  lemma Then(cfg: Config, s: State, actions: seq<Action>, s': State, a: Action)
    returns (longer: seq<Action>, s'': State)
    requires Follow(cfg, s, actions) == Some(s') && Apply(cfg, s', a).Some?
    ensures longer == actions + [a] && s'' == Apply(cfg, s', a).value && Follow(cfg, s, longer) == Some(s'')
  {
    longer, s'' := actions + [a], Apply(cfg, s', a).value;
    assert longer[..|actions|] == actions;
  }

  lemma {:induction false} FollowConcat(cfg: Config, s: State, xs: seq<Action>, ys: seq<Action>)
    requires Follow(cfg, s, xs).Some?
    ensures Follow(cfg, s, xs + ys) == Follow(cfg, Follow(cfg, s, xs).value, ys)
  {
    hide Apply;
    if ys == [] {
      assert xs + ys == xs;
    } else {
      FollowConcat(cfg, s, xs, ys[..|ys| - 1]);
      assert (xs + ys)[..|xs + ys| - 1] == xs + ys[..|ys| - 1];
    }
  }

  // A run of `SMALL` in five stretches: the empty warm-up, one transaction is dispatched, the planned report is
  // sent, the transaction is dropped and logged, and the generator finishes.

  const OPENING: seq<Action> := [EndPacing, EndPhase, EndPause]
  const PACING: seq<Action> := [CountDispatch, SpawnTask, SendStepDone(Some(0)), EndPacing, ReceiveStepDone]
  const REPORTING: seq<Action> := [Swap, Swap, Swap, Swap, Swap, Swap, Swap, SendReport]
  const COUNTING: seq<Action> := [TaskAction(0, FoundLate(0)), TaskAction(0, Log)]
  const LOGGING: seq<Action> := COUNTING + [TaskAction(0, Log), TaskAction(0, Log)]
  const FINISHING: seq<Action> := [EndPhase, LoadDispatched, LoadTotal, LoadTotal, LoadTotal, LoadTotal, Finish]

  const ONE_DISPATCHED := TrackerState(1, NoCounts, NoStatistics)
  const ONE_COUNTED := TrackerState(1, Counts(0, 0, 0, 1), NoStatistics)
  const ONE_DROPPED :=
    TrackerState(1, Counts(0, 0, 0, 1), IntervalStatistics(Counts(0, 0, 0, 1), 0, 0, [Dropped(0, Late)]))
  const EMPTY_REPORT := Interval(IntervalReport(SECOND, 1, NoStatistics, Some(0)))

  function Loading(tasks: seq<Task>, tracker: TrackerState, reporter: Reporter, sent: seq<GeneratorUpdate>): State {
    State(tasks, Pool([], 0), tracker, Gone, 1, [], Load, 0, reporter, sent)
  }

  /** `SMALL` before its first dispatch, and while its only dispatch is announced. */
  function Resting(pacer: PacerState, phase: Phase, reporter: Reporter): State {
    State([], Pool([], 0), FreshTracker, pacer, 0, [], phase, 0, reporter, [])
  }

  function Announcing(pacer: PacerState, tasks: seq<Task>, nextStep: nat, channel: seq<StepDoneMessage>): State {
    State(tasks, Pool([], 0), ONE_DISPATCHED, pacer, nextStep, channel, Load, 0, Receiving, [])
  }

  lemma OpeningSteps()
    ensures Initial([]) == Resting(Pacing, Warmup, Receiving)
    ensures Apply(SMALL, Resting(Pacing, Warmup, Receiving), EndPacing) == Some(Resting(Gone, Warmup, Receiving))
    ensures Apply(SMALL, Resting(Gone, Warmup, Receiving), EndPhase) == Some(Resting(Gone, Pause, Pausing))
    ensures Apply(SMALL, Resting(Gone, Pause, Pausing), EndPause) == Some(Resting(Pacing, Load, Receiving))
  {
  }

  lemma Opening()
    ensures Follow(SMALL, Initial([]), OPENING) == Some(Resting(Pacing, Load, Receiving))
  {
    hide Apply, Resting, Initial;
    OpeningSteps();
    var as1, s1 := Then(SMALL, Initial([]), [], Initial([]), EndPacing);
    var as2, s2 := Then(SMALL, Initial([]), as1, s1, EndPhase);
    var as3, s3 := Then(SMALL, Initial([]), as2, s2, EndPause);
    assert as3 == OPENING;
  }

  lemma PacingSteps()
    ensures Apply(SMALL, Resting(Pacing, Load, Receiving), CountDispatch) == Some(Announcing(Counted, [], 0, []))
    ensures Apply(SMALL, Announcing(Counted, [], 0, []), SpawnTask) == Some(Announcing(Pacing, [Spawned], 0, []))
    ensures Apply(SMALL, Announcing(Pacing, [Spawned], 0, []), SendStepDone(Some(0)))
         == Some(Announcing(Pacing, [Spawned], 1, [StepDoneMessage(0, Some(0))]))
    ensures Apply(SMALL, Announcing(Pacing, [Spawned], 1, [StepDoneMessage(0, Some(0))]), EndPacing)
         == Some(Announcing(Gone, [Spawned], 1, [StepDoneMessage(0, Some(0))]))
    ensures Apply(SMALL, Announcing(Gone, [Spawned], 1, [StepDoneMessage(0, Some(0))]), ReceiveStepDone) == Some(Snapping(0))
  {
    assert [] + [Spawned] == [Spawned] && [] + [StepDoneMessage(0, Some(0))] == [StepDoneMessage(0, Some(0))];
    assert [StepDoneMessage(0, Some(0))][1..] == [];
  }

  lemma PacingOnce()
    ensures Follow(SMALL, Resting(Pacing, Load, Receiving), PACING) == Some(Snapping(0))
  {
    hide Apply, Resting, Announcing, Snapping;
    PacingSteps();
    var s0 := Resting(Pacing, Load, Receiving);
    var as1, s1 := Then(SMALL, s0, [], s0, CountDispatch);
    var as2, s2 := Then(SMALL, s0, as1, s1, SpawnTask);
    var as3, s3 := Then(SMALL, s0, as2, s2, SendStepDone(Some(0)));
    var as4, s4 := Then(SMALL, s0, as3, s3, EndPacing);
    var as5, s5 := Then(SMALL, s0, as4, s4, ReceiveStepDone);
    assert as5 == PACING;
  }

  function Snapping(n: nat): State {
    Loading([Spawned], ONE_DISPATCHED, Snapshot(Heading(SECOND, 1, Some(0)), n, NoStatistics), [])
  }

  lemma SwapNothing(n: nat)
    requires n < SWAPS
    ensures Apply(SMALL, Snapping(n), Swap) == Some(Snapping(n + 1))
  {
  }

  lemma Reporting()
    ensures Follow(SMALL, Snapping(0), REPORTING) == Some(Loading([Spawned], ONE_DISPATCHED, Receiving, [EMPTY_REPORT]))
  {
    SwapAllNothing(SWAPS);
    var as8, s8 := Then(SMALL, Snapping(0), seq(SWAPS, i => Swap), Snapping(SWAPS), SendReport);
    assert s8.sent == [EMPTY_REPORT] && as8 == REPORTING;
  }

  lemma {:induction false} SwapAllNothing(n: nat)
    requires n <= SWAPS
    ensures Follow(SMALL, Snapping(0), seq(n, i => Swap)) == Some(Snapping(n))
  {
    hide Apply, Snapping;
    if n > 0 {
      SwapAllNothing(n - 1);
      SwapNothing(n - 1);
      var longer, s' := Then(SMALL, Snapping(0), seq(n - 1, i => Swap), Snapping(n - 1), Swap);
      assert longer == seq(n, i => Swap);
    }
  }

  lemma LoggingLate()
    ensures Follow(SMALL, Loading([Spawned], ONE_DISPATCHED, Receiving, [EMPTY_REPORT]), COUNTING)
         == Some(Loading([Logging(Dropped(0, Late), BumpCount)], ONE_COUNTED, Receiving, [EMPTY_REPORT]))
    ensures Follow(SMALL, Loading([Spawned], ONE_DISPATCHED, Receiving, [EMPTY_REPORT]), LOGGING)
         == Some(Loading([Logging(Dropped(0, Late), Logged)], ONE_DROPPED, Receiving, [EMPTY_REPORT]))
  {
    var s0 := Loading([Spawned], ONE_DISPATCHED, Receiving, [EMPTY_REPORT]);
    var as1, s1 := Then(SMALL, s0, [], s0, TaskAction(0, FoundLate(0)));
    var as2, s2 := Then(SMALL, s0, as1, s1, TaskAction(0, Log));
    assert s2.tasks == [Logging(Dropped(0, Late), BumpCount)] && s2.tracker == ONE_COUNTED;
    assert as2 == COUNTING;
    var as3, s3 := Then(SMALL, s0, as2, s2, TaskAction(0, Log));
    var as4, s4 := Then(SMALL, s0, as3, s3, TaskAction(0, Log));
    assert s4.tasks == [Logging(Dropped(0, Late), Logged)] && s4.tracker == ONE_DROPPED;
    assert as4 == LOGGING;
  }

  function Winding(tasks: seq<Task>, tracker: TrackerState, reporter: Reporter): State {
    Loading(tasks, tracker, reporter, [EMPTY_REPORT]).(phase := Drain)
  }

  lemma FinishingSteps(tasks: seq<Task>, tracker: TrackerState)
    requires tracker.dispatched == 1 && tracker.total == Counts(0, 0, 0, 1)
    ensures Apply(SMALL, Loading(tasks, tracker, Receiving, [EMPTY_REPORT]), EndPhase) == Some(Winding(tasks, tracker, ReadDispatched))
    ensures Apply(SMALL, Winding(tasks, tracker, ReadDispatched), LoadDispatched) == Some(Winding(tasks, tracker, ReadTotals(0, 1, 0)))
    ensures Apply(SMALL, Winding(tasks, tracker, ReadTotals(TOTALS, 1, 1)), Finish)
         == Some(Loading(tasks, tracker, Ended, [EMPTY_REPORT, Finished]).(phase := Drain))
  {
    assert [EMPTY_REPORT] + [Finished] == [EMPTY_REPORT, Finished];
  }

  lemma LoadingTotals(tasks: seq<Task>, tracker: TrackerState, n: nat)
    requires tracker.total == Counts(0, 0, 0, 1) && n < TOTALS
    ensures Apply(SMALL, Winding(tasks, tracker, ReadTotals(n, 1, 0)), LoadTotal)
         == Some(Winding(tasks, tracker, ReadTotals(n + 1, 1, if n + 1 == TOTALS then 1 else 0)))
  {
  }

  lemma Finishing(tasks: seq<Task>, tracker: TrackerState)
    requires tracker.dispatched == 1 && tracker.total == Counts(0, 0, 0, 1)
    ensures Follow(SMALL, Loading(tasks, tracker, Receiving, [EMPTY_REPORT]), FINISHING)
         == Some(Loading(tasks, tracker, Ended, [EMPTY_REPORT, Finished]).(phase := Drain))
  {
    hide Apply, Loading, Winding;
    FinishingSteps(tasks, tracker);
    LoadingTotals(tasks, tracker, 0);
    LoadingTotals(tasks, tracker, 1);
    LoadingTotals(tasks, tracker, 2);
    LoadingTotals(tasks, tracker, 3);
    var s0 := Loading(tasks, tracker, Receiving, [EMPTY_REPORT]);
    var as1, s1 := Then(SMALL, s0, [], s0, EndPhase);
    var as2, s2 := Then(SMALL, s0, as1, s1, LoadDispatched);
    var as3, s3 := Then(SMALL, s0, as2, s2, LoadTotal);
    var as4, s4 := Then(SMALL, s0, as3, s3, LoadTotal);
    var as5, s5 := Then(SMALL, s0, as4, s4, LoadTotal);
    var as6, s6 := Then(SMALL, s0, as5, s5, LoadTotal);
    var as7, s7 := Then(SMALL, s0, as6, s6, Finish);
    assert as7 == FINISHING;
  }

  /**
   What `Finished` does not promise: here are two runs that end with a result that no report holds.
   The transaction was logged after the last snapshot and before the in-flight count was read, or it
   was only counted in the total by then, and has yet to push its result.
   */
  lemma FinishedCanLeaveResultsBehind(pushed: bool)
    ensures var run := OPENING + PACING + REPORTING + (if pushed then LOGGING else COUNTING) + FINISHING;
            && Execute(SMALL, [], run).Some?
            && var s := Execute(SMALL, [], run).value;
               && s.reporter == Ended && s.tracker.total.dropped == 1
               && s.tasks == [Logging(Dropped(0, Late), if pushed then Logged else BumpCount)]
               && CountedResults(s.tasks) == multiset{Dropped(0, Late)}
               && s.sent == [EMPTY_REPORT, Finished] && Reported(s.sent) == NoStatistics
  {
    hide Apply, Follow, Reported, CountedResults;
    var stretch := if pushed then LOGGING else COUNTING;
    var tasks := [Logging(Dropped(0, Late), if pushed then Logged else BumpCount)];
    Opening();
    PacingOnce();
    Reporting();
    LoggingLate();
    Finishing(tasks, if pushed then ONE_DROPPED else ONE_COUNTED);
    var s0 := Initial([]);
    FollowConcat(SMALL, s0, OPENING, PACING);
    FollowConcat(SMALL, s0, OPENING + PACING, REPORTING);
    FollowConcat(SMALL, s0, OPENING + PACING + REPORTING, stretch);
    FollowConcat(SMALL, s0, OPENING + PACING + REPORTING + stretch, FINISHING);
    NothingReported();
    OneCounted(tasks[0]);
  }

  lemma OneCounted(t: Task)
    requires t.Logging?
    ensures CountedResults([t]) == multiset{t.result}
  {
    assert [t][..0] == [];
  }

  lemma ReportedLast(sent: seq<GeneratorUpdate>, u: GeneratorUpdate)
    ensures Reported(sent + [u]) == Add(Reported(sent), StatsOf(u))
  {
    assert (sent + [u])[..|sent|] == sent;
  }

  lemma NothingReported()
    ensures Reported([EMPTY_REPORT, Finished]) == NoStatistics
  {
    AddIsAssociative(NoStatistics, NoStatistics, NoStatistics);
    hide Add;
    assert Reported([]) == NoStatistics;
    hide Reported;
    ReportedLast([], EMPTY_REPORT);
    ReportedLast([EMPTY_REPORT], Finished);
    assert [] + [EMPTY_REPORT] == [EMPTY_REPORT] && [EMPTY_REPORT] + [Finished] == [EMPTY_REPORT, Finished];
  }

  /** The updates of a finished generator: the planned reports in order, drain reports, `Finished`. */
  lemma UpdatesFollowThePlan(cfg: Config, users: seq<nat>, actions: seq<Action>)
    requires Execute(cfg, users, actions).Some?
    ensures var s := Execute(cfg, users, actions).value;
            && SentAsPlanned(cfg, s.sent)
            && (s.reporter == Ended ==>
                  && |s.sent| > cfg.Planned() && s.sent[|s.sent| - 1] == Finished
                  && forall k :: 0 <= k < |s.sent| - 1 ==> s.sent[k].Interval?)
            && (s.reporter != Ended ==> forall k :: 0 <= k < |s.sent| ==> s.sent[k].Interval?)
  {
    hide Execute, Apply, Plan;
    EveryRunKeepsInvariant(cfg, users, actions);
  }

  lemma SentGrows(cfg: Config, s: State, a: Action)
    requires Apply(cfg, s, a).Some?
    ensures var s' := Apply(cfg, s, a).value;
            if a == SendReport then |s'.sent| == |s.sent| + 1 && s.sent < s'.sent
            else if a == Finish then s'.sent == s.sent + [Finished]
            else s'.sent == s.sent
  {
    hide StepTask, SwapStep, StepHeading;
  }

  lemma ReportBelongsToPhase(cfg: Config, s: State)
    requires InStep(cfg, s) && Apply(cfg, s, SendReport).Some?
    ensures InPhase(cfg, s.phase, |s.sent|)
  {
  }

  /** Every report was sent by some action of the run, in the phase that its number belongs to. */
  lemma {:induction false} ReportWasSentInItsPhase(cfg: Config, users: seq<nat>, actions: seq<Action>, k: nat) returns (i: nat)
    requires Execute(cfg, users, actions).Some?
    requires var s := Execute(cfg, users, actions).value; k < |s.sent| && s.sent[k].Interval?
    ensures i < |actions| && actions[i] == SendReport && Execute(cfg, users, actions[..i]).Some?
    ensures var before := Execute(cfg, users, actions[..i]).value;
            && before.sent == Execute(cfg, users, actions).value.sent[..k]
            && InPhase(cfg, before.phase, k)
  {
    hide Apply, InPhase, Initial;
    if actions == [] {
      NothingSentAtFirst(users);
    } else {
      var init, a := actions[..|actions| - 1], actions[|actions| - 1];
      var s := Execute(cfg, users, init).value;
      SentGrows(cfg, s, a);
      if k < |s.sent| {
        i := ReportWasSentInItsPhase(cfg, users, init, k);
        assert init[..i] == actions[..i];
        assert s.sent <= Execute(cfg, users, actions).value.sent;
      } else {
        i := |actions| - 1;
        EveryRunKeepsInvariant(cfg, users, init);
        hide Execute, Follow;
        ReportBelongsToPhase(cfg, s);
      }
    }
  }

  lemma NothingSentAtFirst(users: seq<nat>)
    ensures Initial(users).sent == []
  {
  }

  // ---------------------------------------------------------------- a snapshot at quiescence

  /** Every transaction dispatched has been logged. */
  ghost predicate Quiescent(s: State) {
    AllLogged(s.tasks) && s.pacer != Counted
  }

  /** While nothing is dispatched a snapshot goes on undisturbed; only the pacer may announce steps meanwhile. */
  lemma QuiescentMovesOn(cfg: Config, s: State, a: Action)
    requires Quiescent(s) && s.reporter.Snapshot? && a != CountDispatch && Apply(cfg, s, a).Some?
    ensures a == SendReport ==> s.reporter.n == SWAPS
    ensures var s' := Apply(cfg, s, a).value;
            && Quiescent(s') && s'.tasks == s.tasks && s'.tracker.total == s.tracker.total
            && (a != SendReport ==>
                  && s'.reporter.Snapshot?
                  && (a != Swap ==> s'.reporter == s.reporter && s'.tracker == s.tracker))
  {
    hide LogStep, SwapStep;
    if a == Swap {
      SwapKeepsTotal(s.tracker, s.reporter.part, s.reporter.n);
    }
  }

  lemma SwapKeepsTotal(t: TrackerState, part: IntervalStatistics, n: nat)
    ensures SwapStep(t, part, n).0.total == t.total
  {
  }

  /** The fields already swapped are gone from the interval, and stay gone while nothing is logged. */
  ghost predicate SwappedAreEmpty(t: TrackerState, n: nat) {
    && (n > 0 ==> t.interval.counts.success == 0) && (n > 1 ==> t.interval.counts.failed == 0)
    && (n > 2 ==> t.interval.counts.timeout == 0) && (n > 3 ==> t.interval.counts.dropped == 0)
    && (n > 4 ==> t.interval.serviceSum == 0) && (n > 5 ==> t.interval.serviceCount == 0)
    && (n > 6 ==> t.interval.results == [])
  }

  lemma SwapEmpties(cfg: Config, s: State)
    requires s.reporter.Snapshot? && SwappedAreEmpty(s.tracker, s.reporter.n) && Apply(cfg, s, Swap).Some?
    ensures var s' := Apply(cfg, s, Swap).value;
            s'.reporter.Snapshot? && SwappedAreEmpty(s'.tracker, s'.reporter.n)
  {
  }

  lemma {:induction false} QuiescentSnapshotEmpties(cfg: Config, s: State, more: seq<Action>)
    requires Quiescent(s) && s.reporter.Snapshot? && s.reporter.n == 0
    requires CountDispatch !in more && SendReport !in more && Follow(cfg, s, more).Some?
    ensures var s' := Follow(cfg, s, more).value;
            && Quiescent(s') && s'.reporter.Snapshot? && s'.tasks == s.tasks
            && s'.tracker.total == s.tracker.total && SwappedAreEmpty(s'.tracker, s'.reporter.n)
  {
    hide Apply, Quiescent;
    if more != [] {
      var init, a := more[..|more| - 1], more[|more| - 1];
      assert a in more && forall x :: x in init ==> x in more;
      QuiescentSnapshotEmpties(cfg, s, init);
      var mid := Follow(cfg, s, init).value;
      hide SwappedAreEmpty;
      QuiescentMovesOn(cfg, mid, a);
      if a == Swap {
        SwapEmpties(cfg, mid);
      }
    }
  }

  /**
   One snapshot begun when everything dispatched has been logged settles all accounts, in any phase.
   Whatever happens until its report is sent, as long as nothing is dispatched, the interval is empty then,
   and the reports sent add up to the totals and hold every result.
   */
  lemma QuiescentSnapshotSettles(cfg: Config, users: seq<nat>, actions: seq<Action>, more: seq<Action>)
    requires Execute(cfg, users, actions).Some?
    requires var s := Execute(cfg, users, actions).value; Quiescent(s) && s.reporter.Snapshot? && s.reporter.n == 0
    requires CountDispatch !in more && SendReport !in more
    requires Follow(cfg, Execute(cfg, users, actions).value, more + [SendReport]).Some?
    ensures var s' := Follow(cfg, Execute(cfg, users, actions).value, more + [SendReport]).value;
            && s'.tracker.interval == NoStatistics
            && Reported(s'.sent).counts == s'.tracker.total
            && s'.tracker.total.Sum() == s'.tracker.dispatched == |Reported(s'.sent).results|
            && multiset(Reported(s'.sent).results) == PushedResults(s'.tasks)
  {
    hide Execute, Apply, Invariant;
    var s := Execute(cfg, users, actions).value;
    EveryRunKeepsInvariant(cfg, users, actions);
    assert (more + [SendReport])[..|more|] == more;
    var mid := Follow(cfg, s, more).value;
    QuiescentSnapshotEmpties(cfg, s, more);
    FollowKeepsInvariant(cfg, users, s, more);
    QuiescentMovesOn(cfg, mid, SendReport);
    InvariantStep(cfg, users, mid, SendReport);
    SendEndsSnapshot(cfg, mid);
    EmptyIntervalSettles(cfg, users, Apply(cfg, mid, SendReport).value);
  }

  /** Such a snapshot is always seven swaps away from its report: it can go on whatever else waits. */
  lemma SnapshotsGoOn(cfg: Config, users: seq<nat>, actions: seq<Action>)
    requires Execute(cfg, users, actions).Some? && Execute(cfg, users, actions).value.reporter.Snapshot?
    ensures var s := Execute(cfg, users, actions).value;
            && s.reporter.n <= SWAPS
            && Apply(cfg, s, if s.reporter.n < SWAPS then Swap else SendReport).Some?
  {
    hide Execute;
    EveryRunKeepsInvariant(cfg, users, actions);
  }

  lemma SendEndsSnapshot(cfg: Config, s: State)
    requires Apply(cfg, s, SendReport).Some?
    ensures var s' := Apply(cfg, s, SendReport).value; s'.tracker == s.tracker && s'.tasks == s.tasks && !s'.reporter.Snapshot?
  {
  }

  lemma EmptyIntervalSettles(cfg: Config, users: seq<nat>, s: State)
    requires Invariant(cfg, users, s) && Quiescent(s) && !s.reporter.Snapshot? && SwappedAreEmpty(s.tracker, SWAPS)
    ensures s.tracker.interval == NoStatistics && Reported(s.sent).counts == s.tracker.total
    ensures s.tracker.total.Sum() == s.tracker.dispatched == |Reported(s.sent).results|
    ensures multiset(Reported(s.sent).results) == PushedResults(s.tasks)
  {
    hide InStep, SentAsPlanned, PermitsMatch, UsersConserved, FinishedLast, ReadsAreBehind;
    hide NothingLost, DispatchesMatch, Reported;
    CountsSettle(s);
    ResultsSettle(s);
    DispatchesSettle(s);
  }

  lemma CountsSettle(s: State)
    requires NothingLost(s) && DispatchesMatch(s)
    requires Quiescent(s) && !s.reporter.Snapshot? && SwappedAreEmpty(s.tracker, SWAPS)
    ensures Reported(s.sent).counts == s.tracker.total
  {
    hide Reported, PushedResults;
    var sent := Reported(s.sent);
    forall c ensures sent.counts.Of(c) == s.tracker.total.Of(c) {
      LoggedTotals(s.tasks, c);
      assert Read(s.tracker.interval, ClassCount(c)) + Read(Captured(s.reporter), ClassCount(c)) + Read(sent, ClassCount(c))
          == Total(InInterval(ClassCount(c)), s.tasks);
    }
    SameCounts(sent.counts, s.tracker.total);
  }

  lemma SameCounts(a: Counts, b: Counts)
    requires forall c :: a.Of(c) == b.Of(c)
    ensures a == b
  {
    assert a.Of(Succeeded) == b.Of(Succeeded) && a.Of(Erred) == b.Of(Erred);
    assert a.Of(TimedOut) == b.Of(TimedOut) && a.Of(WasDropped) == b.Of(WasDropped);
  }

  lemma ResultsSettle(s: State)
    requires NothingLost(s) && Quiescent(s) && !s.reporter.Snapshot? && SwappedAreEmpty(s.tracker, SWAPS)
    ensures multiset(Reported(s.sent).results) == PushedResults(s.tasks)
    ensures |Reported(s.sent).results| == |s.tasks|
  {
    hide Reported, PushedResults;
    LoggedTotals(s.tasks, Succeeded);
    assert |multiset(Reported(s.sent).results)| == |Reported(s.sent).results|;
  }

  lemma DispatchesSettle(s: State)
    requires DispatchesMatch(s) && Quiescent(s)
    ensures s.tracker.total.Sum() == s.tracker.dispatched == |s.tasks|
  {
    AnyTotalIsSumOfTotals(s.tasks);
    LoggedInTotals(s.tasks);
    var t := s.tracker.total;
    assert t.Sum() == t.Of(Succeeded) + t.Of(Erred) + t.Of(TimedOut) + t.Of(WasDropped);
  }

  lemma {:induction false} LoggedInTotals(ts: seq<Task>)
    requires AllLogged(ts)
    ensures Total(InAnyTotal, ts) == |ts|
  {
    if ts != [] {
      LoggedInTotals(ts[..|ts| - 1]);
    }
  }
}
