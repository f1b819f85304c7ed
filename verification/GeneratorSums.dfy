/** Sums over the tasks of a generator, and how one task's step changes them. */
module GeneratorSums {
  import opened Wrappers
  import opened Reports
  import opened Tracker
  import opened Generator
  import opened Vectors

  /** What a task can count towards. */
  datatype Kind =
    | PermitTaken            // took a permit, has not taken a user
    | PermitOwed             // gave its user back, has not added the permit
    | InTotal(c: Class)      // is in the total of its class
    | InAnyTotal             // is in some total
    | InInterval(f: Field)   // what it has put into a field of the interval

  function Weight(k: Kind, t: Task): nat {
    match k
    case PermitTaken => if t.Granted? || t.Taker? then 1 else 0
    case PermitOwed => if t.Pushed? then 1 else 0
    case InTotal(c) => if t.Logging? && t.stage != BumpTotal && ClassOf(t.result) == c then 1 else 0
    case InAnyTotal => if t.Logging? && t.stage != BumpTotal then 1 else 0
    case InInterval(ClassCount(c)) => if t.Logging? && Rank(t.stage) > 1 && ClassOf(t.result) == c then 1 else 0
    case InInterval(ServiceSum) => if t.Logging? && Rank(t.stage) > 2 && !t.result.Dropped? then t.result.serviceMs else 0
    case InInterval(ServiceCount) => if t.Logging? && Rank(t.stage) > 3 && !t.result.Dropped? then 1 else 0
  }

  function Total(k: Kind, ts: seq<Task>): nat {
    if ts == [] then 0 else Total(k, ts[..|ts| - 1]) + Weight(k, ts[|ts| - 1])
  }

  function HeldBy(t: Task): multiset<nat> {
    if Holds(t) then multiset{t.user} else multiset{}
  }

  predicate Holds(t: Task) {
    t.Acquired? || t.Sending? || t.Returning?
  }

  function Held(ts: seq<Task>): multiset<nat> {
    if ts == [] then multiset{} else Held(ts[..|ts| - 1]) + HeldBy(ts[|ts| - 1])
  }

  function PushedBy(t: Task): multiset<TransactionResult> {
    if t.Logging? && t.stage == Logged then multiset{t.result} else multiset{}
  }

  /** The results that tasks have pushed. */
  function PushedResults(ts: seq<Task>): multiset<TransactionResult> {
    if ts == [] then multiset{} else PushedResults(ts[..|ts| - 1]) + PushedBy(ts[|ts| - 1])
  }

  lemma {:induction false} TotalUpdate(k: Kind, ts: seq<Task>, i: nat, t: Task)
    requires i < |ts|
    ensures Total(k, ts[i := t]) + Weight(k, ts[i]) == Total(k, ts) + Weight(k, t)
  {
    hide Weight;
    var init := ts[..|ts| - 1];
    if i == |ts| - 1 {
      assert ts[i := t][..|ts| - 1] == init;
    } else {
      TotalUpdate(k, init, i, t);
      assert ts[i := t][..|ts| - 1] == init[i := t];
    }
  }

  lemma {:induction false} HeldUpdate(ts: seq<Task>, i: nat, t: Task)
    requires i < |ts|
    ensures Held(ts[i := t]) + HeldBy(ts[i]) == Held(ts) + HeldBy(t)
  {
    hide HeldBy;
    var init := ts[..|ts| - 1];
    if i == |ts| - 1 {
      assert ts[i := t][..|ts| - 1] == init;
    } else {
      HeldUpdate(init, i, t);
      assert ts[i := t][..|ts| - 1] == init[i := t];
      assert Held(ts[i := t]) + HeldBy(ts[i]) == Held(init[i := t]) + HeldBy(init[i]) + HeldBy(ts[|ts| - 1]);
    }
  }

  lemma {:induction false} PushedUpdate(ts: seq<Task>, i: nat, t: Task)
    requires i < |ts|
    ensures PushedResults(ts[i := t]) + PushedBy(ts[i]) == PushedResults(ts) + PushedBy(t)
  {
    hide PushedBy;
    var init := ts[..|ts| - 1];
    if i == |ts| - 1 {
      assert ts[i := t][..|ts| - 1] == init;
    } else {
      PushedUpdate(init, i, t);
      assert ts[i := t][..|ts| - 1] == init[i := t];
      assert PushedResults(ts[i := t]) + PushedBy(ts[i]) == PushedResults(init[i := t]) + PushedBy(init[i]) + PushedBy(ts[|ts| - 1]);
    }
  }

  lemma SpawnAddsNothing(ts: seq<Task>)
    ensures forall k :: Total(k, ts + [Spawned]) == Total(k, ts)
    ensures Held(ts + [Spawned]) == Held(ts) && PushedResults(ts + [Spawned]) == PushedResults(ts)
  {
    assert (ts + [Spawned])[..|ts|] == ts;
  }

  // ---------------------------------------------------------------- one step of one task

  /** Users in the pool and permits move together with the task that is between the two. */
  lemma StepKeepsPermits(t: Task, pool: Pool, tracker: TrackerState, step: TaskStep)
    ensures match StepTask(t, pool, tracker, step)
            case None => true
            case Some(e) =>
              |e.pool.users| - e.pool.permits - Weight(PermitTaken, e.task) - Weight(PermitOwed, e.task)
              == |pool.users| - pool.permits - Weight(PermitTaken, t) - Weight(PermitOwed, t)
  {
    hide SwapRemove, LogStep;
    if t.Taker? && step.Take? && step.index < |pool.users| {
      SwapRemoveIsRemoval(pool.users, step.index);
    }
  }

  lemma OtherStepsLeaveUsers(t: Task, pool: Pool, tracker: TrackerState, step: TaskStep)
    requires !t.Taker? && !t.Returning?
    ensures match StepTask(t, pool, tracker, step)
            case None => true
            case Some(e) => e.pool.users == pool.users && HeldBy(e.task) == HeldBy(t)
  {
    hide LogStep, NextStage, HeldBy;
    var e := StepTask(t, pool, tracker, step);
    assert e.Some? ==> Holds(e.value.task) == Holds(t) && (Holds(t) ==> e.value.task.user == t.user);
    HolderDecides(t);
    if e.Some? {
      HolderDecides(e.value.task);
    }
  }

  lemma HolderDecides(t: Task)
    ensures Holds(t) ==> HeldBy(t) == multiset{t.user}
    ensures !Holds(t) ==> HeldBy(t) == multiset{}
  {
  }

  lemma TakeMovesUser(t: Task, pool: Pool, tracker: TrackerState, step: TaskStep)
    requires t.Taker? && StepTask(t, pool, tracker, step).Some?
    ensures var e := StepTask(t, pool, tracker, step).value;
            multiset(e.pool.users) + HeldBy(e.task) == multiset(pool.users) + HeldBy(t)
  {
    hide SwapRemove;
    SwapRemoveIsRemoval(pool.users, step.index);
  }

  lemma PushMovesUser(t: Task, pool: Pool, tracker: TrackerState, step: TaskStep)
    requires t.Returning? && StepTask(t, pool, tracker, step).Some?
    ensures var e := StepTask(t, pool, tracker, step).value;
            multiset(e.pool.users) + HeldBy(e.task) == multiset(pool.users) + HeldBy(t)
  {
    assert multiset(pool.users + [t.user]) == multiset(pool.users) + multiset{t.user};
  }

  /** A user is either in the pool or held by one task. */
  lemma StepKeepsUsers(t: Task, pool: Pool, tracker: TrackerState, step: TaskStep)
    ensures match StepTask(t, pool, tracker, step)
            case None => true
            case Some(e) => multiset(e.pool.users) + HeldBy(e.task) == multiset(pool.users) + HeldBy(t)
  {
    hide StepTask, HeldBy;
    if StepTask(t, pool, tracker, step).Some? {
      if t.Taker? {
        TakeMovesUser(t, pool, tracker, step);
      } else if t.Returning? {
        PushMovesUser(t, pool, tracker, step);
      } else {
        OtherStepsLeaveUsers(t, pool, tracker, step);
      }
    }
  }

  /** Counters grow by exactly what the task contributes. */
  lemma StepKeepsCounters(t: Task, pool: Pool, tracker: TrackerState, step: TaskStep, k: Kind)
    ensures match StepTask(t, pool, tracker, step)
            case None => true
            case Some(e) =>
              && e.tracker.dispatched == tracker.dispatched
              && Weight(k, e.task) >= (if k.InTotal? || k.InAnyTotal? || k.InInterval? then Weight(k, t) else 0)
              && (k.InTotal? ==> e.tracker.total.Of(k.c) + Weight(k, t) == tracker.total.Of(k.c) + Weight(k, e.task))
              && (k.InInterval? ==>
                    Read(e.tracker.interval, k.f) + Weight(k, t) == Read(tracker.interval, k.f) + Weight(k, e.task))
  {
  }

  lemma StepKeepsResults(t: Task, pool: Pool, tracker: TrackerState, step: TaskStep)
    ensures match StepTask(t, pool, tracker, step)
            case None => true
            case Some(e) =>
              multiset(e.tracker.interval.results) + PushedBy(t) == multiset(tracker.interval.results) + PushedBy(e.task)
  {
    hide SwapRemove, PushedBy;
    var before, e := tracker.interval.results, StepTask(t, pool, tracker, step);
    if e.Some? {
      var after := e.value.tracker.interval.results;
      assert !HasPushed(t);
      if HasPushed(e.value.task) {
        assert after == before + [t.result] && e.value.task.result == t.result;
        assert multiset(after) == multiset(before) + multiset{t.result};
      } else {
        assert after == before;
      }
      PushDecides(t);
      PushDecides(e.value.task);
    }
  }

  predicate HasPushed(t: Task) {
    t.Logging? && t.stage == Logged
  }

  lemma PushDecides(t: Task)
    ensures PushedBy(t) == if HasPushed(t) then multiset{t.result} else multiset{}
  {
  }

  // ---------------------------------------------------------------- totals of all classes

  lemma {:induction false} AnyTotalIsSumOfTotals(ts: seq<Task>)
    ensures Total(InAnyTotal, ts)
         == Total(InTotal(Succeeded), ts) + Total(InTotal(Erred), ts) + Total(InTotal(TimedOut), ts) + Total(InTotal(WasDropped), ts)
  {
    if ts != [] {
      AnyTotalIsSumOfTotals(ts[..|ts| - 1]);
    }
  }

  lemma {:induction false} AnyTotalAtMostAll(ts: seq<Task>)
    ensures Total(InAnyTotal, ts) <= |ts|
    ensures Total(InAnyTotal, ts) == |ts| ==> forall i :: 0 <= i < |ts| ==> Weight(InAnyTotal, ts[i]) == 1
  {
    if ts != [] {
      AnyTotalAtMostAll(ts[..|ts| - 1]);
    }
  }

  /** Once every task has finished logging, each contributes everything it will ever contribute. */
  ghost predicate AllLogged(ts: seq<Task>) {
    forall i :: 0 <= i < |ts| ==> ts[i].Logging? && ts[i].stage == Logged
  }

  lemma {:induction false} LoggedTotals(ts: seq<Task>, c: Class)
    requires AllLogged(ts)
    ensures Total(InTotal(c), ts) == Total(InInterval(ClassCount(c)), ts)
    ensures |PushedResults(ts)| == |ts|
  {
    if ts != [] {
      LoggedTotals(ts[..|ts| - 1], c);
    }
  }

  lemma {:induction false} LoggedHoldNothing(ts: seq<Task>)
    requires AllLogged(ts)
    ensures Held(ts) == multiset{} && Total(PermitTaken, ts) == 0 && Total(PermitOwed, ts) == 0
  {
    if ts != [] {
      LoggedHoldNothing(ts[..|ts| - 1]);
    }
  }

  predicate IsUnderWay(t: Task) {
    t.Logging? && t.stage != Logged
  }

  function CountedBy(t: Task): multiset<TransactionResult> {
    if t.Logging? then multiset{t.result} else multiset{}
  }

  function UnderWayBy(t: Task): multiset<TransactionResult> {
    if IsUnderWay(t) then multiset{t.result} else multiset{}
  }

  /** The results of all tasks that are logging theirs or have logged it. */
  function CountedResults(ts: seq<Task>): multiset<TransactionResult> {
    if ts == [] then multiset{} else CountedResults(ts[..|ts| - 1]) + CountedBy(ts[|ts| - 1])
  }

  /** The results that are being logged and are not pushed yet. */
  function UnderWayResults(ts: seq<Task>): multiset<TransactionResult> {
    if ts == [] then multiset{} else UnderWayResults(ts[..|ts| - 1]) + UnderWayBy(ts[|ts| - 1])
  }

  lemma CountedByCases(t: Task)
    ensures CountedBy(t) == PushedBy(t) + UnderWayBy(t)
    ensures |UnderWayBy(t)| == if IsUnderWay(t) then 1 else 0
  {
    PushDecides(t);
  }

  lemma {:induction false} CountedIsPushedOrUnderWay(ts: seq<Task>)
    ensures CountedResults(ts) == PushedResults(ts) + UnderWayResults(ts)
  {
    hide CountedBy, PushedBy, UnderWayBy;
    if ts != [] {
      CountedIsPushedOrUnderWay(ts[..|ts| - 1]);
      CountedByCases(ts[|ts| - 1]);
    }
  }

  lemma {:induction false} NoneUnderWayIffAllLogged(ts: seq<Task>)
    requires forall i :: 0 <= i < |ts| ==> ts[i].Logging?
    ensures |UnderWayResults(ts)| == 0 <==> AllLogged(ts)
  {
    hide UnderWayBy;
    if ts != [] {
      var init, last := ts[..|ts| - 1], ts[|ts| - 1];
      NoneUnderWayIffAllLogged(init);
      CountedByCases(last);
      assert AllLogged(ts) <==> AllLogged(init) && last.stage == Logged by {
        assert forall i :: 0 <= i < |init| ==> init[i] == ts[i];
      }
    }
  }

  lemma {:induction false} WeightInTotal(k: Kind, ts: seq<Task>, i: nat)
    requires i < |ts|
    ensures Weight(k, ts[i]) <= Total(k, ts)
  {
    if i < |ts| - 1 {
      WeightInTotal(k, ts[..|ts| - 1], i);
    }
  }
}
