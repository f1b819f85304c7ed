/**
 The tracker (src/tracker.rs), step by step. Every `fetch_add`, every `swap` and every push under
 the lock is one atomic step; `LogStep` and `SwapStep` are these steps, and the class below runs
 them one after the other, as a thread does when no other thread interferes.
 */
module Tracker {
  import opened Wrappers
  import opened Reports

  datatype TrackerState = TrackerState(dispatched: nat, total: Counts, interval: IntervalStatistics)

  const FreshTracker := TrackerState(0, NoCounts, NoStatistics)

  /** Where a thread is within `log_result`: the step it takes next. */
  datatype LogStage = BumpTotal | BumpCount | AddService | BumpService | PushResult | Logged

  function Rank(stage: LogStage): nat {
    match stage
    case BumpTotal => 0
    case BumpCount => 1
    case AddService => 2
    case BumpService => 3
    case PushResult => 4
    case Logged => 5
  }

  function NextStage(r: TransactionResult, stage: LogStage): LogStage {
    match stage
    case BumpTotal => BumpCount
    case BumpCount => if r.Dropped? then PushResult else AddService
    case AddService => BumpService
    case BumpService => PushResult
    case PushResult => Logged
    case Logged => Logged
  }

  function LogStep(t: TrackerState, r: TransactionResult, stage: LogStage): TrackerState {
    match stage
    case BumpTotal => t.(total := t.total.Bump(ClassOf(r)))
    case BumpCount => t.(interval := t.interval.(counts := t.interval.counts.Bump(ClassOf(r))))
    case AddService => if r.Dropped? then t else t.(interval := t.interval.(serviceSum := t.interval.serviceSum + r.serviceMs))
    case BumpService => if r.Dropped? then t else t.(interval := t.interval.(serviceCount := t.interval.serviceCount + 1))
    case PushResult => t.(interval := t.interval.(results := t.interval.results + [r]))
    case Logged => t
  }

  const SWAPS := 7

  /** The n-th step of `interval_statistics`: one field moves from the tracker into the snapshot. */
  function SwapStep(t: TrackerState, part: IntervalStatistics, n: nat): (TrackerState, IntervalStatistics) {
    var i := t.interval;
    if n == 0 then (t.(interval := i.(counts := i.counts.(success := 0))), part.(counts := part.counts.(success := i.counts.success)))
    else if n == 1 then (t.(interval := i.(counts := i.counts.(failed := 0))), part.(counts := part.counts.(failed := i.counts.failed)))
    else if n == 2 then (t.(interval := i.(counts := i.counts.(timeout := 0))), part.(counts := part.counts.(timeout := i.counts.timeout)))
    else if n == 3 then (t.(interval := i.(counts := i.counts.(dropped := 0))), part.(counts := part.counts.(dropped := i.counts.dropped)))
    else if n == 4 then (t.(interval := i.(serviceSum := 0)), part.(serviceSum := i.serviceSum))
    else if n == 5 then (t.(interval := i.(serviceCount := 0)), part.(serviceCount := i.serviceCount))
    else (t.(interval := i.(results := [])), part.(results := i.results))
  }

  /** What one undisturbed `log_result` adds to the interval. */
  function Entry(r: TransactionResult): IntervalStatistics {
    IntervalStatistics(NoCounts.Bump(ClassOf(r)), if r.Dropped? then 0 else r.serviceMs, if r.Dropped? then 0 else 1, [r])
  }

  class SoloTracker {
    var state: TrackerState

    constructor ()
      ensures state == FreshTracker
    {
      state := FreshTracker;
    }

    /** Undisturbed, a result enters the totals and the interval once, and nothing else changes. */
    method LogResult(r: TransactionResult)
      modifies this
      ensures state == TrackerState(old(state.dispatched), old(state.total).Bump(ClassOf(r)),
                                    Add(old(state.interval), Entry(r)))
    {
      var stage := BumpTotal;
      ghost var before := state;
      while stage != Logged
        invariant state.dispatched == before.dispatched
        invariant state.total == if stage == BumpTotal then before.total else before.total.Bump(ClassOf(r))
        invariant state.interval.counts == if Rank(stage) <= 1 then before.interval.counts else before.interval.counts.Bump(ClassOf(r))
        invariant state.interval.serviceSum == before.interval.serviceSum + if Rank(stage) <= 2 then 0 else Entry(r).serviceSum
        invariant state.interval.serviceCount == before.interval.serviceCount + if Rank(stage) <= 3 then 0 else Entry(r).serviceCount
        invariant state.interval.results == if stage != Logged then before.interval.results else before.interval.results + [r]
        invariant r.Dropped? ==> stage != AddService && stage != BumpService
        decreases 5 - Rank(stage)
      {
        state := LogStep(state, r, stage);
        stage := NextStage(r, stage);
      }
    }

    /** Undisturbed, a snapshot is the whole interval and leaves an empty one behind. */
    method IntervalStatistics() returns (snapshot: IntervalStatistics)
      modifies this
      ensures snapshot == old(state.interval)
      ensures state == old(state).(interval := NoStatistics)
    {
      snapshot := NoStatistics;
      for n := 0 to SWAPS
        invariant state == state.(dispatched := old(state.dispatched), total := old(state.total))
        invariant (state.interval.counts.success, snapshot.counts.success) == Moved(n > 0, old(state.interval.counts.success))
        invariant (state.interval.counts.failed, snapshot.counts.failed) == Moved(n > 1, old(state.interval.counts.failed))
        invariant (state.interval.counts.timeout, snapshot.counts.timeout) == Moved(n > 2, old(state.interval.counts.timeout))
        invariant (state.interval.counts.dropped, snapshot.counts.dropped) == Moved(n > 3, old(state.interval.counts.dropped))
        invariant (state.interval.serviceSum, snapshot.serviceSum) == Moved(n > 4, old(state.interval.serviceSum))
        invariant (state.interval.serviceCount, snapshot.serviceCount) == Moved(n > 5, old(state.interval.serviceCount))
        invariant state.interval.results == if n > 6 then [] else old(state.interval.results)
        invariant snapshot.results == if n > 6 then old(state.interval.results) else []
      {
        var (t, part) := SwapStep(state, snapshot, n);
        state, snapshot := t, part;
      }
    }

    method LogDispatched(n: nat)
      modifies this
      ensures state == old(state).(dispatched := old(state.dispatched) + n)
    {
      state := state.(dispatched := state.dispatched + n);
    }

    /** Undisturbed, the count is what is dispatched but not in the totals. */
    method InflightCount() returns (n: nat)
      ensures n == if state.dispatched >= state.total.Sum() then state.dispatched - state.total.Sum() else 0
    {
      var dispatched, totals := state.dispatched, state.total;
      var sum := totals.success + totals.failed + totals.timeout + totals.dropped;
      n := if dispatched >= sum then dispatched - sum else 0;
    }
  }

  ghost function Moved(moved: bool, n: nat): (nat, nat) {
    if moved then (0, n) else (n, 0)
  }
}
