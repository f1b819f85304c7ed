/** The pacer (src/dispatch.rs, `run_schedule`): dispatches every arrival and announces every step. */
module Pacer {
  import opened Wrappers
  import opened Schedule

  datatype Dispatch = Dispatch(arrival: Arrival, at: nat)

  datatype Event =
    | Dispatched(dispatch: Dispatch)
    | StepDone(index: nat, lastDispatch: Option<nat>)

  /**
   What the pacer does to the rest of the generator, in one log: it dispatches transactions and sends
   to the `StepDone` channel, whose receiver accepts `capacity` messages and then is gone.
   `elapsed(i)` is the time read after the i-th dispatch.
   */
  class Outbox {
    const capacity: Option<nat>
    const elapsed: nat -> nat
    var accepted: nat
    var dispatches: nat
    var log: seq<Event>

    constructor (capacity: Option<nat>, elapsed: nat -> nat)
      ensures this.capacity == capacity && this.elapsed == elapsed
      ensures accepted == 0 && dispatches == 0 && log == []
    {
      this.capacity, this.elapsed := capacity, elapsed;
      accepted, dispatches, log := 0, 0, [];
    }

    method Send(index: nat, lastDispatch: Option<nat>) returns (ok: bool)
      modifies this
      ensures ok <==> capacity.None? || old(accepted) < capacity.value
      ensures accepted == old(accepted) + (if ok then 1 else 0) && dispatches == old(dispatches)
      ensures log == old(log) + (if ok then [StepDone(index, lastDispatch)] else [])
    {
      ok := capacity.None? || accepted < capacity.value;
      if ok {
        accepted, log := accepted + 1, log + [StepDone(index, lastDispatch)];
      }
    }

    method DispatchNow(arrival: Arrival) returns (at: nat)
      modifies this
      ensures at == elapsed(old(dispatches)) && dispatches == old(dispatches) + 1 && accepted == old(accepted)
      ensures log == old(log) + [Dispatched(Dispatch(arrival, at))]
    {
      at := elapsed(dispatches);
      dispatches, log := dispatches + 1, log + [Dispatched(Dispatch(arrival, at))];
    }
  }

  // ---------------------------------------------------------------- the trace, step by step

  /** The dispatches that belong to step `j`, in order. */
  function OfStep(ds: seq<Dispatch>, j: nat): seq<Dispatch> {
    if ds == [] then []
    else OfStep(ds[..|ds| - 1], j) + (if ds[|ds| - 1].arrival.step == j then [ds[|ds| - 1]] else [])
  }

  function Announce(ds: seq<Dispatch>): (events: seq<Event>)
    ensures |events| == |ds| && forall i :: 0 <= i < |ds| ==> events[i] == Dispatched(ds[i])
  {
    seq(|ds|, (i: nat) requires i < |ds| => Dispatched(ds[i]))
  }

  function LastTime(ds: seq<Dispatch>): Option<nat> {
    if ds == [] then None else Some(ds[|ds| - 1].at)
  }

  /**
   The trace of the first `n` steps: for each step in turn all its dispatches, then one
   `StepDone` that carries the time of the step's final dispatch, if it had any.
   */
  function Trace(ds: seq<Dispatch>, n: nat): seq<Event> {
    if n == 0 then []
    else Trace(ds, n - 1) + Announce(OfStep(ds, n - 1)) + [StepDone(n - 1, LastTime(OfStep(ds, n - 1)))]
  }

  ghost predicate StepsAtMost(ds: seq<Dispatch>, j: nat) {
    forall i :: 0 <= i < |ds| ==> ds[i].arrival.step <= j
  }

  ghost predicate StepsBeyond(ds: seq<Dispatch>, j: nat) {
    forall i :: 0 <= i < |ds| ==> ds[i].arrival.step > j
  }

  lemma {:induction false} OfStepConcat(ds: seq<Dispatch>, more: seq<Dispatch>, j: nat)
    ensures OfStep(ds + more, j) == OfStep(ds, j) + OfStep(more, j)
  {
    if more == [] {
      assert ds + more == ds && OfStep(ds, j) + OfStep(more, j) == OfStep(ds, j);
    } else {
      var init := more[..|more| - 1];
      assert (ds + more)[..|ds + more| - 1] == ds + init;
      OfStepConcat(ds, init, j);
    }
  }

  lemma {:induction false} NoneOfStep(ds: seq<Dispatch>, j: nat)
    requires forall i :: 0 <= i < |ds| ==> ds[i].arrival.step != j
    ensures OfStep(ds, j) == []
  {
    if ds != [] {
      NoneOfStep(ds[..|ds| - 1], j);
    }
  }

  /** Dispatches of later steps do not change the trace of earlier ones. */
  lemma {:induction false} LaterDispatches(ds: seq<Dispatch>, more: seq<Dispatch>, n: nat)
    requires forall i :: 0 <= i < |more| ==> more[i].arrival.step >= n
    ensures Trace(ds + more, n) == Trace(ds, n)
  {
    hide OfStep;
    if n > 0 {
      LaterDispatches(ds, more, n - 1);
      OfStepConcat(ds, more, n - 1);
      NoneOfStep(more, n - 1);
      assert OfStep(ds, n - 1) + [] == OfStep(ds, n - 1);
    }
  }

  lemma {:induction false} TraceGrows(ds: seq<Dispatch>, k: nat, n: nat)
    requires k <= n
    ensures Trace(ds, k) <= Trace(ds, n)
  {
    if k < n {
      TraceGrows(ds, k, n - 1);
    }
  }

  /** What was emitted up to step `k` begins the full trace, however the schedule would go on. */
  lemma PartialTraceIsPrefix(ds: seq<Dispatch>, more: seq<Dispatch>, k: nat, n: nat)
    requires StepsBeyond(more, k) && k < n
    ensures Trace(ds, k) + Announce(OfStep(ds, k)) <= Trace(ds + more, n)
  {
    LaterDispatches(ds, more, k);
    OfStepConcat(ds, more, k);
    NoneOfStep(more, k);
    assert OfStep(ds, k) + [] == OfStep(ds, k);
    TraceGrows(ds + more, k + 1, n);
    assert Trace(ds + more, k + 1) == Trace(ds, k) + Announce(OfStep(ds, k)) + [StepDone(k, LastTime(OfStep(ds, k)))];
  }

  // ---------------------------------------------------------------- what a trace says

  function StepOf(event: Event): nat {
    match event case Dispatched(d) => d.arrival.step case StepDone(index, _) => index
  }

  lemma {:induction false} OfStepStep(ds: seq<Dispatch>, j: nat)
    ensures forall i :: 0 <= i < |OfStep(ds, j)| ==> OfStep(ds, j)[i].arrival.step == j
  {
    if ds != [] {
      OfStepStep(ds[..|ds| - 1], j);
    }
  }

  /**
   Steps appear in order, and nothing of a step, nor its announcement again, comes after its
   announcement.
   */
  ghost predicate OrderedTrace(t: seq<Event>, n: nat) {
    && (forall p :: 0 <= p < |t| ==> StepOf(t[p]) < n)
    && (forall p, q :: 0 <= p < q < |t| ==> StepOf(t[p]) <= StepOf(t[q]))
    && (forall p, q :: 0 <= p < q < |t| && t[p].StepDone? ==> StepOf(t[p]) < StepOf(t[q]))
  }

  lemma TraceLast(ds: seq<Dispatch>, n: nat)
    requires n > 0
    ensures Trace(ds, n) == Trace(ds, n - 1) + Announce(OfStep(ds, n - 1)) + [StepDone(n - 1, LastTime(OfStep(ds, n - 1)))]
  {
  }

  lemma {:induction false} TraceIsOrdered(ds: seq<Dispatch>, n: nat)
    ensures OrderedTrace(Trace(ds, n), n)
  {
    hide OfStep, OrderedTrace, Announce, LastTime;
    if n == 0 {
      NothingIsOrdered();
    } else {
      TraceIsOrdered(ds, n - 1);
      OfStepStep(ds, n - 1);
      OrderedExtension(Trace(ds, n - 1), OfStep(ds, n - 1), n - 1, LastTime(OfStep(ds, n - 1)));
    }
  }

  lemma NothingIsOrdered()
    ensures OrderedTrace([], 0)
  {
  }

  lemma OrderedExtension(t: seq<Event>, ds: seq<Dispatch>, n: nat, last: Option<nat>)
    requires OrderedTrace(t, n) && forall i :: 0 <= i < |ds| ==> ds[i].arrival.step == n
    ensures OrderedTrace(t + Announce(ds) + [StepDone(n, last)], n + 1)
  {
    var t' := t + Announce(ds) + [StepDone(n, last)];
    assert forall p :: |t| <= p < |t'| ==> StepOf(t'[p]) == n;
    assert forall p :: |t| <= p < |t'| - 1 ==> t'[p] == Announce(ds)[p - |t|];
  }

  /** Dispatch `i` is the final one of step `j`. */
  ghost predicate FinalOfStep(ds: seq<Dispatch>, j: nat, i: nat) {
    i < |ds| && ds[i].arrival.step == j && forall k :: i < k < |ds| ==> ds[k].arrival.step != j
  }

  /** The time announced with a step is that of its final dispatch, and missing only if it had none. */
  lemma {:induction false} LastTimeIsFinal(ds: seq<Dispatch>, j: nat)
    ensures LastTime(OfStep(ds, j)) == None <==> forall i :: 0 <= i < |ds| ==> ds[i].arrival.step != j
    ensures forall i: nat :: FinalOfStep(ds, j, i) ==> LastTime(OfStep(ds, j)) == Some(ds[i].at)
  {
    if ds != [] && ds[|ds| - 1].arrival.step != j {
      var init := ds[..|ds| - 1];
      LastTimeIsFinal(init, j);
      forall i: nat | FinalOfStep(ds, j, i) ensures LastTime(OfStep(ds, j)) == Some(ds[i].at) {
        assert FinalOfStep(init, j, i);
      }
      assert forall i :: 0 <= i < |init| ==> init[i] == ds[i];
    }
  }

  /** Each of the first `n` steps is announced, with the time of its final dispatch. */
  lemma {:induction false} TraceAnnouncesAll(ds: seq<Dispatch>, n: nat, j: nat)
    requires j < n
    ensures StepDone(j, LastTime(OfStep(ds, j))) in Trace(ds, n)
  {
    hide OfStep;
    if j < n - 1 {
      TraceAnnouncesAll(ds, n - 1, j);
    }
  }

  function Dispatches(events: seq<Event>): seq<Dispatch> {
    if events == [] then []
    else
      var last := events[|events| - 1];
      Dispatches(events[..|events| - 1]) + (if last.Dispatched? then [last.dispatch] else [])
  }

  lemma DispatchesOfOne(events: seq<Event>, d: Dispatch)
    ensures Dispatches(events + [Dispatched(d)]) == Dispatches(events) + [d]
  {
    assert (events + [Dispatched(d)])[..|events|] == events;
  }

  lemma {:induction false} DispatchesOfAnnounce(events: seq<Event>, ds: seq<Dispatch>)
    ensures Dispatches(events + Announce(ds)) == Dispatches(events) + ds
  {
    hide Dispatches;
    if ds == [] {
      assert events + Announce(ds) == events && Dispatches(events) + ds == Dispatches(events);
    } else {
      var init, last := ds[..|ds| - 1], ds[|ds| - 1];
      DispatchesOfAnnounce(events, init);
      DispatchesOfOne(events + Announce(init), last);
      assert events + Announce(ds) == events + Announce(init) + [Dispatched(last)];
      assert Dispatches(events) + init + [last] == Dispatches(events) + ds;
    }
  }

  /** The dispatches are in step order, and none is beyond the first `n` steps. */
  ghost predicate StepOrder(ds: seq<Dispatch>, n: nat) {
    && (forall a, b :: 0 <= a < b < |ds| ==> ds[a].arrival.step <= ds[b].arrival.step)
    && (forall a :: 0 <= a < |ds| ==> ds[a].arrival.step < n)
  }

  /** The dispatches of the last step are the last ones, and the trace before does not depend on them. */
  lemma SplitLastStep(ds: seq<Dispatch>, n: nat) returns (k: nat)
    requires n > 0 && StepOrder(ds, n)
    ensures k <= |ds| && StepOrder(ds[..k], n - 1)
    ensures OfStep(ds, n - 1) == ds[k..] && Trace(ds, n - 1) == Trace(ds[..k], n - 1)
  {
    hide OfStep, Trace;
    k := LastStepBegins(ds, n - 1);
    var front, back := ds[..k], ds[k..];
    assert ds == front + back;
    LaterDispatches(front, back, n - 1);
    OfStepConcat(front, back, n - 1);
    NoneOfStep(front, n - 1);
    AllOfStep(back, n - 1);
  }

  /** In order, and none lost or repeated: the dispatches in the trace are the dispatches made. */
  lemma {:induction false} TraceHasAllDispatches(ds: seq<Dispatch>, n: nat)
    requires StepOrder(ds, n)
    ensures Dispatches(Trace(ds, n)) == ds
    decreases n
  {
    hide OfStep, Dispatches, Announce, LastTime;
    if n == 0 {
      assert |ds| > 0 ==> ds[0].arrival.step < n;
      NoDispatches();
    } else {
      var k := SplitLastStep(ds, n);
      TraceLast(ds, n);
      hide Trace, StepOrder;
      TraceHasAllDispatches(ds[..k], n - 1);
      DispatchesOfAnnounce(Trace(ds, n - 1), ds[k..]);
      DispatchesOfDone(Trace(ds, n - 1) + Announce(ds[k..]), n - 1, LastTime(ds[k..]));
      assert ds[..k] + ds[k..] == ds;
    }
  }

  lemma NoDispatches()
    ensures Dispatches([]) == []
  {
  }

  lemma {:induction false} LastStepBegins(ds: seq<Dispatch>, j: nat) returns (k: nat)
    requires forall a, b :: 0 <= a < b < |ds| ==> ds[a].arrival.step <= ds[b].arrival.step
    requires forall a :: 0 <= a < |ds| ==> ds[a].arrival.step <= j
    ensures k <= |ds| && (forall a :: 0 <= a < k ==> ds[a].arrival.step < j)
    ensures forall a :: k <= a < |ds| ==> ds[a].arrival.step == j
  {
    if ds == [] || ds[|ds| - 1].arrival.step < j {
      k := |ds|;
    } else {
      k := LastStepBegins(ds[..|ds| - 1], j);
    }
  }

  lemma DispatchesOfDone(events: seq<Event>, index: nat, last: Option<nat>)
    ensures Dispatches(events + [StepDone(index, last)]) == Dispatches(events)
  {
    assert (events + [StepDone(index, last)])[..|events|] == events;
  }

  lemma {:induction false} AllOfStep(ds: seq<Dispatch>, j: nat)
    requires forall i :: 0 <= i < |ds| ==> ds[i].arrival.step == j
    ensures OfStep(ds, j) == ds
  {
    if ds != [] {
      AllOfStep(ds[..|ds| - 1], j);
    }
  }

  // ---------------------------------------------------------------- the loop

  /** `events` announce the first `k` steps and the dispatches of step `k` so far, all of `ds`. */
  ghost predicate Emitted(events: seq<Event>, ds: seq<Dispatch>, k: nat, last: Option<nat>) {
    && StepsAtMost(ds, k)
    && events == Trace(ds, k) + Announce(OfStep(ds, k))
    && last == LastTime(OfStep(ds, k))
  }

  lemma StepAnnounced(events: seq<Event>, ds: seq<Dispatch>, k: nat, last: Option<nat>)
    requires Emitted(events, ds, k, last)
    ensures Emitted(events + [StepDone(k, last)], ds, k + 1, None)
  {
    NoneOfStep(ds, k + 1);
    assert Announce([]) == [];
  }

  lemma DispatchEmitted(events: seq<Event>, ds: seq<Dispatch>, k: nat, last: Option<nat>, d: Dispatch)
    requires Emitted(events, ds, k, last) && d.arrival.step == k
    ensures Emitted(events + [Dispatched(d)], ds + [d], k, Some(d.at))
  {
    hide Trace, OfStep;
    LaterDispatches(ds, [d], k);
    OfStepConcat(ds, [d], k);
    AllOfStep([d], k);
    assert Announce(OfStep(ds, k) + [d]) == Announce(OfStep(ds, k)) + [Dispatched(d)];
  }

  /** Announces steps up to `target`, unless the receiver is gone. */
  method AnnounceUntil(outbox: Outbox, next: nat, target: nat, last: Option<nat>, ghost ds: seq<Dispatch>)
    returns (ok: bool, nextStep: nat, lastDispatch: Option<nat>)
    requires next <= target && outbox.accepted == next && Emitted(outbox.log, ds, next, last)
    requires outbox.capacity.Some? ==> next <= outbox.capacity.value
    modifies outbox
    ensures next <= nextStep <= target && outbox.accepted == nextStep && outbox.dispatches == old(outbox.dispatches)
    ensures Emitted(outbox.log, ds, nextStep, lastDispatch)
    ensures outbox.capacity.Some? ==> nextStep <= outbox.capacity.value
    ensures ok ==> nextStep == target && (next == target ==> lastDispatch == last)
    ensures !ok ==> outbox.capacity == Some(nextStep) && nextStep < target
  {
    hide Emitted;
    nextStep, lastDispatch := next, last;
    while nextStep < target
      invariant next <= nextStep <= target && outbox.accepted == nextStep && outbox.dispatches == old(outbox.dispatches)
      invariant outbox.capacity.Some? ==> nextStep <= outbox.capacity.value
      invariant Emitted(outbox.log, ds, nextStep, lastDispatch)
      invariant nextStep == next ==> lastDispatch == last
    {
      ghost var before := outbox.log;
      var sent := outbox.Send(nextStep, lastDispatch);
      if !sent {
        assert outbox.log == before;
        return false, nextStep, lastDispatch;
      }
      StepAnnounced(before, ds, nextStep, lastDispatch);
      lastDispatch := None;
      nextStep := nextStep + 1;
    }
    ok := true;
  }

  /** The steps that have to end for the pacer to return: all of them, or one more than the receiver accepts. */
  function StepsToPace(total: nat, capacity: Option<nat>): nat {
    if capacity.None? then total else Min(total, capacity.value + 1)
  }

  /**
   The pacer ends if the steps it has to pace do, that is, if they have a whole history
   (`ScheduleEndsIff` says when). The result says whether every step was announced. With a
   receiver that stays, the log is the full trace of all arrivals; otherwise it is a prefix of every
   full trace that the schedule could still have led to.
   */
  method RunSchedule(schedule: ArrivalSchedule, outbox: Outbox, ghost counts: seq<nat>) returns (complete: bool)
    requires schedule.Valid() && schedule.yielded == [] && Indexed(schedule.all)
    requires outbox.log == [] && outbox.accepted == 0 && outbox.dispatches == 0
    requires Complete(schedule.all, schedule.draw, counts, StepsToPace(|schedule.all|, outbox.capacity))
    modifies schedule, outbox
    ensures schedule.Valid() && outbox.dispatches <= |schedule.yielded|
    ensures complete <==> outbox.capacity.None? || |schedule.all| <= outbox.capacity.value
    ensures complete ==>
              && schedule.Exhausted() && outbox.dispatches == |schedule.yielded| && outbox.accepted == |schedule.all|
              && outbox.log == Trace(Stamped(schedule.yielded, outbox.elapsed), |schedule.all|)
    ensures !complete ==>
              var k, ds := outbox.accepted, Stamped(schedule.yielded[..outbox.dispatches], outbox.elapsed);
              && k == outbox.capacity.value < |schedule.all|
              && outbox.log == Trace(ds, k) + Announce(OfStep(ds, k))
              && forall more :: StepsBeyond(more, k) ==> outbox.log <= Trace(ds + more, |schedule.all|)
  {
    hide Trace, OfStep, ArrivalSchedule.Valid, Explains, Emitted, Stamped;
    var total := |schedule.all|;
    var nextStep: nat := 0;
    var lastDispatch: Option<nat> := None;
    ghost var before: seq<Arrival> := [];
    ghost var n, most := |counts|, |Arrivals(schedule.all, schedule.draw, counts, |counts|)|;
    NothingEmitted(outbox.elapsed);
    var arrival := schedule.Next();
    while arrival.Some?
      invariant schedule.Valid() && (arrival.None? <==> schedule.Exhausted())
      invariant arrival.Some? ==> arrival.value.step == schedule.current.value.index
      invariant schedule.yielded == before + (if arrival.Some? then [arrival.value] else [])
      invariant outbox.dispatches == |before|
      invariant nextStep == StepReached(before) && (nextStep < total || before == [])
      invariant outbox.accepted == nextStep
      invariant outbox.capacity.Some? ==> nextStep <= outbox.capacity.value
      invariant Emitted(outbox.log, Stamped(before, outbox.elapsed), nextStep, lastDispatch)
      decreases arrival.Some?, if |schedule.counts| <= n then most + 1 - |schedule.yielded| else 0
    {
      YieldedInStep(schedule, before, arrival.value);
      StaysBelow(schedule, counts, n);
      ghost var ds := Stamped(before, outbox.elapsed);
      var ok;
      ok, nextStep, lastDispatch := AnnounceUntil(outbox, nextStep, arrival.value.step, lastDispatch, ds);
      if !ok {
        StoppedEarly(outbox.log, ds, nextStep, lastDispatch, total);
        assert schedule.yielded[..|before|] == before;
        return false;
      }
      ghost var log := outbox.log;
      var at := outbox.DispatchNow(arrival.value);
      DispatchEmitted(log, ds, nextStep, lastDispatch, Dispatch(arrival.value, at));
      StampedLast(before, arrival.value, outbox.elapsed);
      before := before + [arrival.value];
      lastDispatch := Some(at);
      arrival := schedule.Next();
      if arrival.Some? {
        StaysBelow(schedule, counts, n);
      }
    }
    assert schedule.yielded == before;
    ghost var ds := Stamped(before, outbox.elapsed);
    BelowTotal(outbox.log, ds, nextStep, lastDispatch, total);
    complete, nextStep, lastDispatch := AnnounceUntil(outbox, nextStep, total, lastDispatch, ds);
    if complete {
      AllAnnounced(outbox.log, ds, total, lastDispatch);
    } else {
      StoppedEarly(outbox.log, ds, nextStep, lastDispatch, total);
      assert schedule.yielded[..|before|] == before;
    }
  }

  lemma StampedLast(arrivals: seq<Arrival>, arrival: Arrival, elapsed: nat -> nat)
    ensures Stamped(arrivals + [arrival], elapsed) == Stamped(arrivals, elapsed) + [Dispatch(arrival, elapsed(|arrivals|))]
  {
  }

  /** While the schedule is in a step that ends, it has no more arrivals than the whole history. */
  lemma StaysBelow(schedule: ArrivalSchedule, counts: seq<nat>, n: nat)
    requires schedule.Valid() && schedule.current.Some? && Indexed(schedule.all)
    requires Complete(schedule.all, schedule.draw, counts, n)
    ensures schedule.counts != [] && schedule.current.value.index == |schedule.counts| - 1 < |schedule.all|
    ensures |schedule.counts| <= n ==> |schedule.yielded| <= |Arrivals(schedule.all, schedule.draw, counts, n)|
  {
    if |schedule.counts| <= n {
      PartialRunIsBelow(schedule.all, schedule.draw, schedule.counts, counts, n);
    }
  }

  function Stamped(arrivals: seq<Arrival>, elapsed: nat -> nat): (ds: seq<Dispatch>)
    ensures |ds| == |arrivals|
  {
    seq(|arrivals|, (i: nat) requires i < |arrivals| => Dispatch(arrivals[i], elapsed(i)))
  }

  function StepReached(arrivals: seq<Arrival>): nat {
    if arrivals == [] then 0 else arrivals[|arrivals| - 1].step
  }

  lemma BelowTotal(events: seq<Event>, ds: seq<Dispatch>, k: nat, last: Option<nat>, total: nat)
    requires Emitted(events, ds, k, last) && (k < total || ds == [])
    ensures forall i :: 0 <= i < |ds| ==> ds[i].arrival.step < total
  {
  }

  lemma AllAnnounced(events: seq<Event>, ds: seq<Dispatch>, total: nat, last: Option<nat>)
    requires Emitted(events, ds, total, last)
    requires forall i :: 0 <= i < |ds| ==> ds[i].arrival.step < total
    ensures events == Trace(ds, total)
  {
    NoneOfStep(ds, total);
    assert Announce([]) == [];
  }

  lemma NothingEmitted(elapsed: nat -> nat)
    ensures Emitted([], Stamped([], elapsed), 0, None)
  {
    assert Stamped([], elapsed) == [] && Announce([]) == [];
  }

  lemma StoppedEarly(events: seq<Event>, ds: seq<Dispatch>, k: nat, last: Option<nat>, total: nat)
    requires Emitted(events, ds, k, last) && k < total
    ensures events == Trace(ds, k) + Announce(OfStep(ds, k))
    ensures forall more :: StepsBeyond(more, k) ==> events <= Trace(ds + more, total)
  {
    forall more | StepsBeyond(more, k) ensures events <= Trace(ds + more, total) {
      PartialTraceIsPrefix(ds, more, k, total);
    }
  }

  /** A freshly yielded arrival belongs to a real step, no earlier than the one before it. */
  lemma YieldedInStep(schedule: ArrivalSchedule, before: seq<Arrival>, arrival: Arrival)
    requires schedule.Valid() && Indexed(schedule.all)
    requires schedule.yielded == before + [arrival]
    ensures arrival.step < |schedule.all|
    ensures StepReached(before) <= arrival.step
  {
    ArrivalsAreOrdered(schedule.all, schedule.draw, schedule.counts, |schedule.counts|);
    assert schedule.yielded[|before|] == arrival;
    if before != [] {
      assert schedule.yielded[|before| - 1] == before[|before| - 1];
    }
  }
}
