/**
 Arrival times of a piecewise-constant Poisson process (src/load/schedule.rs).

 Times are nanoseconds. The random gaps are an arbitrary stream: `draw(n, rate)` is the n-th
 sample of the generator, taken at the given rate and rounded to nanoseconds. It may be zero.
 */
module Schedule {
  import opened Wrappers

  const SECOND := 1_000_000_000

  datatype LoadStep = LoadStep(deadline: nat, count: nat)

  datatype ScheduledStep = ScheduledStep(index: nat, deadline: nat, rate: real)

  datatype Arrival = Arrival(offset: nat, step: nat)

  type Gaps = (nat, real) -> nat

  function Max(a: nat, b: nat): nat {
    if a >= b then a else b
  }

  function Min(a: nat, b: nat): nat {
    if a <= b then a else b
  }

  function SaturatingSub(a: nat, b: nat): nat {
    if a >= b then a - b else 0
  }

  /** Requests per second; steps without requests or without a duration have rate zero. */
  function Rate(count: nat, duration: nat): real {
    if count == 0 || duration == 0 then 0.0 else count as real / (duration as real / SECOND as real)
  }

  /** The latest deadline among the first `j` steps, zero if there is none. */
  function LatestDeadline(profile: seq<LoadStep>, j: nat): nat
    requires j <= |profile|
  {
    if j == 0 then 0 else Max(LatestDeadline(profile, j - 1), profile[j - 1].deadline)
  }

  ghost predicate Indexed(steps: seq<ScheduledStep>) {
    forall j :: 0 <= j < |steps| ==> steps[j].index == j
  }

  /** A step is paced over the time since the latest earlier deadline. */
  ghost predicate Paces(steps: seq<ScheduledStep>, profile: seq<LoadStep>) {
    && |steps| == |profile| && Indexed(steps)
    && forall j :: 0 <= j < |profile| ==>
         && steps[j].deadline == profile[j].deadline
         && steps[j].rate == Rate(profile[j].count, SaturatingSub(profile[j].deadline, LatestDeadline(profile, j)))
  }

  /** No earlier deadline is later, and it is one of them unless there is none. */
  lemma {:induction false} LatestDeadlineIsLatest(profile: seq<LoadStep>, j: nat)
    requires j <= |profile|
    ensures forall i :: 0 <= i < j ==> profile[i].deadline <= LatestDeadline(profile, j)
    ensures LatestDeadline(profile, j) == 0 || exists i :: 0 <= i < j && profile[i].deadline == LatestDeadline(profile, j)
  {
    if j > 0 {
      LatestDeadlineIsLatest(profile, j - 1);
      assert LatestDeadline(profile, j) in {LatestDeadline(profile, j - 1), profile[j - 1].deadline};
    }
  }

  /** At this rate as many requests are due in the given time; no time, no requests. */
  ghost predicate Due(rate: real, count: nat, time: int) {
    if time > 0 then rate * time as real == count as real * SECOND as real else rate == 0.0
  }

  lemma RateIsDue(count: nat, duration: nat)
    ensures Due(Rate(count, duration), count, duration)
  {
    if count > 0 && duration > 0 {
      var seconds := duration as real / SECOND as real;
      assert Rate(count, duration) * seconds == count as real;
      assert seconds * SECOND as real == duration as real;
    }
  }

  lemma DueLate(rate: real, count: nat, time: int)
    requires Due(rate, count, if time > 0 then time else 0)
    ensures Due(rate, count, time)
  {
  }

  lemma {:induction false} PacedRateIsDue(steps: seq<ScheduledStep>, profile: seq<LoadStep>, j: nat)
    requires Paces(steps, profile) && j < |profile|
    ensures Due(steps[j].rate, profile[j].count, profile[j].deadline - LatestDeadline(profile, j))
  {
    hide Rate, Due, Indexed;
    var time := profile[j].deadline - LatestDeadline(profile, j);
    RateIsDue(profile[j].count, if time > 0 then time else 0);
    DueLate(steps[j].rate, profile[j].count, time);
  }

  method FromProfile(profile: seq<LoadStep>) returns (steps: seq<ScheduledStep>)
    ensures Paces(steps, profile)
    ensures forall j :: 0 <= j < |profile| ==> Due(steps[j].rate, profile[j].count, profile[j].deadline - LatestDeadline(profile, j))
    ensures forall j :: 0 <= j <= |profile| ==> Start(steps, j) == LatestDeadline(profile, j)
  {
    hide Rate, SaturatingSub, Max, Due;
    steps := [];
    var previous := 0;
    for i := 0 to |profile|
      invariant |steps| == i && Indexed(steps)
      invariant previous == LatestDeadline(profile, i)
      invariant forall j :: 0 <= j < i ==>
                  && steps[j].deadline == profile[j].deadline
                  && steps[j].rate == Rate(profile[j].count, SaturatingSub(profile[j].deadline, LatestDeadline(profile, j)))
    {
      var deadline := profile[i].deadline;
      var rate := Rate(profile[i].count, SaturatingSub(deadline, previous));
      previous := Max(previous, deadline);
      steps := steps + [ScheduledStep(i, deadline, rate)];
    }
    forall j | 0 <= j < |profile| ensures Due(steps[j].rate, profile[j].count, profile[j].deadline - LatestDeadline(profile, j)) {
      PacedRateIsDue(steps, profile, j);
    }
    forall j | 0 <= j <= |profile| ensures Start(steps, j) == LatestDeadline(profile, j) {
      StartIsLatestDeadline(profile, steps, j);
    }
  }

  lemma {:induction false} StartIsLatestDeadline(profile: seq<LoadStep>, steps: seq<ScheduledStep>, j: nat)
    requires |steps| == |profile| && j <= |steps|
    requires forall i :: 0 <= i < |steps| ==> steps[i].deadline == profile[i].deadline
    ensures Start(steps, j) == LatestDeadline(profile, j)
  {
    if j > 0 {
      StartIsLatestDeadline(profile, steps, j - 1);
    }
  }

  /** One-second steps at the warmup rate: each is paced like a profile step with that many requests. */
  function FromWarmup(rate: nat, duration: nat): (steps: seq<ScheduledStep>)
    ensures |steps| == duration && Indexed(steps)
    ensures forall j :: 0 <= j < duration ==>
              && steps[j].deadline == (j + 1) * SECOND
              && steps[j].rate == Rate(rate, SaturatingSub(steps[j].deadline, Start(steps, j)))
    ensures forall j :: 0 <= j <= duration ==> Start(steps, j) == j * SECOND
  {
    var steps := seq(duration, (i: nat) requires i < duration => ScheduledStep(i, (i + 1) * SECOND, rate as real));
    WarmupStarts(steps, duration);
    WarmupRates(steps, rate);
    steps
  }

  lemma WarmupRates(steps: seq<ScheduledStep>, rate: nat)
    requires forall j :: 0 <= j < |steps| ==> steps[j].deadline == (j + 1) * SECOND && steps[j].rate == rate as real
    requires forall j :: 0 <= j <= |steps| ==> Start(steps, j) == j * SECOND
    ensures forall j :: 0 <= j < |steps| ==> steps[j].rate == Rate(rate, SaturatingSub(steps[j].deadline, Start(steps, j)))
  {
    hide Start;
    assert Rate(rate, SECOND) == rate as real;
    forall j | 0 <= j < |steps|
      ensures steps[j].rate == Rate(rate, SaturatingSub(steps[j].deadline, Start(steps, j)))
    {
      assert SaturatingSub(steps[j].deadline, Start(steps, j)) == SECOND;
    }
  }

  lemma {:induction false} WarmupStarts(steps: seq<ScheduledStep>, j: nat)
    requires j <= |steps| && forall i :: 0 <= i < |steps| ==> steps[i].deadline == (i + 1) * SECOND
    ensures forall i :: 0 <= i <= j ==> Start(steps, i) == i * SECOND
  {
    if j > 0 {
      WarmupStarts(steps, j - 1);
    }
  }

  // ---------------------------------------------------------------- the per-step specification

  /** When step `j` begins: at the latest of the earlier deadlines. */
  function Start(steps: seq<ScheduledStep>, j: nat): nat
    requires j <= |steps|
  {
    if j == 0 then 0 else Max(Start(steps, j - 1), steps[j - 1].deadline)
  }

  /** The sum of `k` gaps drawn from sample `base` on. */
  function GapSum(draw: Gaps, rate: real, base: nat, k: nat): nat {
    if k == 0 then 0 else GapSum(draw, rate, base, k - 1) + draw(base + k - 1, rate)
  }

  /** The samples used by the first `j` steps: one per arrival and one overshoot per active step. */
  function Base(steps: seq<ScheduledStep>, counts: seq<nat>, j: nat): nat
    requires j <= |counts| <= |steps|
  {
    if j == 0 then 0
    else Base(steps, counts, j - 1) + counts[j - 1] + (if steps[j - 1].rate > 0.0 then 1 else 0)
  }

  /** The k-th arrival time of step `j` (counting from 1). */
  function ArrivalTime(steps: seq<ScheduledStep>, draw: Gaps, counts: seq<nat>, j: nat, k: nat): nat
    requires j < |counts| <= |steps|
  {
    Start(steps, j) + GapSum(draw, steps[j].rate, Base(steps, counts, j), k)
  }

  /** The arrivals of step `j` are partial gap sums that stay below its deadline. */
  ghost predicate BelowDeadline(steps: seq<ScheduledStep>, draw: Gaps, counts: seq<nat>, j: nat)
    requires j < |counts| <= |steps|
  {
    && (steps[j].rate <= 0.0 ==> counts[j] == 0)
    && forall k :: 1 <= k <= counts[j] ==> ArrivalTime(steps, draw, counts, j, k) < steps[j].deadline
  }

  /** The run of step `j` could not be longer: the next gap overshoots the deadline. */
  ghost predicate Longest(steps: seq<ScheduledStep>, draw: Gaps, counts: seq<nat>, j: nat)
    requires j < |counts| <= |steps|
  {
    steps[j].rate > 0.0 ==> ArrivalTime(steps, draw, counts, j, counts[j] + 1) >= steps[j].deadline
  }

  /** `counts` are the arrivals per step; the first `closed` steps are over. */
  ghost predicate Explains(steps: seq<ScheduledStep>, draw: Gaps, counts: seq<nat>, closed: nat) {
    && closed <= |counts| <= |steps|
    && (forall j :: 0 <= j < |counts| ==> BelowDeadline(steps, draw, counts, j))
    && (forall j :: 0 <= j < closed ==> Longest(steps, draw, counts, j))
  }

  /** A whole history of the first `n` steps: each has its longest run. */
  ghost predicate Complete(steps: seq<ScheduledStep>, draw: Gaps, counts: seq<nat>, n: nat) {
    |counts| == n && Explains(steps, draw, counts, n)
  }

  function StepArrivals(steps: seq<ScheduledStep>, draw: Gaps, counts: seq<nat>, j: nat, c: nat): seq<Arrival>
    requires j < |counts| <= |steps|
  {
    if c == 0 then []
    else StepArrivals(steps, draw, counts, j, c - 1) + [Arrival(ArrivalTime(steps, draw, counts, j, c), steps[j].index)]
  }

  /** All arrivals of the first `j` steps, in order. */
  function Arrivals(steps: seq<ScheduledStep>, draw: Gaps, counts: seq<nat>, j: nat): seq<Arrival>
    requires j <= |counts| <= |steps|
  {
    if j == 0 then []
    else Arrivals(steps, draw, counts, j - 1) + StepArrivals(steps, draw, counts, j - 1, counts[j - 1])
  }

  // ---------------------------------------------------------------- the iterator

  class ArrivalSchedule {
    const all: seq<ScheduledStep>
    const draw: Gaps
    var steps: seq<ScheduledStep>
    var current: Option<ScheduledStep>
    var clock: nat
    var sampled: nat
    ghost var counts: seq<nat>
    ghost var yielded: seq<Arrival>

    ghost predicate Exhausted()
      reads this
    {
      current.None?
    }

    ghost predicate Valid()
      reads this
    {
      && |counts| <= |all|
      && yielded == Arrivals(all, draw, counts, |counts|)
      && (current.None? ==>
            && steps == [] && |counts| == |all|
            && Explains(all, draw, counts, |counts|)
            && sampled == Base(all, counts, |counts|))
      && (current.Some? ==>
            && |counts| >= 1
            && var j := |counts| - 1;
            && current.value == all[j] && steps == all[j + 1..]
            && Explains(all, draw, counts, j)
            && clock == ArrivalTime(all, draw, counts, j, counts[j])
            && sampled == Base(all, counts, j) + counts[j])
    }

    constructor (steps: seq<ScheduledStep>, draw: Gaps)
      ensures Valid() && all == steps && this.draw == draw
      ensures yielded == [] && sampled == 0
    {
      all := steps;
      this.draw := draw;
      clock := 0;
      sampled := 0;
      current := if steps == [] then None else Some(steps[0]);
      this.steps := if steps == [] then [] else steps[1..];
      counts := if steps == [] then [] else [0];
      yielded := [];
    }

    /**
     The next arrival. Whatever the gaps are, what has been yielded is at every moment what the
     per-step specification says, and `None` comes exactly when every step has run its longest.
     */
    method Next() returns (r: Option<Arrival>)
      requires Valid()
      modifies this
      ensures Valid()
      ensures r.None? <==> Exhausted()
      ensures r.None? ==> yielded == old(yielded) && Complete(all, draw, counts, |all|)
      ensures r.None? ==> sampled == |yielded| + ActiveSteps(all, |all|)
      ensures r.Some? ==> yielded == old(yielded) + [r.value] && r.value == Arrival(clock, current.value.index)
    {
      hide ArrivalTime, Base, Explains, Arrivals, Start;
      while true
        invariant Valid() && yielded == old(yielded)
        decreases |steps| + (if current.Some? then 1 else 0)
      {
        if current.None? {
          SamplesAreArrivalsAndOvershoots(all, draw, counts, |counts|);
          return None;
        }
        var step := current.value;
        ghost var j := |counts| - 1;
        ghost var before := counts;
        if step.rate > 0.0 {
          var gap := draw(sampled, step.rate);
          sampled := sampled + 1;
          var candidate := clock + gap;
          NextArrivalTime(all, draw, counts, j);
          if candidate < step.deadline {
            clock := candidate;
            counts := counts[j := counts[j] + 1];
            OneMoreArrival(all, draw, before, j);
            yielded := yielded + [Arrival(candidate, step.index)];
            return Some(Arrival(candidate, step.index));
          }
        }
        StepCloses(all, draw, counts, clock);
        clock := Max(clock, step.deadline);
        if steps == [] {
          current := None;
        } else {
          current := Some(steps[0]);
          steps := steps[1..];
          counts := counts + [0];
          NextStepOpens(all, draw, before);
        }
      }
    }
  }

  lemma {:induction false} SamePrefix(steps: seq<ScheduledStep>, draw: Gaps, counts: seq<nat>, counts': seq<nat>, j: nat)
    requires j <= |counts| <= |steps| && j <= |counts'| <= |steps| && counts[..j] == counts'[..j]
    ensures Base(steps, counts, j) == Base(steps, counts', j)
    ensures Arrivals(steps, draw, counts, j) == Arrivals(steps, draw, counts', j)
  {
    if j > 0 {
      assert counts[..j - 1] == counts[..j][..j - 1] && counts'[..j - 1] == counts'[..j][..j - 1];
      assert counts[j - 1] == counts[..j][j - 1] && counts'[j - 1] == counts'[..j][j - 1];
      SamePrefix(steps, draw, counts, counts', j - 1);
      SameStepArrivals(steps, draw, counts, counts', j - 1, counts[j - 1]);
    }
  }

  lemma {:induction false} SameStepArrivals(steps: seq<ScheduledStep>, draw: Gaps, counts: seq<nat>, counts': seq<nat>, j: nat, c: nat)
    requires j < |counts| <= |steps| && j < |counts'| <= |steps|
    requires Base(steps, counts, j) == Base(steps, counts', j)
    ensures StepArrivals(steps, draw, counts, j, c) == StepArrivals(steps, draw, counts', j, c)
  {
    if c > 0 {
      SameStepArrivals(steps, draw, counts, counts', j, c - 1);
    }
  }

  /** What holds of the steps before `j` does not depend on the counts from `j` on. */
  lemma ExplainsPrefix(steps: seq<ScheduledStep>, draw: Gaps, counts: seq<nat>, counts': seq<nat>, j: nat)
    requires j <= |counts| <= |steps| && j <= |counts'| <= |steps| && counts[..j] == counts'[..j]
    requires forall i :: 0 <= i < j ==> BelowDeadline(steps, draw, counts, i) && Longest(steps, draw, counts, i)
    ensures forall i :: 0 <= i < j ==> BelowDeadline(steps, draw, counts', i) && Longest(steps, draw, counts', i)
  {
    forall i | 0 <= i < j
      ensures BelowDeadline(steps, draw, counts', i) && Longest(steps, draw, counts', i)
    {
      assert counts[..i] == counts[..j][..i] && counts'[..i] == counts'[..j][..i];
      assert counts[i] == counts[..j][i] && counts'[i] == counts'[..j][i];
      SamePrefix(steps, draw, counts, counts', i);
      assert BelowDeadline(steps, draw, counts, i) && Longest(steps, draw, counts, i);
      forall k | 1 <= k <= counts'[i] ensures ArrivalTime(steps, draw, counts', i, k) < steps[i].deadline {
        assert ArrivalTime(steps, draw, counts, i, k) < steps[i].deadline;
      }
    }
  }

  lemma OneMoreArrival(steps: seq<ScheduledStep>, draw: Gaps, counts: seq<nat>, j: nat)
    requires |counts| <= |steps| && j == |counts| - 1 && steps[j].rate > 0.0
    requires Explains(steps, draw, counts, j)
    requires ArrivalTime(steps, draw, counts, j, counts[j] + 1) < steps[j].deadline
    ensures var counts' := counts[j := counts[j] + 1];
            && Explains(steps, draw, counts', j)
            && Base(steps, counts', j) == Base(steps, counts, j)
            && ArrivalTime(steps, draw, counts', j, counts'[j]) == ArrivalTime(steps, draw, counts, j, counts[j] + 1)
            && Arrivals(steps, draw, counts', |counts|) ==
               Arrivals(steps, draw, counts, |counts|)
               + [Arrival(ArrivalTime(steps, draw, counts, j, counts[j] + 1), steps[j].index)]
  {
    var counts' := counts[j := counts[j] + 1];
    assert counts'[..j] == counts[..j];
    SamePrefix(steps, draw, counts, counts', j);
    ExplainsPrefix(steps, draw, counts, counts', j);
    SameStepArrivals(steps, draw, counts, counts', j, counts[j]);
    assert BelowDeadline(steps, draw, counts, j);
    forall k | 1 <= k <= counts'[j] ensures ArrivalTime(steps, draw, counts', j, k) < steps[j].deadline {
      assert ArrivalTime(steps, draw, counts', j, k) == ArrivalTime(steps, draw, counts, j, k);
    }
  }

  lemma NextArrivalTime(steps: seq<ScheduledStep>, draw: Gaps, counts: seq<nat>, j: nat)
    requires j < |counts| <= |steps|
    ensures ArrivalTime(steps, draw, counts, j, counts[j] + 1)
         == ArrivalTime(steps, draw, counts, j, counts[j]) + draw(Base(steps, counts, j) + counts[j], steps[j].rate)
  {
  }

  lemma StepCloses(steps: seq<ScheduledStep>, draw: Gaps, counts: seq<nat>, clock: nat)
    requires 1 <= |counts| <= |steps|
    requires var j := |counts| - 1;
             && Explains(steps, draw, counts, j) && Longest(steps, draw, counts, j)
             && clock == ArrivalTime(steps, draw, counts, j, counts[j])
    ensures Explains(steps, draw, counts, |counts|)
    ensures Max(clock, steps[|counts| - 1].deadline) == Start(steps, |counts|)
    ensures Base(steps, counts, |counts|)
         == Base(steps, counts, |counts| - 1) + counts[|counts| - 1] + (if steps[|counts| - 1].rate > 0.0 then 1 else 0)
    ensures steps[|counts| - 1].rate <= 0.0 ==> counts[|counts| - 1] == 0
  {
    var j := |counts| - 1;
    assert BelowDeadline(steps, draw, counts, j);
    GapSumGrows(draw, steps[j].rate, Base(steps, counts, j), 0, counts[j]);
  }

  lemma NextStepOpens(steps: seq<ScheduledStep>, draw: Gaps, counts: seq<nat>)
    requires 1 <= |counts| < |steps|
    requires Explains(steps, draw, counts, |counts|)
    ensures var j, counts' := |counts|, counts + [0];
            && Explains(steps, draw, counts', j)
            && Base(steps, counts', j) == Base(steps, counts, j)
            && Arrivals(steps, draw, counts', j + 1) == Arrivals(steps, draw, counts, j)
            && ArrivalTime(steps, draw, counts', j, 0) == Start(steps, j)
  {
    var j, counts' := |counts|, counts + [0];
    assert counts'[..j] == counts[..j];
    SamePrefix(steps, draw, counts, counts', j);
    ExplainsPrefix(steps, draw, counts, counts', j);
    assert StepArrivals(steps, draw, counts', j, 0) == [];
  }

  // ---------------------------------------------------------------- consequences

  lemma {:induction false} GapSumGrows(draw: Gaps, rate: real, base: nat, k: nat, l: nat)
    requires k <= l
    ensures GapSum(draw, rate, base, k) <= GapSum(draw, rate, base, l)
  {
    if k < l {
      GapSumGrows(draw, rate, base, k, l - 1);
    }
  }

  /**
   The specification determines the run: for one stream of gaps there is only one way to fill
   all steps, so any two complete histories agree on every step's arrivals.
   */
  lemma CompleteRunIsUnique(steps: seq<ScheduledStep>, draw: Gaps, xs: seq<nat>, ys: seq<nat>, n: nat)
    requires Complete(steps, draw, xs, n) && Complete(steps, draw, ys, n)
    ensures xs == ys
  {
    ClosedStepsAgree(steps, draw, xs, n, ys, n, n);
    assert xs[..n] == xs && ys[..n] == ys;
  }

  lemma {:induction false} ClosedStepsAgree(steps: seq<ScheduledStep>, draw: Gaps,
                                            xs: seq<nat>, a: nat, ys: seq<nat>, b: nat, j: nat)
    requires Explains(steps, draw, xs, a) && Explains(steps, draw, ys, b) && j <= a && j <= b
    ensures xs[..j] == ys[..j]
  {
    if j > 0 {
      ClosedStepsAgree(steps, draw, xs, a, ys, b, j - 1);
      var i := j - 1;
      SamePrefix(steps, draw, xs, ys, i);
      assert BelowDeadline(steps, draw, xs, i) && BelowDeadline(steps, draw, ys, i);
      assert Longest(steps, draw, xs, i) && Longest(steps, draw, ys, i);
      assert forall k :: ArrivalTime(steps, draw, xs, i, k) == ArrivalTime(steps, draw, ys, i, k);
      var shorter := Min(xs[i], ys[i]);
      var t := ArrivalTime(steps, draw, xs, i, shorter + 1);
      assert t == ArrivalTime(steps, draw, ys, i, shorter + 1);
      assert xs[..j] == xs[..i] + [xs[i]] && ys[..j] == ys[..i] + [ys[i]];
    }
  }

  ghost predicate Ordered(arrivals: seq<Arrival>) {
    forall a, b :: 0 <= a < b < |arrivals| ==>
      arrivals[a].offset <= arrivals[b].offset && arrivals[a].step <= arrivals[b].step
  }

  /** Every arrival lies within its own step: not before its start, strictly before its deadline. */
  ghost predicate WithinSteps(steps: seq<ScheduledStep>, arrivals: seq<Arrival>) {
    forall a :: 0 <= a < |arrivals| ==>
      && arrivals[a].step < |steps|
      && Start(steps, arrivals[a].step) <= arrivals[a].offset < steps[arrivals[a].step].deadline
  }

  /** Order and placement of arrivals, after any number of `Next` calls and for any gaps. */
  lemma {:induction false} ArrivalsAreOrdered(steps: seq<ScheduledStep>, draw: Gaps, counts: seq<nat>, j: nat)
    requires Indexed(steps) && j <= |counts| && Explains(steps, draw, counts, 0)
    ensures var arrivals := Arrivals(steps, draw, counts, j);
            && Ordered(arrivals) && WithinSteps(steps, arrivals)
            && (forall a :: 0 <= a < |arrivals| ==> arrivals[a].step < j && arrivals[a].offset < Start(steps, j))
  {
    if j > 0 {
      ArrivalsAreOrdered(steps, draw, counts, j - 1);
      StepArrivalsAreOrdered(steps, draw, counts, j - 1, counts[j - 1]);
    }
  }

  lemma {:induction false} StepArrivalsAreOrdered(steps: seq<ScheduledStep>, draw: Gaps, counts: seq<nat>, j: nat, c: nat)
    requires Indexed(steps) && j < |counts| <= |steps| && c <= counts[j]
    requires BelowDeadline(steps, draw, counts, j)
    ensures var arrivals := StepArrivals(steps, draw, counts, j, c);
            && Ordered(arrivals)
            && (forall a :: 0 <= a < |arrivals| ==>
                  && arrivals[a].step == j
                  && Start(steps, j) <= arrivals[a].offset <= ArrivalTime(steps, draw, counts, j, c)
                  && arrivals[a].offset < steps[j].deadline)
  {
    if c > 0 {
      StepArrivalsAreOrdered(steps, draw, counts, j, c - 1);
    }
  }

  function ActiveSteps(steps: seq<ScheduledStep>, j: nat): nat
    requires j <= |steps|
  {
    if j == 0 then 0 else ActiveSteps(steps, j - 1) + (if steps[j - 1].rate > 0.0 then 1 else 0)
  }

  /** Samples drawn are arrivals plus one discarded overshoot for each step with a positive rate. */
  lemma {:induction false} SamplesAreArrivalsAndOvershoots(steps: seq<ScheduledStep>, draw: Gaps, counts: seq<nat>, j: nat)
    requires j <= |counts| <= |steps|
    ensures Base(steps, counts, j) == |Arrivals(steps, draw, counts, j)| + ActiveSteps(steps, j)
  {
    if j > 0 {
      SamplesAreArrivalsAndOvershoots(steps, draw, counts, j - 1);
      StepArrivalCount(steps, draw, counts, j - 1, counts[j - 1]);
    }
  }

  lemma {:induction false} StepArrivalCount(steps: seq<ScheduledStep>, draw: Gaps, counts: seq<nat>, j: nat, c: nat)
    requires j < |counts| <= |steps|
    ensures |StepArrivals(steps, draw, counts, j, c)| == c
  {
    if c > 0 {
      StepArrivalCount(steps, draw, counts, j, c - 1);
    }
  }

  // ---------------------------------------------------------------- when the schedule ends

  lemma ArrivalCount(steps: seq<ScheduledStep>, draw: Gaps, counts: seq<nat>, j: nat)
    requires j < |counts| <= |steps|
    ensures |Arrivals(steps, draw, counts, j + 1)| == |Arrivals(steps, draw, counts, j)| + counts[j]
  {
    StepArrivalCount(steps, draw, counts, j, counts[j]);
  }

  lemma {:induction false} MoreStepsMoreArrivals(steps: seq<ScheduledStep>, draw: Gaps, counts: seq<nat>, j: nat, n: nat)
    requires j <= n <= |counts| <= |steps|
    ensures |Arrivals(steps, draw, counts, j)| <= |Arrivals(steps, draw, counts, n)|
  {
    if j < n {
      MoreStepsMoreArrivals(steps, draw, counts, j, n - 1);
    }
  }

  /** A run under way never has more arrivals than the whole history that it belongs to. */
  lemma PartialRunIsBelow(steps: seq<ScheduledStep>, draw: Gaps, part: seq<nat>, counts: seq<nat>, n: nat)
    requires Complete(steps, draw, counts, n) && 1 <= |part| <= n && Explains(steps, draw, part, |part| - 1)
    ensures |Arrivals(steps, draw, part, |part|)| <= |Arrivals(steps, draw, counts, n)|
  {
    hide Arrivals, Base, BelowDeadline, Longest;
    var j: nat := |part| - 1;
    ClosedStepsAgree(steps, draw, part, j, counts, n, j);
    SamePrefix(steps, draw, part, counts, j);
    OpenStepIsShorter(steps, draw, part, counts, j);
    ArrivalCount(steps, draw, part, j);
    ArrivalCount(steps, draw, counts, j);
    MoreStepsMoreArrivals(steps, draw, counts, j + 1, n);
  }

  lemma OpenStepIsShorter(steps: seq<ScheduledStep>, draw: Gaps, part: seq<nat>, counts: seq<nat>, j: nat)
    requires j < |part| <= |steps| && j < |counts| <= |steps| && Base(steps, part, j) == Base(steps, counts, j)
    requires BelowDeadline(steps, draw, part, j) && Longest(steps, draw, counts, j)
    ensures part[j] <= counts[j]
  {
    var k := counts[j] + 1;
    assert ArrivalTime(steps, draw, part, j, k) == ArrivalTime(steps, draw, counts, j, k);
  }

  /** Drawn from sample `base` on, some partial sum of gaps takes step `j` to its deadline. */
  ghost predicate StepEnds(steps: seq<ScheduledStep>, draw: Gaps, base: nat, j: nat)
    requires j < |steps|
  {
    steps[j].rate > 0.0 ==>
      exists k: nat :: k > 0 && Start(steps, j) + GapSum(draw, steps[j].rate, base, k) >= steps[j].deadline
  }

  /** Every step ends, from wherever the steps before it leave the samples. */
  ghost predicate StepsEnd(steps: seq<ScheduledStep>, draw: Gaps, n: nat)
    requires n <= |steps|
  {
    forall j: nat, counts :: j < n && Complete(steps, draw, counts, j) ==> StepEnds(steps, draw, Base(steps, counts, j), j)
  }

  /**
   The schedule of the first `n` steps ends exactly when the gaps of each of them add up to its
   deadline. `Next` gives an arrival for ever otherwise, since it answers `None` only with a whole history.
   */
  lemma ScheduleEndsIff(steps: seq<ScheduledStep>, draw: Gaps, n: nat)
    requires n <= |steps|
    ensures (exists counts :: Complete(steps, draw, counts, n)) <==> StepsEnd(steps, draw, n)
  {
    if StepsEnd(steps, draw, n) {
      var counts := HistoryOf(steps, draw, n);
    }
    if counts :| Complete(steps, draw, counts, n) {
      forall j: nat, part | j < n && Complete(steps, draw, part, j) ensures StepEnds(steps, draw, Base(steps, part, j), j) {
        ClosedStepsAgree(steps, draw, part, j, counts, n, j);
        SamePrefix(steps, draw, part, counts, j);
        assert Longest(steps, draw, counts, j);
      }
    }
  }

  lemma {:induction false} HistoryOf(steps: seq<ScheduledStep>, draw: Gaps, n: nat) returns (counts: seq<nat>)
    requires n <= |steps| && StepsEnd(steps, draw, n)
    ensures Complete(steps, draw, counts, n)
  {
    if n == 0 {
      counts := [];
    } else {
      var before := HistoryOf(steps, draw, n - 1);
      assert StepEnds(steps, draw, Base(steps, before, n - 1), n - 1);
      counts := NextStepHistory(steps, draw, before, n - 1);
    }
  }

  lemma NextStepHistory(steps: seq<ScheduledStep>, draw: Gaps, before: seq<nat>, j: nat) returns (counts: seq<nat>)
    requires j < |steps| && Complete(steps, draw, before, j) && StepEnds(steps, draw, Base(steps, before, j), j)
    ensures Complete(steps, draw, counts, j + 1)
  {
    var base, rate := Base(steps, before, j), steps[j].rate;
    var c: nat := 0;
    if rate > 0.0 {
      var k: nat :| k > 0 && Start(steps, j) + GapSum(draw, rate, base, k) >= steps[j].deadline;
      c := FirstReaching(draw, rate, base, Start(steps, j), steps[j].deadline, k - 1);
    }
    counts := before + [c];
    assert counts[..j] == before[..j];
    SamePrefix(steps, draw, before, counts, j);
    ExplainsPrefix(steps, draw, before, counts, j);
  }

  lemma {:induction false} FirstReaching(draw: Gaps, rate: real, base: nat, start: nat, deadline: nat, k: nat) returns (c: nat)
    requires start + GapSum(draw, rate, base, k + 1) >= deadline
    ensures start + GapSum(draw, rate, base, c + 1) >= deadline
    ensures forall i :: 1 <= i <= c ==> start + GapSum(draw, rate, base, i) < deadline
  {
    if k > 0 && start + GapSum(draw, rate, base, k) >= deadline {
      c := FirstReaching(draw, rate, base, start, deadline, k - 1);
    } else {
      c := k;
      forall i | 1 <= i <= c ensures start + GapSum(draw, rate, base, i) < deadline {
        GapSumGrows(draw, rate, base, i, k);
      }
    }
  }

  ghost predicate PositiveFrom(draw: Gaps, rate: real, n: nat) {
    exists m: nat :: m >= n && draw(m, rate) >= 1
  }

  /** At this rate there is always another sample that does not round to zero. */
  ghost predicate KeepsAdvancing(draw: Gaps, rate: real) {
    forall n: nat :: PositiveFrom(draw, rate, n)
  }

  lemma {:induction false} GapSumsReach(draw: Gaps, rate: real, base: nat, target: nat) returns (k: nat)
    requires KeepsAdvancing(draw, rate)
    ensures GapSum(draw, rate, base, k) >= target
  {
    if target == 0 {
      k := 0;
    } else {
      var i := GapSumsReach(draw, rate, base, target - 1);
      assert PositiveFrom(draw, rate, base + i);
      var m: nat :| m >= base + i && draw(m, rate) >= 1;
      k := m - base + 1;
      GapSumGrows(draw, rate, base, i, k - 1);
    }
  }

  /** A schedule ends if at the rate of every active step the samples keep being positive. */
  lemma PositiveSamplesEnd(steps: seq<ScheduledStep>, draw: Gaps, n: nat)
    requires n <= |steps| && forall j :: 0 <= j < n && steps[j].rate > 0.0 ==> KeepsAdvancing(draw, steps[j].rate)
    ensures exists counts :: Complete(steps, draw, counts, n)
  {
    forall j: nat, part | j < n && Complete(steps, draw, part, j) ensures StepEnds(steps, draw, Base(steps, part, j), j) {
      if steps[j].rate > 0.0 {
        var base := Base(steps, part, j);
        var k := GapSumsReach(draw, steps[j].rate, base, steps[j].deadline);
        GapSumGrows(draw, steps[j].rate, base, k, k + 1);
        assert Start(steps, j) + GapSum(draw, steps[j].rate, base, k + 1) >= steps[j].deadline;
      }
    }
    ScheduleEndsIff(steps, draw, n);
  }

  // ---------------------------------------------------------------- steps that never end

  /** The sampler's gaps: less than 37 mean gaps, rounded to the nearest nanosecond. */
  ghost predicate RoundedExponential(draw: Gaps) {
    forall n, rate: real :: rate > 0.0 ==> draw(n, rate) as real <= 37.0 * (SECOND as real / rate) + 0.5
  }

  /** Above this rate, requests per second, every gap of the sampler rounds to zero. */
  const TOO_FAST := 74.0 * SECOND as real

  lemma FastGapsAreZero(draw: Gaps, n: nat, rate: real)
    requires RoundedExponential(draw) && rate > TOO_FAST
    ensures draw(n, rate) == 0
  {
    var share := SECOND as real / rate;
    assert share * rate == SECOND as real;
    assert share * rate > share * TOO_FAST == share * 74.0 * SECOND as real;
    assert share * 74.0 < 1.0;
  }

  lemma {:induction false} ZeroGapsSumToZero(draw: Gaps, rate: real, base: nat, k: nat)
    requires forall n :: draw(n, rate) == 0
    ensures GapSum(draw, rate, base, k) == 0
  {
    if k > 0 {
      ZeroGapsSumToZero(draw, rate, base, k - 1);
    }
  }

  /** With the program's sampler a step of positive length that is too fast has no end: the pacer is stuck in it. */
  lemma FastStepsNeverEnd(steps: seq<ScheduledStep>, draw: Gaps, counts: seq<nat>, n: nat, j: nat)
    requires RoundedExponential(draw) && j < n <= |steps|
    requires steps[j].rate > TOO_FAST && Start(steps, j) < steps[j].deadline
    ensures !Complete(steps, draw, counts, n)
  {
    if Complete(steps, draw, counts, n) {
      assert Longest(steps, draw, counts, j);
      forall m: nat ensures draw(m, steps[j].rate) == 0 {
        FastGapsAreZero(draw, m, steps[j].rate);
      }
      ZeroGapsSumToZero(draw, steps[j].rate, Base(steps, counts, j), counts[j] + 1);
    }
  }

  /** A row of the profile file: the deadline in seconds, and an unsigned 32-bit number of requests. */
  datatype ProfileRow = ProfileRow(deadline: real, count: nat)

  /** What the configuration accepts: some rows, no negative deadline, and each deadline later than the one before. */
  ghost predicate Accepted(rows: seq<ProfileRow>) {
    && rows != []
    && (forall j :: 0 <= j < |rows| ==> rows[j].deadline >= 0.0 && rows[j].count < 0x1_0000_0000)
    && forall j :: 0 < j < |rows| ==> rows[j - 1].deadline < rows[j].deadline
  }

  /** Deadlines are rounded to the nearest nanosecond. */
  ghost predicate RoundedTo(row: ProfileRow, step: LoadStep) {
    && row.count == step.count
    && row.deadline * SECOND as real - 0.5 <= step.deadline as real <= row.deadline * SECOND as real + 0.5
  }

  ghost predicate Loads(rows: seq<ProfileRow>, profile: seq<LoadStep>) {
    |rows| == |profile| && forall j :: 0 <= j < |rows| ==> RoundedTo(rows[j], profile[j])
  }

  /** Whichever row asks for too much in a time that is not zero, the pacer never gets past it. */
  lemma {:induction false} FastRowsNeverEnd(profile: seq<LoadStep>, steps: seq<ScheduledStep>, draw: Gaps, counts: seq<nat>, n: nat, j: nat)
    requires RoundedExponential(draw) && Paces(steps, profile) && j < n <= |profile|
    requires var earlier := LatestDeadline(profile, j);
             earlier < profile[j].deadline && Rate(profile[j].count, profile[j].deadline - earlier) > TOO_FAST
    ensures !Complete(steps, draw, counts, n)
  {
    hide Rate, Complete, RoundedExponential, Start, Indexed, Max;
    StartIsLatestDeadline(profile, steps, j);
    FastStepsNeverEnd(steps, draw, counts, n, j);
  }

  const ENDLESS := [ProfileRow(1.0 / 1_000_000_000.0, 4_294_967_295)]

  /** The profile row `1e-9,4294967295` is accepted, and its schedule does not end. */
  lemma AcceptedProfileCanRunForever(profile: seq<LoadStep>, steps: seq<ScheduledStep>, draw: Gaps, counts: seq<nat>)
    requires Loads(ENDLESS, profile) && Paces(steps, profile) && RoundedExponential(draw)
    ensures Accepted(ENDLESS) && profile == [LoadStep(1, 4_294_967_295)]
    ensures !Complete(steps, draw, counts, |steps|)
  {
    assert RoundedTo(ENDLESS[0], profile[0]) && ENDLESS[0].deadline * SECOND as real == 1.0;
    assert profile[0] == LoadStep(1, 4_294_967_295);
    assert Rate(4_294_967_295, 1) == 4_294_967_295.0 / (1.0 / 1_000_000_000.0);
    assert Rate(4_294_967_295, 1) > TOO_FAST;
    FastRowsNeverEnd(profile, steps, draw, counts, 1, 0);
  }
}
