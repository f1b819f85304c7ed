/** Sleeping by halves (src/load/time/wait_until.rs). Times are nanoseconds. */
module WaitUntil {
  import opened Arithmetic

  const SPIN_THRESHOLD := 1_000_000

  function Power2(n: nat): nat {
    if n == 0 then 1 else 2 * Power2(n - 1)
  }

  /**
   The clock and the scheduler, as they please: `tick(n)` passes before the n-th reading, and
   `overshoot(n, d)` is how much longer than `d` the n-th sleep takes. `readings` and `wakes` record
   what every reading showed and when every sleep ended.
   */
  class Clock {
    const tick: nat -> nat
    const overshoot: (nat, nat) -> nat
    var now: nat
    var readings: seq<nat>
    var wakes: seq<nat>

    constructor (tick: nat -> nat, overshoot: (nat, nat) -> nat, now: nat)
      ensures this.tick == tick && this.overshoot == overshoot && this.now == now && readings == [] && wakes == []
    {
      this.tick, this.overshoot, this.now, readings, wakes := tick, overshoot, now, [], [];
    }

    method Now() returns (t: nat)
      modifies this
      ensures t == now == old(now) + tick(|old(readings)|) && readings == old(readings) + [t] && wakes == old(wakes)
    {
      now := now + tick(|readings|);
      readings := readings + [now];
      t := now;
    }

    method Sleep(d: nat)
      modifies this
      ensures now == old(now) + d + overshoot(|old(wakes)|, d) && wakes == old(wakes) + [now] && readings == old(readings)
    {
      now := now + d + overshoot(|wakes|, d);
      wakes := wakes + [now];
    }
  }

  /** However often the clock was read, some later reading finds that time has passed. */
  ghost predicate KeepsAdvancing(tick: nat -> nat, later: nat -> nat) {
    forall n: nat :: n <= later(n) && tick(later(n)) > 0
  }

  /** No sleep takes more than twice as long as it should. */
  ghost predicate OvershootsAtMostTwice(overshoot: (nat, nat) -> nat) {
    forall n: nat, d: nat :: overshoot(n, d) <= d
  }

  /** `remaining` is what `n` sleeps of half the rest can have left of `left`. */
  ghost predicate Halved(left: nat, remaining: int, n: nat) {
    remaining > 0 ==> (remaining - 1) * Power2(n) <= left - 1
  }

  /** What is left after one more sleep of half of it. */
  lemma HalvedOnceMore(left: nat, remaining: nat, remaining': int, n: nat)
    requires remaining > 0 && Halved(left, remaining, n) && remaining' <= remaining - remaining / 2
    ensures Halved(left, remaining', n + 1)
  {
    if remaining' > 0 {
      MultiplyBoth(2 * (remaining' - 1), remaining - 1, Power2(n));
      assert (remaining' - 1) * Power2(n + 1) == 2 * (remaining' - 1) * Power2(n);
    }
  }

  /** The number of sleeps is logarithmic in the time that was left, and there are none for a short wait. */
  ghost predicate FewSleeps(left: nat, n: nat) {
    n > 0 ==> SPIN_THRESHOLD < left && SPIN_THRESHOLD * Power2(n - 1) < left
  }

  lemma MuchLeftMeansFewSleeps(left: nat, remaining: nat, n: nat)
    requires Halved(left, remaining, n) && remaining > SPIN_THRESHOLD
    ensures FewSleeps(left, n + 1)
  {
    MultiplyBoth(SPIN_THRESHOLD, remaining - 1, Power2(n));
    Power2IsPositive(n);
  }

  lemma {:induction false} Power2IsPositive(n: nat)
    ensures Power2(n) >= 1
  {
    if n > 0 {
      Power2IsPositive(n - 1);
    }
  }

  /** Reads the clock until the deadline and no longer; ends because time keeps passing. */
  method Spin(clock: Clock, deadline: nat, ghost later: nat -> nat)
    requires KeepsAdvancing(clock.tick, later)
    modifies clock
    ensures clock.now >= deadline && clock.now >= old(clock.now) && clock.wakes == old(clock.wakes)
    ensures old(clock.readings) < clock.readings
    ensures forall i :: |old(clock.readings)| <= i < |clock.readings| - 1 ==> clock.readings[i] < deadline
  {
    var t := clock.Now();
    ghost var until: nat := later(|clock.readings|);
    while t < deadline
      invariant t == clock.now >= old(clock.now) && clock.wakes == old(clock.wakes)
      invariant old(clock.readings) < clock.readings && clock.readings[|clock.readings| - 1] == t
      invariant forall i :: |old(clock.readings)| <= i < |clock.readings| - 1 ==> clock.readings[i] < deadline
      invariant |clock.readings| <= until && clock.tick(until) > 0
      decreases deadline - t, until - |clock.readings|
    {
      t := clock.Now();
      if |clock.readings| > until {
        until := later(|clock.readings|);
      }
    }
  }

  /** From the given place on, no time is after the deadline. */
  ghost predicate NoneAfter(deadline: nat, times: seq<nat>, from: nat) {
    forall i :: from <= i < |times| ==> times[i] <= deadline
  }

  lemma OneMoreInTime(deadline: nat, times: seq<nat>, from: nat, time: nat)
    requires NoneAfter(deadline, times, from) && time <= deadline
    ensures NoneAfter(deadline, times + [time], from)
  {
  }

  /** What is left until the deadline. */
  ghost function Left(now: nat, deadline: nat): nat {
    if now < deadline then deadline - now else 0
  }

  /**
   Never returns before the deadline, and returns at once when a reading shows that it has passed. Sleeps only while more than the threshold is left, so the
   number of sleeps is logarithmic in the time that was left at the first reading; and if no sleep
   takes more than twice as long as it should, none ends after the deadline.
   */
  method WaitUntil(clock: Clock, deadline: nat, ghost later: nat -> nat)
    requires KeepsAdvancing(clock.tick, later)
    modifies clock
    ensures clock.now >= deadline
    ensures old(clock.readings) < clock.readings && old(clock.wakes) <= clock.wakes
    ensures forall i :: |old(clock.readings)| <= i < |clock.readings| - 1 ==> clock.readings[i] <= deadline
    ensures var left, n := Left(clock.readings[|old(clock.readings)|], deadline), |clock.wakes| - |old(clock.wakes)|;
            FewSleeps(left, n) && (n == 0 ==> left <= SPIN_THRESHOLD)
    ensures OvershootsAtMostTwice(clock.overshoot) ==> NoneAfter(deadline, clock.wakes, |old(clock.wakes)|)
  {
    var t := clock.Now();
    ghost var read, slept := |old(clock.readings)|, |old(clock.wakes)|;
    ghost var first, left := t, Left(t, deadline);
    ghost var n: nat := 0;
    assert Halved(left, deadline - t, n) && FewSleeps(left, n) && NoneAfter(deadline, clock.wakes, slept);
    hide Power2, Halved, FewSleeps, NoneAfter;
    while true
      invariant t == clock.now && n == |clock.wakes| - slept
      invariant old(clock.readings) < clock.readings && old(clock.wakes) <= clock.wakes
      invariant clock.readings[|clock.readings| - 1] == t
      invariant forall i :: read <= i < |clock.readings| - 1 ==> clock.readings[i] <= deadline
      invariant clock.readings[read] == first && (n == 0 ==> t == first)
      invariant FewSleeps(left, n)
      invariant Halved(left, deadline - t, n)
      invariant OvershootsAtMostTwice(clock.overshoot) ==> NoneAfter(deadline, clock.wakes, slept)
      decreases deadline - t
    {
      if t > deadline {
        return;
      }
      var remaining := deadline - t;
      if remaining <= SPIN_THRESHOLD {
        Spin(clock, deadline, later);
        return;
      }
      MuchLeftMeansFewSleeps(left, remaining, n);
      ghost var wakes := clock.wakes;
      clock.Sleep(remaining / 2);
      n := n + 1;
      if OvershootsAtMostTwice(clock.overshoot) {
        OneMoreInTime(deadline, wakes, slept, clock.now);
      }
      t := clock.Now();
      HalvedOnceMore(left, remaining, deadline - t, n - 1);
    }
  }
}
