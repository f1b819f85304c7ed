/** Splitting the load over the generators (src/orchestrator/distribute.rs). */
module Distribute {
  import opened Schedule
  import opened Vectors

  /** The first generators take one more each, until the remainder is used up. */
  function DistributeCount(total: nat, divisor: nat): seq<nat>
    requires divisor > 0
  {
    seq(divisor, i requires 0 <= i < divisor => Portion(total, divisor, i))
  }

  function Portion(total: nat, divisor: nat, i: nat): nat
    requires divisor > 0
  {
    if i < total % divisor then total / divisor + 1 else total / divisor
  }

  function Identity(n: nat): nat {
    n
  }

  lemma {:induction false} FirstPortionsSum(total: nat, divisor: nat, k: nat)
    requires 0 < divisor && k <= divisor
    ensures SumOf(Identity, DistributeCount(total, divisor)[..k]) == Times(k, total / divisor) + Min(k, total % divisor)
  {
    if k > 0 {
      FirstPortionsSum(total, divisor, k - 1);
      assert DistributeCount(total, divisor)[..k][..k - 1] == DistributeCount(total, divisor)[..k - 1];
    }
  }

  /** `k * n`, by repeated addition. */
  ghost function Times(k: nat, n: nat): nat {
    if k == 0 then 0 else Times(k - 1, n) + n
  }

  lemma {:induction false} TimesIsProduct(k: nat, n: nat)
    ensures Times(k, n) == k * n
  {
    if k > 0 {
      TimesIsProduct(k - 1, n);
    }
  }

  /** The portions add up to the whole, and no two differ by more than one. */
  lemma PortionsAreFair(total: nat, divisor: nat)
    requires divisor > 0
    ensures |DistributeCount(total, divisor)| == divisor
    ensures SumOf(Identity, DistributeCount(total, divisor)) == total
    ensures forall i, j :: 0 <= i < j < divisor ==>
              DistributeCount(total, divisor)[j] <= DistributeCount(total, divisor)[i] <= DistributeCount(total, divisor)[j] + 1
  {
    FirstPortionsSum(total, divisor, divisor);
    TimesIsProduct(divisor, total / divisor);
    assert DistributeCount(total, divisor)[..divisor] == DistributeCount(total, divisor);
    assert total == divisor * (total / divisor) + total % divisor;
  }

  /** The profile of generator `g` of `n`. */
  function Share(profile: seq<LoadStep>, n: nat, g: nat): seq<LoadStep>
    requires g < n
  {
    seq(|profile|, j requires 0 <= j < |profile| => LoadStep(profile[j].deadline, Portion(profile[j].count, n, g)))
  }

  method DistributeProfile(profile: seq<LoadStep>, n: nat) returns (profiles: seq<seq<LoadStep>>)
    requires n > 0
    ensures profiles == seq(n, g requires 0 <= g < n => Share(profile, n, g))
  {
    profiles := seq(n, g => []);
    for j := 0 to |profile|
      invariant |profiles| == n && forall g :: 0 <= g < n ==> profiles[g] == Share(profile, n, g)[..j]
    {
      var counts := DistributeCount(profile[j].count, n);
      for g := 0 to n
        invariant |profiles| == n
        invariant forall h :: 0 <= h < g ==> profiles[h] == Share(profile, n, h)[..j + 1]
        invariant forall h :: g <= h < n ==> profiles[h] == Share(profile, n, h)[..j]
      {
        profiles := profiles[g := profiles[g] + [LoadStep(profile[j].deadline, counts[g])]];
      }
    }
    assert forall g :: 0 <= g < n ==> Share(profile, n, g)[..|profile|] == Share(profile, n, g);
  }

  // ---------------------------------------------------------------- the load stays the same

  /** Deadlines are kept, so each share is paced over the same time as the whole profile. */
  lemma {:induction false} SharesKeepDeadlines(profile: seq<LoadStep>, n: nat, g: nat, j: nat)
    requires g < n && j <= |profile|
    ensures LatestDeadline(Share(profile, n, g), j) == LatestDeadline(profile, j)
  {
    if j > 0 {
      SharesKeepDeadlines(profile, n, g, j - 1);
    }
  }

  /** The rate at which the first `k` generators together run step `j`. */
  ghost function CombinedRate(profile: seq<LoadStep>, n: nat, j: nat, k: nat): real
    requires k <= n && j < |profile|
  {
    if k == 0 then 0.0
    else
      var share := Share(profile, n, k - 1);
      CombinedRate(profile, n, j, k - 1)
      + Rate(share[j].count, SaturatingSub(share[j].deadline, LatestDeadline(share, j)))
  }

  lemma RateIsAdditive(a: nat, b: nat, duration: nat)
    ensures Rate(a + b, duration) == Rate(a, duration) + Rate(b, duration)
  {
    if duration > 0 {
      var seconds := duration as real / SECOND as real;
      assert (a as real + b as real) / seconds == a as real / seconds + b as real / seconds;
    }
  }

  lemma {:induction false} CombinedRateOfFirst(profile: seq<LoadStep>, n: nat, j: nat, k: nat)
    requires 0 < n && k <= n && j < |profile|
    ensures var duration := SaturatingSub(profile[j].deadline, LatestDeadline(profile, j));
            CombinedRate(profile, n, j, k) == Rate(SumOf(Identity, DistributeCount(profile[j].count, n)[..k]), duration)
  {
    hide Rate, Portion;
    var counts := DistributeCount(profile[j].count, n);
    var duration := SaturatingSub(profile[j].deadline, LatestDeadline(profile, j));
    if k > 0 {
      CombinedRateOfFirst(profile, n, j, k - 1);
      SharesKeepDeadlines(profile, n, k - 1, j);
      assert counts[..k][..k - 1] == counts[..k - 1];
      RateIsAdditive(SumOf(Identity, counts[..k - 1]), counts[k - 1], duration);
    } else {
      RateIsAdditive(0, 0, duration);
    }
  }

  /** Together the generators run every step at the rate of the undivided profile. */
  lemma CombinedRateIsWholeRate(profile: seq<LoadStep>, n: nat, j: nat)
    requires 0 < n && j < |profile|
    ensures CombinedRate(profile, n, j, n)
         == Rate(profile[j].count, SaturatingSub(profile[j].deadline, LatestDeadline(profile, j)))
  {
    CombinedRateOfFirst(profile, n, j, n);
    PortionsAreFair(profile[j].count, n);
    assert DistributeCount(profile[j].count, n)[..n] == DistributeCount(profile[j].count, n);
  }
}
