/** What generators measure and report (src/tracker.rs, src/transaction/result.rs, src/wire/report.rs). */
module Reports {
  import opened Wrappers

  datatype DroppedCode = NoVirtualUser | Late | ScriptError

  /** How a transaction ended. `detail` stands for the metadata and error texts carried along. */
  datatype TransactionResult =
    | Success(detail: nat, serviceMs: nat)
    | Failed(detail: nat, serviceMs: nat)
    | Timeout(detail: nat, serviceMs: nat)
    | Dropped(detail: nat, code: DroppedCode)

  datatype Class = Succeeded | Erred | TimedOut | WasDropped

  function ClassOf(r: TransactionResult): Class {
    match r
    case Success(_, _) => Succeeded
    case Failed(_, _) => Erred
    case Timeout(_, _) => TimedOut
    case Dropped(_, _) => WasDropped
  }

  datatype Counts = Counts(success: nat, failed: nat, timeout: nat, dropped: nat) {
    function Of(c: Class): nat {
      match c
      case Succeeded => success
      case Erred => failed
      case TimedOut => timeout
      case WasDropped => dropped
    }

    function Bump(c: Class): Counts {
      match c
      case Succeeded => this.(success := success + 1)
      case Erred => this.(failed := failed + 1)
      case TimedOut => this.(timeout := timeout + 1)
      case WasDropped => this.(dropped := dropped + 1)
    }

    function Sum(): nat {
      success + failed + timeout + dropped
    }
  }

  const NoCounts := Counts(0, 0, 0, 0)

  datatype IntervalStatistics = IntervalStatistics(
    counts: Counts, serviceSum: nat, serviceCount: nat, results: seq<TransactionResult>)

  const NoStatistics := IntervalStatistics(NoCounts, 0, 0, [])

  function Add(a: IntervalStatistics, b: IntervalStatistics): IntervalStatistics {
    IntervalStatistics(
      Counts(a.counts.success + b.counts.success, a.counts.failed + b.counts.failed,
             a.counts.timeout + b.counts.timeout, a.counts.dropped + b.counts.dropped),
      a.serviceSum + b.serviceSum, a.serviceCount + b.serviceCount, a.results + b.results)
  }

  /** The fold of `Add` from the empty statistics, left to right. */
  function Sum(stats: seq<IntervalStatistics>): IntervalStatistics {
    if stats == [] then NoStatistics else Add(Sum(stats[..|stats| - 1]), stats[|stats| - 1])
  }

  datatype IntervalReport = IntervalReport(
    targetTime: nat, loadLevel: nat, stats: IntervalStatistics, finalBatchTime: Option<nat>)

  datatype GeneratorUpdate = Interval(report: IntervalReport) | Finished

  // ---------------------------------------------------------------- reading statistics

  /** The scalar fields of the statistics. */
  datatype Field = ClassCount(c: Class) | ServiceSum | ServiceCount

  function Read(s: IntervalStatistics, f: Field): nat {
    match f
    case ClassCount(c) => s.counts.Of(c)
    case ServiceSum => s.serviceSum
    case ServiceCount => s.serviceCount
  }

  lemma ReadAdd(a: IntervalStatistics, b: IntervalStatistics, f: Field)
    ensures Read(Add(a, b), f) == Read(a, f) + Read(b, f)
  {
  }

  lemma AddIsAssociative(a: IntervalStatistics, b: IntervalStatistics, c: IntervalStatistics)
    ensures Add(Add(a, b), c) == Add(a, Add(b, c))
    ensures Add(NoStatistics, a) == a == Add(a, NoStatistics)
  {
    assert a.results + b.results + c.results == a.results + (b.results + c.results);
    assert [] + a.results == a.results == a.results + [];
  }

  /** Merging is independent of how the reports are grouped. */
  lemma {:induction false} StatsSumOfConcat(xs: seq<IntervalStatistics>, ys: seq<IntervalStatistics>)
    ensures Sum(xs + ys) == Add(Sum(xs), Sum(ys))
  {
    if ys == [] {
      assert xs + ys == xs;
      AddIsAssociative(Sum(xs), NoStatistics, NoStatistics);
    } else {
      var init, last := ys[..|ys| - 1], ys[|ys| - 1];
      assert (xs + ys)[..|xs + ys| - 1] == xs + init;
      StatsSumOfConcat(xs, init);
      AddIsAssociative(Sum(xs), Sum(init), last);
    }
  }

  /** The results of all statistics, one after the other. */
  function Results(stats: seq<IntervalStatistics>): seq<TransactionResult> {
    if stats == [] then [] else Results(stats[..|stats| - 1]) + stats[|stats| - 1].results
  }

  /** Merging keeps the order of results: those of an earlier report come first. */
  lemma {:induction false} SumKeepsOrder(stats: seq<IntervalStatistics>)
    ensures Sum(stats).results == Results(stats)
  {
    if stats != [] {
      SumKeepsOrder(stats[..|stats| - 1]);
    }
  }

  /** Everything that can be measured of statistics: a field, or how often a result is among the results. */
  datatype Measure = Scalar(f: Field) | Times(r: TransactionResult)

  function Amount(s: IntervalStatistics, m: Measure): nat {
    match m
    case Scalar(f) => Read(s, f)
    case Times(r) => multiset(s.results)[r]
  }

  lemma AmountAdd(a: IntervalStatistics, b: IntervalStatistics, m: Measure)
    ensures Amount(Add(a, b), m) == Amount(a, m) + Amount(b, m)
    ensures Amount(NoStatistics, m) == 0
  {
    assert multiset(a.results + b.results) == multiset(a.results) + multiset(b.results);
  }
}
