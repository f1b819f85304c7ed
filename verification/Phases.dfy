/**
 Labelling merged reports by counting them, for the writer and for the drop summary
 (src/orchestrator/persist/mod.rs, src/orchestrator/summary.rs).
 */
module Phases {
  import opened Wrappers
  import opened Reports

  datatype Phase = Warmup | Pause | Load

  /** The label of the k-th report. */
  function LabelAt(warmupDuration: nat, warmupPause: nat, k: nat): Phase {
    if k < warmupDuration then Warmup else if k < warmupDuration + warmupPause then Pause else Load
  }

  class PhaseClassifier {
    const warmupDuration: nat
    const warmupPause: nat
    var count: nat

    constructor (warmupDuration: nat, warmupPause: nat)
      ensures this.warmupDuration == warmupDuration && this.warmupPause == warmupPause && count == 0
    {
      this.warmupDuration, this.warmupPause, count := warmupDuration, warmupPause, 0;
    }

    method Classify() returns (phase: Phase)
      modifies this
      ensures phase == LabelAt(warmupDuration, warmupPause, old(count)) && count == old(count) + 1
    {
      if count < warmupDuration {
        phase := Warmup;
      } else if count < warmupDuration + warmupPause {
        phase := Pause;
      } else {
        phase := Load;
      }
      count := count + 1;
    }
  }

  function Repeat<T>(x: T, n: nat): seq<T> {
    seq(n, i => x)
  }

  /** The labels of the first `n` reports. */
  function Labels(warmupDuration: nat, warmupPause: nat, n: nat): seq<Phase> {
    seq(n, k requires 0 <= k < n => LabelAt(warmupDuration, warmupPause, k))
  }

  /** As many warm-up labels as the warm-up lasts, then as many pause labels as the pause lasts, then load for good. */
  lemma LabelsRunThroughPhases(warmupDuration: nat, warmupPause: nat, more: nat)
    ensures Labels(warmupDuration, warmupPause, warmupDuration + warmupPause + more)
         == Repeat(Warmup, warmupDuration) + Repeat(Pause, warmupPause) + Repeat(Load, more)
  {
  }

  // ---------------------------------------------------------------- the writer

  /** A persister that takes `room` more reports and flushes `flushes` more times before it fails; `written` is what it got. */
  datatype Persister = Persister(room: nat, flushes: nat, written: seq<(IntervalReport, Phase)>)

  /** The persister, and the number of reports that all had got when it failed. */
  datatype WriteFailure = NotTaken(persister: nat, round: nat) | NotFlushed(persister: nat, round: nat)

  function Labelled(warmupDuration: nat, warmupPause: nat, reports: seq<IntervalReport>): seq<(IntervalReport, Phase)> {
    seq(|reports|, k requires 0 <= k < |reports| => (reports[k], LabelAt(warmupDuration, warmupPause, k)))
  }

  /** `written` is the first `n` labelled reports. */
  ghost predicate WroteFirst(p: Persister, warmupDuration: nat, warmupPause: nat, reports: seq<IntervalReport>, n: nat) {
    n <= |reports| && p.written == Labelled(warmupDuration, warmupPause, reports)[..n]
  }

  /** All persisters have taken `taken` reports and flushed `flushed` times. */
  ghost predicate AllAt(after: seq<Persister>, before: seq<Persister>, w: nat, p: nat, reports: seq<IntervalReport>,
                        taken: nat, flushed: nat) {
    |after| == |before| && forall j :: 0 <= j < |after| ==>
      && WroteFirst(after[j], w, p, reports, taken)
      && after[j].room == before[j].room - taken && after[j].flushes == before[j].flushes - flushed
  }

  /** Hands one report to every persister in turn, until one does not take it. */
  method PersistAll(report: IntervalReport, phase: Phase, persisters: seq<Persister>, ghost before: seq<Persister>,
                    ghost w: nat, ghost p: nat, ghost reports: seq<IntervalReport>, k: nat)
    returns (after: seq<Persister>, failed: Option<nat>)
    requires k < |reports| && reports[k] == report && phase == LabelAt(w, p, k)
    requires AllAt(persisters, before, w, p, reports, k, k)
    ensures failed == None ==> AllAt(after, before, w, p, reports, k + 1, k)
    ensures failed.Some? ==>
              && |after| == |before| && failed.value < |before| && before[failed.value].room == k
              && forall j :: 0 <= j < |after| ==> WroteFirst(after[j], w, p, reports, k + if j < failed.value then 1 else 0)
  {
    after := persisters;
    ghost var labelled := Labelled(w, p, reports);
    assert labelled[k] == (report, phase) && labelled[..k + 1] == labelled[..k] + [labelled[k]];
    for j := 0 to |after|
      invariant |after| == |before|
      invariant forall i :: 0 <= i < j ==>
                  && WroteFirst(after[i], w, p, reports, k + 1)
                  && after[i].room == before[i].room - k - 1 && after[i].flushes == before[i].flushes - k
      invariant forall i :: j <= i < |after| ==>
                  && WroteFirst(after[i], w, p, reports, k)
                  && after[i].room == before[i].room - k && after[i].flushes == before[i].flushes - k
    {
      if after[j].room == 0 {
        return after, Some(j);
      }
      after := after[j := after[j].(room := after[j].room - 1, written := after[j].written + [(report, phase)])];
    }
    failed := None;
  }

  /** Flushes every persister in turn, until one fails. */
  method FlushAll(persisters: seq<Persister>, ghost before: seq<Persister>, ghost w: nat, ghost p: nat,
                  ghost reports: seq<IntervalReport>, ghost taken: nat, ghost flushed: nat)
    returns (after: seq<Persister>, failed: Option<nat>)
    requires AllAt(persisters, before, w, p, reports, taken, flushed)
    ensures failed == None ==> AllAt(after, before, w, p, reports, taken, flushed + 1)
    ensures failed.Some? ==>
              && |after| == |before| && failed.value < |before| && before[failed.value].flushes == flushed
              && forall j :: 0 <= j < |after| ==> WroteFirst(after[j], w, p, reports, taken)
  {
    hide Labelled;
    after := persisters;
    for j := 0 to |after|
      invariant |after| == |before|
      invariant forall i :: 0 <= i < |after| ==>
                  && WroteFirst(after[i], w, p, reports, taken) && after[i].room == before[i].room - taken
                  && after[i].flushes == before[i].flushes - flushed - (if i < j then 1 else 0)
    {
      if after[j].flushes == 0 {
        return after, Some(j);
      }
      after := after[j := after[j].(flushes := after[j].flushes - 1)];
    }
    failed := None;
  }

  /**
   Every persister sees the same reports with the same labels, in order. Writing fails exactly if some
   persister cannot take every report or cannot flush after each and once more at the end; then each has
   a prefix, and when it was a report that was not taken the persisters before that one are ahead by it.
   */
  method WriterLoop(reports: seq<IntervalReport>, classifier: PhaseClassifier, persisters: seq<Persister>)
    returns (after: seq<Persister>, failed: Option<WriteFailure>)
    requires classifier.count == 0 && forall p :: p in persisters ==> p.written == []
    modifies classifier
    ensures |after| == |persisters|
    ensures failed == None <==> forall p :: p in persisters ==> p.room >= |reports| && p.flushes > |reports|
    ensures failed == None ==>
              forall j :: 0 <= j < |after| ==>
                WroteFirst(after[j], classifier.warmupDuration, classifier.warmupPause, reports, |reports|)
    ensures failed.Some? && failed.value.NotTaken? ==>
              var f, k := failed.value.persister, failed.value.round;
              && f < |persisters| && persisters[f].room == k < |reports|
              && forall j :: 0 <= j < |after| ==>
                   WroteFirst(after[j], classifier.warmupDuration, classifier.warmupPause, reports, k + if j < f then 1 else 0)
    ensures failed.Some? && failed.value.NotFlushed? ==>
              var f, k := failed.value.persister, failed.value.round;
              && f < |persisters| && k <= |reports| && (persisters[f].flushes + 1 == k || persisters[f].flushes == k == |reports|)
              && forall j :: 0 <= j < |after| ==>
                   WroteFirst(after[j], classifier.warmupDuration, classifier.warmupPause, reports, k)
  {
    hide WroteFirst;
    ghost var w, p := classifier.warmupDuration, classifier.warmupPause;
    after := persisters;
    AllAtStart(persisters, w, p, reports);
    for k := 0 to |reports|
      invariant classifier.count == k && AllAt(after, persisters, w, p, reports, k, k)
    {
      var phase := classifier.Classify();
      var bad;
      after, bad := PersistAll(reports[k], phase, after, persisters, w, p, reports, k);
      if bad.Some? {
        assert persisters[bad.value] in persisters;
        return after, Some(NotTaken(bad.value, k));
      }
      after, bad := FlushAll(after, persisters, w, p, reports, k + 1, k);
      if bad.Some? {
        assert persisters[bad.value] in persisters;
        return after, Some(NotFlushed(bad.value, k + 1));
      }
    }
    var bad;
    after, bad := FlushAll(after, persisters, w, p, reports, |reports|, |reports|);
    if bad.Some? {
      assert persisters[bad.value] in persisters;
      return after, Some(NotFlushed(bad.value, |reports|));
    }
    failed := None;
    forall q | q in persisters ensures q.room >= |reports| && q.flushes > |reports| {
      var j :| 0 <= j < |persisters| && persisters[j] == q;
      assert after[j].room == q.room - |reports|;
    }
  }

  lemma AllAtStart(persisters: seq<Persister>, w: nat, p: nat, reports: seq<IntervalReport>)
    requires forall q :: q in persisters ==> q.written == []
    ensures AllAt(persisters, persisters, w, p, reports, 0, 0)
  {
  }

  // ---------------------------------------------------------------- the drop summary

  datatype PhaseDrops = PhaseDrops(transactions: nat, noVirtualUser: nat, late: nat, error: nat) {
    function Total(): nat {
      noVirtualUser + late + error
    }

    function Record(code: DroppedCode): PhaseDrops {
      match code
      case NoVirtualUser => this.(noVirtualUser := noVirtualUser + 1)
      case Late => this.(late := late + 1)
      case ScriptError => this.(error := error + 1)
    }
  }

  datatype DropReport = DropReport(load: PhaseDrops, warmup: PhaseDrops)

  /** The number of results that were dropped for this reason. */
  function Drops(code: DroppedCode, results: seq<TransactionResult>): nat {
    if results == [] then 0
    else
      var last := results[|results| - 1];
      Drops(code, results[..|results| - 1]) + (if last.Dropped? && last.code == code then 1 else 0)
  }

  /** What a phase with these results is summed up to. */
  function Tally(results: seq<TransactionResult>): PhaseDrops {
    PhaseDrops(|results|, Drops(NoVirtualUser, results), Drops(Late, results), Drops(ScriptError, results))
  }

  /** All results of the reports whose label is `Load`, or of the others. */
  ghost function ResultsIn(warmupDuration: nat, warmupPause: nat, reports: seq<IntervalReport>, load: bool)
    : seq<TransactionResult>
  {
    if reports == [] then []
    else
      var k: nat, earlier := |reports| - 1, ResultsIn(warmupDuration, warmupPause, reports[..|reports| - 1], load);
      if load <==> LabelAt(warmupDuration, warmupPause, k) == Load then earlier + reports[k].stats.results else earlier
  }

  /** All results of the labelled reports whose label is, or is not, `Load`. */
  ghost function ResultsLabelled(labelled: seq<(IntervalReport, Phase)>, load: bool): seq<TransactionResult> {
    if labelled == [] then []
    else
      var last, earlier := labelled[|labelled| - 1], ResultsLabelled(labelled[..|labelled| - 1], load);
      if load <==> last.1 == Load then earlier + last.0.stats.results else earlier
  }

  /** The summary puts every result under the label with which the writer writes it. */
  lemma {:induction false} SummaryAgreesWithWriter(warmupDuration: nat, warmupPause: nat, reports: seq<IntervalReport>, load: bool)
    ensures ResultsLabelled(Labelled(warmupDuration, warmupPause, reports), load)
         == ResultsIn(warmupDuration, warmupPause, reports, load)
  {
    if reports != [] {
      var init := reports[..|reports| - 1];
      SummaryAgreesWithWriter(warmupDuration, warmupPause, init, load);
      var all := Labelled(warmupDuration, warmupPause, reports);
      assert all[..|all| - 1] == Labelled(warmupDuration, warmupPause, init);
    }
  }

  predicate HasDrop(results: seq<TransactionResult>) {
    exists r :: r in results && r.Dropped?
  }

  lemma DropsLast(code: DroppedCode, results: seq<TransactionResult>, r: TransactionResult)
    ensures Drops(code, results + [r]) == Drops(code, results) + (if r.Dropped? && r.code == code then 1 else 0)
  {
    assert (results + [r])[..|results|] == results;
  }

  lemma TallyLast(results: seq<TransactionResult>, r: TransactionResult)
    ensures Tally(results + [r])
         == (if r.Dropped? then Tally(results).Record(r.code) else Tally(results)).(transactions := |results| + 1)
  {
    hide Drops;
    forall code ensures Drops(code, results + [r]) == Drops(code, results) + (if r.Dropped? && r.code == code then 1 else 0) {
      DropsLast(code, results, r);
    }
  }

  lemma HasDropConcat(xs: seq<TransactionResult>, ys: seq<TransactionResult>)
    ensures HasDrop(xs + ys) <==> HasDrop(xs) || HasDrop(ys)
  {
  }

  lemma NoDropInOne(r: TransactionResult)
    ensures HasDrop([r]) <==> r.Dropped?
  {
    assert r in [r];
  }

  /** The places at which a transaction was dropped for this reason. */
  ghost function DroppedAt(code: DroppedCode, results: seq<TransactionResult>): set<nat> {
    set i: nat | i < |results| && results[i].Dropped? && results[i].code == code
  }

  /** Each counter of a tally is the number of transactions that were dropped for the reason it is named after. */
  lemma TallyCountsReasons(results: seq<TransactionResult>)
    ensures Tally(results).noVirtualUser == |DroppedAt(NoVirtualUser, results)|
    ensures Tally(results).late == |DroppedAt(Late, results)|
    ensures Tally(results).error == |DroppedAt(ScriptError, results)|
    ensures Tally(results).transactions == |results|
  {
    hide Drops;
    DropsAreDroppedAt(NoVirtualUser, results);
    DropsAreDroppedAt(Late, results);
    DropsAreDroppedAt(ScriptError, results);
  }

  lemma {:induction false} DropsAreDroppedAt(code: DroppedCode, results: seq<TransactionResult>)
    ensures Drops(code, results) == |DroppedAt(code, results)|
  {
    if results != [] {
      var k: nat, init := |results| - 1, results[..|results| - 1];
      DropsAreDroppedAt(code, init);
      assert DroppedAt(code, results) == DroppedAt(code, init) + (if results[k].Dropped? && results[k].code == code then {k} else {});
    }
  }

  /** A phase has no drop in total exactly when none of its results is one. */
  lemma {:induction false} TallyDecides(results: seq<TransactionResult>)
    ensures Tally(results).Total() == 0 <==> !HasDrop(results)
  {
    if results != [] {
      var init, last := results[..|results| - 1], results[|results| - 1];
      TallyDecides(init);
      HasDropConcat(init, [last]);
      NoDropInOne(last);
      assert init + [last] == results;
      hide HasDrop;
      TallyLast(init, last);
      hide Tally;
    }
  }

  /** No report with the label `Load`, or none with another label, has a drop. */
  ghost predicate Clean(warmupDuration: nat, warmupPause: nat, reports: seq<IntervalReport>, load: bool) {
    forall k :: 0 <= k < |reports| && (load <==> k >= warmupDuration + warmupPause) ==> !HasDrop(reports[k].stats.results)
  }

  lemma CleanLast(warmupDuration: nat, warmupPause: nat, reports: seq<IntervalReport>, load: bool)
    requires reports != []
    ensures var k: nat := |reports| - 1;
            Clean(warmupDuration, warmupPause, reports, load) <==>
            Clean(warmupDuration, warmupPause, reports[..k], load)
            && ((load <==> k >= warmupDuration + warmupPause) ==> !HasDrop(reports[k].stats.results))
  {
    hide HasDrop;
    var init := reports[..|reports| - 1];
    assert forall k :: 0 <= k < |init| ==> init[k] == reports[k];
  }

  lemma {:induction false} ResultsInDecide(warmupDuration: nat, warmupPause: nat, reports: seq<IntervalReport>, load: bool)
    ensures HasDrop(ResultsIn(warmupDuration, warmupPause, reports, load)) <==> !Clean(warmupDuration, warmupPause, reports, load)
  {
    if reports != [] {
      var k: nat := |reports| - 1;
      ResultsInDecide(warmupDuration, warmupPause, reports[..k], load);
      HasDropConcat(ResultsIn(warmupDuration, warmupPause, reports[..k], load), reports[k].stats.results);
      CleanLast(warmupDuration, warmupPause, reports, load);
      hide HasDrop, Clean;
    }
  }

  /** Adds the results of one report to the drops of its phase. */
  method CountDrops(ghost earlier: seq<TransactionResult>, counts: PhaseDrops, results: seq<TransactionResult>)
    returns (after: PhaseDrops)
    requires counts == Tally(earlier)
    ensures after == Tally(earlier + results)
  {
    hide Tally, PhaseDrops.Record;
    after := counts;
    assert earlier + results[..0] == earlier;
    assert after.transactions == |earlier| by { TallyCountsAll(earlier); }
    for i := 0 to |results|
      invariant after == Tally(earlier + results[..i]).(transactions := |earlier|)
    {
      ghost var seen := earlier + results[..i];
      assert seen + [results[i]] == earlier + results[..i + 1];
      TallyLast(seen, results[i]);
      RecordIgnoresTransactions(Tally(seen), |earlier|, results[i]);
      if results[i].Dropped? {
        after := after.Record(results[i].code);
      }
    }
    assert results[..|results|] == results;
    TallyCountsAll(earlier + results);
    after := after.(transactions := after.transactions + |results|);
  }

  lemma TallyCountsAll(results: seq<TransactionResult>)
    ensures Tally(results).transactions == |results|
  {
  }

  lemma RecordIgnoresTransactions(d: PhaseDrops, n: nat, r: TransactionResult)
    ensures r.Dropped? ==> d.(transactions := n).Record(r.code) == d.Record(r.code).(transactions := n)
  {
  }

  class DropSummary {
    const classifier: PhaseClassifier
    var load: PhaseDrops
    var warmup: PhaseDrops
    ghost var recorded: seq<IntervalReport>

    ghost function Results(loadPhase: bool): seq<TransactionResult>
      reads this
    {
      ResultsIn(classifier.warmupDuration, classifier.warmupPause, recorded, loadPhase)
    }

    ghost predicate Valid()
      reads this, classifier
    {
      classifier.count == |recorded| && load == Tally(Results(true)) && warmup == Tally(Results(false))
    }

    constructor (warmupDuration: nat, warmupPause: nat)
      ensures Valid() && recorded == [] && fresh(classifier)
      ensures classifier.warmupDuration == warmupDuration && classifier.warmupPause == warmupPause
    {
      classifier := new PhaseClassifier(warmupDuration, warmupPause);
      load, warmup, recorded := PhaseDrops(0, 0, 0, 0), PhaseDrops(0, 0, 0, 0), [];
    }

    method Record(report: IntervalReport)
      requires Valid()
      modifies this, classifier
      ensures Valid() && recorded == old(recorded) + [report]
    {
      hide Tally;
      var phase := classifier.Classify();
      if phase == Load {
        load := CountDrops(Results(true), load, report.stats.results);
      } else {
        warmup := CountDrops(Results(false), warmup, report.stats.results);
      }
      recorded := recorded + [report];
      assert recorded[..|recorded| - 1] == old(recorded);
    }

    /** A run is valid exactly when no transaction was dropped from the first load report on. */
    method IsValid() returns (valid: bool)
      requires Valid()
      ensures valid <==> forall k :: classifier.warmupDuration + classifier.warmupPause <= k < |recorded|
                           ==> !HasDrop(recorded[k].stats.results)
    {
      hide Tally, HasDrop;
      valid := load.Total() == 0;
      TallyDecides(Results(true));
      ResultsInDecide(classifier.warmupDuration, classifier.warmupPause, recorded, true);
    }

    /** There is a report exactly when some transaction was dropped, in any phase. */
    method Report() returns (report: Option<DropReport>)
      requires Valid()
      ensures report == None <==> forall k :: 0 <= k < |recorded| ==> !HasDrop(recorded[k].stats.results)
      ensures report.Some? ==> report.value.load == load && report.value.warmup == warmup
    {
      hide Tally, HasDrop;
      report := if load.Total() + warmup.Total() > 0 then Some(DropReport(load, warmup)) else None;
      TallyDecides(Results(true));
      TallyDecides(Results(false));
      ResultsInDecide(classifier.warmupDuration, classifier.warmupPause, recorded, true);
      ResultsInDecide(classifier.warmupDuration, classifier.warmupPause, recorded, false);
    }
  }
}
