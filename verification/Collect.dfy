/** The round-robin merge of the generators' reports (src/orchestrator/phases/collect.rs). */
module Collect {
  import opened Wrappers
  import opened Reports
  import opened Vectors

  /**
   A handle to one generator. `pending` is everything its channel will still deliver, in order;
   an empty `pending` means that the generator is gone.
   */
  datatype Handle = Handle(address: nat, pending: seq<GeneratorUpdate>)

  datatype CollectError =
    | InstanceCrashed(address: nat)
    | TimeMismatch(address: nat, expected: nat, actual: nat)

  /** What one round came to. */
  datatype Outcome = Exhausted | Merged(report: IntervalReport) | Broken(error: CollectError)

  // ---------------------------------------------------------------- one round

  /**
   A round under way: the loop's index, the live handles, the reports so far. `gone` remembers the
   handles that were removed, with what they had pending; the program drops them.
   */
  datatype Round = Round(
    handles: seq<Handle>, i: nat, reports: seq<IntervalReport>, gone: seq<Handle>, crashed: Option<nat>)

  predicate Over(r: Round) {
    r.crashed.Some? || r.i >= |r.handles|
  }

  /** One turn of the loop. */
  function PollOne(r: Round): Round
    requires !Over(r)
  {
    var h := r.handles[r.i];
    if h.pending == [] then
      r.(handles := SwapRemove(r.handles, r.i), gone := r.gone + [h], crashed := Some(h.address))
    else
      match h.pending[0]
      case Interval(report) =>
        r.(handles := r.handles[r.i := h.(pending := h.pending[1..])], i := r.i + 1, reports := r.reports + [report])
      case Finished =>
        r.(handles := SwapRemove(r.handles, r.i), gone := r.gone + [h])
  }

  function PollAll(r: Round): (end: Round)
    requires |r.reports| == r.i <= |r.handles|
    ensures |end.reports| == end.i <= |end.handles| && Over(end)
    decreases if Over(r) then 0 else |r.handles| - r.i + 1
  {
    if Over(r) then r else PollAll(PollOne(r))
  }

  const U32 := 0x1_0000_0000

  function LoadLevels(reports: seq<IntervalReport>): nat {
    SumOf((r: IntervalReport) => r.loadLevel, reports)
  }

  function Statistics(reports: seq<IntervalReport>): seq<IntervalStatistics> {
    seq(|reports|, i requires 0 <= i < |reports| => reports[i].stats)
  }

  /** The latest of the batch times that are present. */
  function LatestBatch(reports: seq<IntervalReport>): Option<nat> {
    if reports == [] then None
    else
      var earlier, last := LatestBatch(reports[..|reports| - 1]), reports[|reports| - 1].finalBatchTime;
      if last == None then earlier else if earlier == None || earlier.value < last.value then last else earlier
  }

  /** The merged batch time is the latest one reported, and is missing only if all are. */
  lemma {:induction false} LatestBatchIsLatest(reports: seq<IntervalReport>)
    ensures LatestBatch(reports) == None <==> forall r :: r in reports ==> r.finalBatchTime == None
    ensures LatestBatch(reports).Some? ==>
              && (exists r :: r in reports && r.finalBatchTime == LatestBatch(reports))
              && forall r :: r in reports && r.finalBatchTime.Some? ==> r.finalBatchTime.value <= LatestBatch(reports).value
  {
    if reports != [] {
      var init, last := reports[..|reports| - 1], reports[|reports| - 1];
      LatestBatchIsLatest(init);
      assert reports == init + [last];
      assert last in reports && forall r :: r in reports <==> r in init || r == last;
    }
  }

  predicate Uniform(reports: seq<IntervalReport>) {
    forall j :: 0 <= j < |reports| ==> reports[j].targetTime == reports[0].targetTime
  }

  /** The first report that is off the round's target time. */
  function FirstOff(reports: seq<IntervalReport>, from: nat): (j: nat)
    requires from <= |reports| && !Uniform(reports)
    requires forall k :: 0 <= k < from ==> reports[k].targetTime == reports[0].targetTime
    ensures j < |reports| && reports[j].targetTime != reports[0].targetTime
    ensures forall k :: 0 <= k < j ==> reports[k].targetTime == reports[0].targetTime
    decreases |reports| - from
  {
    if reports[from].targetTime != reports[0].targetTime then from else FirstOff(reports, from + 1)
  }

  function MergeOf(reports: seq<IntervalReport>): IntervalReport
    requires reports != []
  {
    IntervalReport(reports[0].targetTime, LoadLevels(reports) % U32, Sum(Statistics(reports)), LatestBatch(reports))
  }

  function Conclude(r: Round): Outcome
    requires |r.reports| <= |r.handles|
  {
    if r.crashed.Some? then Broken(InstanceCrashed(r.crashed.value))
    else if r.reports == [] then Exhausted
    else if !Uniform(r.reports) then
      var j := FirstOff(r.reports, 0);
      Broken(TimeMismatch(r.handles[j].address, r.reports[0].targetTime, r.reports[j].targetTime))
    else Merged(MergeOf(r.reports))
  }

  function Begin(handles: seq<Handle>): Round {
    Round(handles, 0, [], [], None)
  }

  /** A whole round: what is left of the handles, and what it came to. */
  function CollectRound(handles: seq<Handle>): (seq<Handle>, Outcome) {
    var r := PollAll(Begin(handles));
    (r.handles, Conclude(r))
  }

  // ---------------------------------------------------------------- who sent what

  /** A handle as it was before it delivered `report`. */
  function Unread(h: Handle, report: IntervalReport): Handle {
    h.(pending := [Interval(report)] + h.pending)
  }

  function Senders(handles: seq<Handle>, reports: seq<IntervalReport>): seq<Handle>
    requires |reports| <= |handles|
  {
    seq(|reports|, j requires 0 <= j < |reports| => Unread(handles[j], reports[j]))
  }

  /** The handles of the round as they were before it: the senders so far, the unpolled, the removed. */
  function Originals(r: Round): seq<Handle>
    requires |r.reports| <= |r.handles|
  {
    Senders(r.handles, r.reports) + r.handles[|r.reports|..] + r.gone
  }

  /** The loop's invariant: `handles[0..i]` are the senders of the reports, and no handle is lost. */
  ghost predicate RoundInvariant(before: seq<Handle>, r: Round) {
    && |r.reports| == r.i <= |r.handles|
    && multiset(Originals(r)) == multiset(before)
    && (r.crashed == None ==> forall h :: h in r.gone ==> h.pending != [] && h.pending[0] == Finished)
    && (r.crashed.Some? ==>
          && r.gone != [] && r.gone[|r.gone| - 1] == Handle(r.crashed.value, [])
          && forall h :: h in r.gone[..|r.gone| - 1] ==> h.pending != [] && h.pending[0] == Finished)
  }

  lemma ReportKeepsOriginals(r: Round)
    requires !Over(r) && |r.reports| == r.i && r.handles[r.i].pending != [] && r.handles[r.i].pending[0].Interval?
    ensures Originals(PollOne(r)) == Originals(r)
  {
    var r', h := PollOne(r), r.handles[r.i];
    assert [h.pending[0]] + h.pending[1..] == h.pending;
    assert Unread(r'.handles[r.i], h.pending[0].report) == h;
    assert Senders(r'.handles, r'.reports) == Senders(r.handles, r.reports) + [h];
    assert r.handles[r.i..] == [h] + r'.handles[r'.i..];
  }

  /** Removing a handle by `swap_remove` only moves it, and only handles not yet polled change places. */
  lemma RemovalKeepsTail(handles: seq<Handle>, i: nat)
    requires i < |handles|
    ensures SwapRemove(handles, i)[..i] == handles[..i]
    ensures multiset(SwapRemove(handles, i)[i..]) + multiset{handles[i]} == multiset(handles[i..])
  {
    SwapRemoveIsRemoval(handles, i);
    hide SwapRemove;
    var handles' := SwapRemove(handles, i);
    assert handles == handles[..i] + handles[i..] && handles' == handles'[..i] + handles'[i..];
    var front, rest, rest' := multiset(handles[..i]), multiset(handles[i..]), multiset(handles'[i..]);
    assert front + rest == multiset(handles) && front + rest' == multiset(handles');
    assert rest' + multiset{handles[i]} == (front + rest' + multiset{handles[i]}) - front;
  }

  lemma MovedToGone<T>(a: seq<T>, rest: seq<T>, rest': seq<T>, gone: seq<T>, h: T)
    requires multiset(rest') + multiset{h} == multiset(rest)
    ensures multiset(a + rest' + (gone + [h])) == multiset(a + rest + gone)
  {
  }

  lemma PollKeepsOriginals(r: Round)
    requires !Over(r) && |r.reports| == r.i
    ensures multiset(Originals(PollOne(r))) == multiset(Originals(r))
  {
    var r', h := PollOne(r), r.handles[r.i];
    if h.pending != [] && h.pending[0].Interval? {
      ReportKeepsOriginals(r);
    } else {
      RemovalKeepsTail(r.handles, r.i);
      hide SwapRemove;
      assert Senders(r'.handles, r'.reports) == Senders(r.handles, r.reports) by {
        assert forall j :: 0 <= j < r.i ==> r'.handles[j] == r.handles[..r.i][j];
      }
      MovedToGone(Senders(r.handles, r.reports), r.handles[r.i..], r'.handles[r.i..], r.gone, h);
    }
  }

  lemma PollKeepsInvariant(before: seq<Handle>, r: Round)
    requires !Over(r) && RoundInvariant(before, r)
    ensures RoundInvariant(before, PollOne(r))
  {
    hide Originals, SwapRemove;
    PollKeepsOriginals(r);
    SwapRemoveIsRemoval(r.handles, r.i);
  }

  lemma {:induction false} PollAllKeepsInvariant(before: seq<Handle>, r: Round)
    requires RoundInvariant(before, r)
    ensures RoundInvariant(before, PollAll(r))
    decreases if Over(r) then 0 else |r.handles| - r.i + 1
  {
    if !Over(r) {
      PollKeepsInvariant(before, r);
      hide PollOne, RoundInvariant;
      PollAllKeepsInvariant(before, PollOne(r));
    }
  }

  // ---------------------------------------------------------------- what a round comes to

  predicate HasReport(h: Handle) {
    h.pending != [] && h.pending[0].Interval?
  }

  predicate Finishes(h: Handle) {
    h.pending != [] && h.pending[0] == Finished
  }

  predicate Crashes(h: Handle) {
    h.pending == []
  }

  lemma RoundFacts(handles: seq<Handle>) returns (r: Round)
    ensures r == PollAll(Begin(handles)) && RoundInvariant(handles, r)
    ensures CollectRound(handles) == (r.handles, Conclude(r))
  {
    r := PollAll(Begin(handles));
    assert Originals(Begin(handles)) == handles;
    PollAllKeepsInvariant(handles, Begin(handles));
  }

  /** After a round without a crash every handle was a sender of its report, or has finished. */
  lemma SendersAndFinished(handles: seq<Handle>, r: Round)
    requires RoundInvariant(handles, r) && Over(r) && r.crashed == None
    ensures |r.reports| == |r.handles|
    ensures multiset(Senders(r.handles, r.reports) + r.gone) == multiset(handles)
    ensures forall h :: h in handles ==> h in Senders(r.handles, r.reports) + r.gone
    ensures forall h :: h in Senders(r.handles, r.reports) + r.gone ==> h in handles
    ensures forall h :: h in Senders(r.handles, r.reports) ==> HasReport(h)
    ensures forall h :: h in r.gone ==> Finishes(h)
  {
    assert r.handles[|r.reports|..] == [];
    assert Originals(r) == Senders(r.handles, r.reports) + r.gone;
    forall h ensures h in handles <==> h in Senders(r.handles, r.reports) + r.gone {
      assert h in handles <==> h in multiset(handles);
      assert h in Originals(r) <==> h in multiset(Originals(r));
    }
  }

  /** A round fails for a crash exactly when some generator is gone, and it names such a generator. */
  lemma CrashIffGone(handles: seq<Handle>)
    ensures var (_, o) := CollectRound(handles);
            && ((o.Broken? && o.error.InstanceCrashed?) <==> exists h :: h in handles && Crashes(h))
            && (o.Broken? && o.error.InstanceCrashed? ==> Handle(o.error.address, []) in handles)
  {
    var r := RoundFacts(handles);
    if r.crashed == None {
      SendersAndFinished(handles, r);
    } else {
      var lost := Handle(r.crashed.value, []);
      assert lost == r.gone[|r.gone| - 1] && lost in r.gone && lost in Originals(r);
      assert lost in multiset(Originals(r));
      assert lost in handles && Crashes(lost);
    }
  }

  /** The collection ends exactly when every generator has finished; then no handle is left. */
  lemma ExhaustedIffAllFinished(handles: seq<Handle>)
    ensures var (after, o) := CollectRound(handles);
            && (o == Exhausted <==> forall h :: h in handles ==> Finishes(h))
            && (o == Exhausted ==> after == [])
  {
    var r := RoundFacts(handles);
    CrashIffGone(handles);
    if r.crashed == None {
      SendersAndFinished(handles, r);
      if r.reports != [] {
        var h := Senders(r.handles, r.reports)[0];
        assert h in Senders(r.handles, r.reports);
        assert h in handles && !Finishes(h);
      }
    }
  }

  /**
   A target time that is off is blamed on the generator that sent it, although `swap_remove` moves
   handles while the round runs.
   */
  lemma MismatchBlamesItsSender(handles: seq<Handle>)
    ensures var (_, o) := CollectRound(handles);
            o.Broken? && o.error.TimeMismatch? ==>
              && o.error.actual != o.error.expected
              && (exists h :: h in handles && HasReport(h) && h.address == o.error.address
                              && h.pending[0].report.targetTime == o.error.actual)
              && (exists h :: h in handles && HasReport(h) && h.pending[0].report.targetTime == o.error.expected)
  {
    var r := RoundFacts(handles);
    if r.crashed == None && r.reports != [] && !Uniform(r.reports) {
      SendersAndFinished(handles, r);
      var j := FirstOff(r.reports, 0);
      var senders := Senders(r.handles, r.reports);
      assert senders[0] in senders && senders[0] in handles && senders[j] in senders && senders[j] in handles;
      assert senders[j].address == r.handles[j].address && senders[j].pending[0].report == r.reports[j];
    }
  }

  /** A round merges exactly when nobody is gone, somebody reports, and all reports agree on the time. */
  lemma MergedIffUniform(handles: seq<Handle>)
    ensures var (after, o) := CollectRound(handles);
            && (o.Merged? <==>
                  && (forall h :: h in handles ==> !Crashes(h)) && (exists h :: h in handles && HasReport(h))
                  && forall h, k :: h in handles && k in handles && HasReport(h) && HasReport(k)
                       ==> h.pending[0].report.targetTime == k.pending[0].report.targetTime)
            && (o.Merged? ==> forall h :: h in handles && HasReport(h) ==> h.pending[0].report.targetTime == o.report.targetTime)
  {
    var r := RoundFacts(handles);
    CrashIffGone(handles);
    if r.crashed == None {
      SendersAndFinished(handles, r);
      var senders := Senders(r.handles, r.reports);
      forall h | h in handles && HasReport(h) ensures exists j :: 0 <= j < |r.reports| && h.pending[0].report == r.reports[j] {
        assert h in senders;
      }
      if r.reports != [] {
        assert senders[0] in senders && senders[0] in handles && HasReport(senders[0]);
        if !Uniform(r.reports) {
          var j := FirstOff(r.reports, 0);
          assert senders[j] in senders && senders[j] in handles && HasReport(senders[j]);
          assert senders[0].pending[0].report == r.reports[0] && senders[j].pending[0].report == r.reports[j];
        }
      }
    }
  }

  /** The merged batch time is the latest that any generator reported in the round, and missing only if all are. */
  lemma MergedBatchIsLatest(handles: seq<Handle>)
    requires CollectRound(handles).1.Merged?
    ensures var batch := CollectRound(handles).1.report.finalBatchTime;
            && (batch == None <==> forall h :: h in handles && HasReport(h) ==> h.pending[0].report.finalBatchTime == None)
            && (batch.Some? ==>
                  && (exists h :: h in handles && HasReport(h) && h.pending[0].report.finalBatchTime == batch)
                  && forall h :: h in handles && HasReport(h) && h.pending[0].report.finalBatchTime.Some? ==>
                       h.pending[0].report.finalBatchTime.value <= batch.value)
  {
    var r := RoundFacts(handles);
    SendersAndFinished(handles, r);
    LatestBatchIsLatest(r.reports);
    hide LatestBatch;
    var senders := Senders(r.handles, r.reports);
    forall h | h in handles && HasReport(h) ensures h.pending[0].report in r.reports {
      assert h in senders;
    }
    forall x | x in r.reports ensures exists h :: h in handles && HasReport(h) && h.pending[0].report == x {
      var j :| 0 <= j < |r.reports| && r.reports[j] == x;
      assert senders[j] in senders && senders[j] in handles;
    }
  }

  /** The load level that a generator reports in the next round. */
  function OfferedLevel(h: Handle): nat {
    if HasReport(h) then h.pending[0].report.loadLevel else 0
  }

  lemma {:induction false} NothingOffered(handles: seq<Handle>)
    requires forall h :: h in handles ==> Finishes(h)
    ensures SumOf(OfferedLevel, handles) == 0
  {
    if handles != [] {
      assert handles[|handles| - 1] in handles;
      NothingOffered(handles[..|handles| - 1]);
    }
  }

  lemma SendersOffer(handles: seq<Handle>, reports: seq<IntervalReport>)
    requires |reports| <= |handles|
    ensures SumOf(OfferedLevel, Senders(handles, reports)) == LoadLevels(reports)
  {
    SumOfPointwise(OfferedLevel, Senders(handles, reports), (r: IntervalReport) => r.loadLevel, reports);
  }

  lemma OnlySendersOffer(handles: seq<Handle>, senders: seq<Handle>, gone: seq<Handle>)
    requires multiset(senders + gone) == multiset(handles) && forall h :: h in gone ==> Finishes(h)
    ensures SumOf(OfferedLevel, handles) == SumOf(OfferedLevel, senders)
  {
    SumOfPermutation(OfferedLevel, handles, senders + gone);
    SumOfConcat(OfferedLevel, senders, gone);
    NothingOffered(gone);
  }

  /** The merged load level is the sum of all that were reported in the round, in 32 bits. */
  lemma MergedLevelIsSum(handles: seq<Handle>)
    requires CollectRound(handles).1.Merged?
    ensures CollectRound(handles).1.report.loadLevel == SumOf(OfferedLevel, handles) % U32
  {
    var r := RoundFacts(handles);
    SendersAndFinished(handles, r);
    assert CollectRound(handles).1.report.loadLevel == LoadLevels(r.reports) % U32;
    hide CollectRound, PollAll, RoundInvariant;
    OnlySendersOffer(handles, Senders(r.handles, r.reports), r.gone);
    SendersOffer(r.handles, r.reports);
  }
}
