/**
 Whole collections: round after round until the generators have finished (src/orchestrator/runner.rs,
 src/orchestrator/phases/collect.rs), what they conserve, and why the timing of deliveries is no matter.
 */
module Collection {
  import opened Wrappers
  import opened Reports
  import opened Vectors
  import opened Collect
  import opened Phases

  // ---------------------------------------------------------------- conservation in one round

  /** What the reports of a stream amount to, up to its `Finished`. */
  function StreamAmount(pending: seq<GeneratorUpdate>, m: Measure): nat {
    if pending == [] || pending[0] == Finished then 0
    else Amount(pending[0].report.stats, m) + StreamAmount(pending[1..], m)
  }

  function PendingAmount(handles: seq<Handle>, m: Measure): nat {
    SumOf((h: Handle) => StreamAmount(h.pending, m), handles)
  }

  lemma {:induction false} AmountOfSum(reports: seq<IntervalReport>, m: Measure)
    ensures Amount(Sum(Statistics(reports)), m) == SumOf((r: IntervalReport) => Amount(r.stats, m), reports)
  {
    AmountAdd(NoStatistics, NoStatistics, m);
    if reports != [] {
      var init, last := reports[..|reports| - 1], reports[|reports| - 1];
      AmountOfSum(init, m);
      assert Statistics(reports)[..|reports| - 1] == Statistics(init);
      AmountAdd(Sum(Statistics(init)), last.stats, m);
    }
  }

  lemma {:induction false} SendersAmount(handles: seq<Handle>, reports: seq<IntervalReport>, m: Measure)
    requires |handles| == |reports|
    ensures PendingAmount(Senders(handles, reports), m) == Amount(Sum(Statistics(reports)), m) + PendingAmount(handles, m)
  {
    var k := |handles|;
    AmountOfSum(reports, m);
    if k > 0 {
      var hs, rs := handles[..k - 1], reports[..k - 1];
      SendersAmount(hs, rs, m);
      AmountOfSum(rs, m);
      assert Senders(handles, reports)[..k - 1] == Senders(hs, rs);
      assert Unread(handles[k - 1], reports[k - 1]).pending[1..] == handles[k - 1].pending;
    }
  }

  lemma {:induction false} FinishedAmountToNothing(handles: seq<Handle>, m: Measure)
    requires forall h :: h in handles ==> Finishes(h)
    ensures PendingAmount(handles, m) == 0
  {
    if handles != [] {
      var last := handles[|handles| - 1];
      assert last in handles && Finishes(last);
      FinishedAmountToNothing(handles[..|handles| - 1], m);
    }
  }

  /** A round that merges moves its reports from the streams into the merged report, and loses nothing. */
  lemma RoundConserves(handles: seq<Handle>, m: Measure)
    ensures var (after, o) := CollectRound(handles);
            && (o.Merged? ==> PendingAmount(handles, m) == Amount(o.report.stats, m) + PendingAmount(after, m))
            && (o == Exhausted ==> PendingAmount(handles, m) == 0)
  {
    var r := RoundFacts(handles);
    if r.crashed == None {
      SendersAndFinished(handles, r);
      var weight := (h: Handle) => StreamAmount(h.pending, m);
      SumOfPermutation(weight, handles, Senders(r.handles, r.reports) + r.gone);
      SumOfConcat(weight, Senders(r.handles, r.reports), r.gone);
      FinishedAmountToNothing(r.gone, m);
      SendersAmount(r.handles, r.reports, m);
    }
  }

  /** Every live handle is polled once: the updates still pending shrink with every round. */
  function Backlog(handles: seq<Handle>): nat {
    SumOf((h: Handle) => |h.pending|, handles)
  }

  lemma {:induction false} SendersBacklog(handles: seq<Handle>, reports: seq<IntervalReport>)
    requires |handles| == |reports|
    ensures Backlog(Senders(handles, reports)) == |reports| + Backlog(handles)
  {
    var k := |handles|;
    if k > 0 {
      SendersBacklog(handles[..k - 1], reports[..k - 1]);
      assert Senders(handles, reports)[..k - 1] == Senders(handles[..k - 1], reports[..k - 1]);
    }
  }

  lemma RoundShrinksBacklog(handles: seq<Handle>)
    ensures var (after, o) := CollectRound(handles); o.Merged? ==> Backlog(after) < Backlog(handles)
  {
    var r := RoundFacts(handles);
    if r.crashed == None {
      SendersAndFinished(handles, r);
      var weight := (h: Handle) => |h.pending|;
      SumOfPermutation(weight, handles, Senders(r.handles, r.reports) + r.gone);
      SumOfConcat(weight, Senders(r.handles, r.reports), r.gone);
      SendersBacklog(r.handles, r.reports);
    }
  }

  // ---------------------------------------------------------------- all rounds

  /** The merged reports, and the outcome that ended the collection. */
  function Rounds(handles: seq<Handle>): (seq<IntervalReport>, Outcome)
    decreases Backlog(handles)
  {
    RoundShrinksBacklog(handles);
    var (after, o) := CollectRound(handles);
    match o
    case Merged(report) =>
      var (rest, end) := Rounds(after);
      ([report] + rest, end)
    case _ => ([], o)
  }

  lemma {:induction false} SumOfFirst(s: IntervalStatistics, stats: seq<IntervalStatistics>)
    ensures Sum([s] + stats) == Add(s, Sum(stats))
  {
    StatsSumOfConcat([s], stats);
    AddIsAssociative(s, NoStatistics, NoStatistics);
    assert [s][..0] == [];
  }

  lemma FirstReportAmount(first: IntervalReport, rest: seq<IntervalReport>, m: Measure)
    ensures Amount(Sum(Statistics([first] + rest)), m) == Amount(first.stats, m) + Amount(Sum(Statistics(rest)), m)
  {
    hide Add, Amount, Sum;
    assert Statistics([first] + rest) == [first.stats] + Statistics(rest);
    SumOfFirst(first.stats, Statistics(rest));
    AmountAdd(first.stats, Sum(Statistics(rest)), m);
  }

  /** A collection that runs to its end has merged every report of every generator, and nothing else. */
  lemma {:induction false} CollectionConserves(handles: seq<Handle>, m: Measure)
    requires Rounds(handles).1 == Exhausted
    ensures Amount(Sum(Statistics(Rounds(handles).0)), m) == PendingAmount(handles, m)
    decreases Backlog(handles)
  {
    hide CollectRound, Amount, Statistics, PendingAmount, Backlog;
    RoundShrinksBacklog(handles);
    RoundConserves(handles, m);
    var (after, o) := CollectRound(handles);
    if o.Merged? {
      CollectionConserves(after, m);
      FirstReportAmount(o.report, Rounds(after).0, m);
    } else {
      assert Statistics([]) == [] by { NoStatisticsOfNone(); }
      AmountAdd(NoStatistics, NoStatistics, m);
    }
  }

  lemma NoStatisticsOfNone()
    ensures Statistics([]) == []
  {
  }

  // ---------------------------------------------------------------- aligned generators

  /** The k-th update of the stream is a report. */
  predicate HasAt(h: Handle, k: nat) {
    k < |h.pending| && h.pending[k].Interval?
  }

  /** Every stream has a report at position `k`. */
  ghost predicate FullRow(handles: seq<Handle>, k: nat) {
    forall j :: 0 <= j < |handles| ==> HasAt(handles[j], k)
  }

  /** The k-th reports of all generators. */
  ghost function Row(handles: seq<Handle>, k: nat): seq<IntervalReport>
    requires FullRow(handles, k)
  {
    seq(|handles|, j requires 0 <= j < |handles| => handles[j].pending[k].report)
  }

  /** The handles after each has delivered its first update. */
  ghost function Advanced(handles: seq<Handle>): seq<Handle>
    requires FullRow(handles, 0)
  {
    seq(|handles|, j requires 0 <= j < |handles| => handles[j].(pending := handles[j].pending[1..]))
  }

  /** While everybody reports, a round reads one report of each generator, in the order of the handles. */
  lemma {:induction false} AllReportInOrder(handles: seq<Handle>, r: Round)
    requires FullRow(handles, 0) && r.i == |r.reports| <= |r.handles| == |handles| && r.crashed == None
    requires r.reports == Row(handles, 0)[..r.i] && r.handles == Advanced(handles)[..r.i] + handles[r.i..]
    ensures PollAll(r).handles == Advanced(handles) && PollAll(r).reports == Row(handles, 0) && PollAll(r).crashed == None
    decreases |r.handles| - r.i
  {
    if !Over(r) {
      assert r.handles[r.i] == handles[r.i] && HasAt(handles[r.i], 0);
      var r' := PollOne(r);
      assert r'.handles == Advanced(handles)[..r'.i] + handles[r'.i..];
      assert r'.reports == Row(handles, 0)[..r'.i];
      AllReportInOrder(handles, r');
    } else {
      assert r.handles == Advanced(handles) && r.reports == Row(handles, 0);
    }
  }

  lemma AlignedRound(handles: seq<Handle>)
    requires handles != [] && FullRow(handles, 0) && Uniform(Row(handles, 0))
    ensures CollectRound(handles) == (Advanced(handles), Merged(MergeOf(Row(handles, 0))))
  {
    AllReportInOrder(handles, Begin(handles));
  }

  /** Every stream has, at position `k`, a report for time `t`. */
  ghost predicate RowOnTime(handles: seq<Handle>, k: nat, t: nat) {
    FullRow(handles, k) && forall r :: r in Row(handles, k) ==> r.targetTime == t
  }

  /** Every generator has a report for each of the target times, in that order. */
  ghost predicate Aligned(handles: seq<Handle>, targets: seq<nat>) {
    forall k :: 0 <= k < |targets| ==> RowOnTime(handles, k, targets[k])
  }

  lemma OnTimeIsUniform(handles: seq<Handle>, k: nat, t: nat)
    requires RowOnTime(handles, k, t)
    ensures Uniform(Row(handles, k)) && (handles != [] ==> Row(handles, k)[0].targetTime == t)
  {
    assert forall j :: 0 <= j < |handles| ==> Row(handles, k)[j] in Row(handles, k);
  }

  lemma AdvancedRow(handles: seq<Handle>, k: nat)
    requires FullRow(handles, 0) && FullRow(handles, k + 1)
    ensures FullRow(Advanced(handles), k) && Row(Advanced(handles), k) == Row(handles, k + 1)
  {
    forall j | 0 <= j < |handles| ensures HasAt(Advanced(handles)[j], k) {
      assert HasAt(handles[j], k + 1);
    }
  }

  /** Aligned generators stay in step: round k merges exactly the k-th report of every generator. */
  lemma {:induction false} RoundsStayAligned(handles: seq<Handle>, targets: seq<nat>, k: nat)
    requires handles != [] && k < |targets| && Aligned(handles, targets)
    ensures FullRow(handles, k) && |Rounds(handles).0| >= |targets|
    ensures Rounds(handles).0[k] == MergeOf(Row(handles, k)) && Rounds(handles).0[k].targetTime == targets[k]
    decreases |targets|
  {
    assert RowOnTime(handles, 0, targets[0]) && RowOnTime(handles, k, targets[k]);
    OnTimeIsUniform(handles, 0, targets[0]);
    OnTimeIsUniform(handles, k, targets[k]);
    AlignedRound(handles);
    hide CollectRound, MergeOf, RowOnTime;
    var after, later := Advanced(handles), targets[1..];
    assert Rounds(handles).0 == [MergeOf(Row(handles, 0))] + Rounds(after).0;
    MergeKeepsTime(Row(handles, k));
    if later != [] {
      AdvancedStaysAligned(handles, targets);
      RoundsStayAligned(after, later, Predecessor(k));
      if k > 0 {
        AdvancedRow(handles, k - 1);
      }
    }
  }

  lemma AdvancedStaysAligned(handles: seq<Handle>, targets: seq<nat>)
    requires targets != [] && Aligned(handles, targets) && FullRow(handles, 0)
    ensures Aligned(Advanced(handles), targets[1..])
  {
    forall k | 0 <= k < |targets| - 1 ensures RowOnTime(Advanced(handles), k, targets[1..][k]) {
      assert RowOnTime(handles, k + 1, targets[k + 1]);
      AdvancedRow(handles, k);
    }
  }

  function Predecessor(k: nat): nat {
    if k > 0 then k - 1 else 0
  }

  lemma MergeKeepsTime(reports: seq<IntervalReport>)
    requires reports != []
    ensures MergeOf(reports).targetTime == reports[0].targetTime
  {
  }

  // ---------------------------------------------------------------- streams that break off

  /** The stream reports for the target times in order, as far as both go. */
  predicate KeepsTo(us: seq<GeneratorUpdate>, targets: seq<nat>) {
    forall k :: 0 <= k < |us| && k < |targets| ==> us[k].Interval? && us[k].report.targetTime == targets[k]
  }

  ghost predicate AllKeepTo(handles: seq<Handle>, targets: seq<nat>) {
    forall j :: 0 <= j < |handles| ==> KeepsTo(handles[j].pending, targets)
  }

  ghost predicate AllReach(handles: seq<Handle>, m: nat) {
    forall j :: 0 <= j < |handles| ==> |handles[j].pending| >= m
  }

  /** Some generator at this address breaks off after `m` updates, and none before it. */
  ghost predicate FirstToBreakOff(handles: seq<Handle>, m: nat, address: nat) {
    AllReach(handles, m) && exists j :: 0 <= j < |handles| && handles[j].address == address && |handles[j].pending| == m
  }

  lemma StepOnTime(handles: seq<Handle>, targets: seq<nat>)
    requires targets != [] && AllKeepTo(handles, targets) && forall j :: 0 <= j < |handles| ==> handles[j].pending != []
    ensures RowOnTime(handles, 0, targets[0]) && AllKeepTo(Advanced(handles), targets[1..])
  {
    forall j | 0 <= j < |handles| ensures HasAt(handles[j], 0) && handles[j].pending[0].report.targetTime == targets[0] {
      assert KeepsTo(handles[j].pending, targets);
    }
    assert FullRow(handles, 0);
    forall r | r in Row(handles, 0) ensures r.targetTime == targets[0] {
      var j :| 0 <= j < |handles| && Row(handles, 0)[j] == r;
    }
    forall j | 0 <= j < |handles| ensures KeepsTo(Advanced(handles)[j].pending, targets[1..]) {
      assert KeepsTo(handles[j].pending, targets);
    }
  }

  lemma AdvancedReach(handles: seq<Handle>, m: nat, address: nat)
    requires FullRow(handles, 0)
    ensures AllReach(Advanced(handles), m) <==> AllReach(handles, m + 1)
    ensures FirstToBreakOff(Advanced(handles), m, address) ==> FirstToBreakOff(handles, m + 1, address)
  {
    assert forall j :: 0 <= j < |handles| ==> HasAt(handles[j], 0);
    assert forall j :: 0 <= j < |handles| ==> |Advanced(handles)[j].pending| == |handles[j].pending| - 1;
    if FirstToBreakOff(Advanced(handles), m, address) {
      var j :| 0 <= j < |handles| && Advanced(handles)[j].address == address && |Advanced(handles)[j].pending| == m;
      assert handles[j].address == address && |handles[j].pending| == m + 1;
    }
  }

  /**
   Streams that keep to the target times are merged until one breaks off. The rounds reach the last
   target exactly when all streams do; short of it the collection stops for a crash, after as many rounds
   as the shortest stream has reports, and names a generator whose stream is that short.
   */
  lemma {:induction false} RoundsEndWithShortest(handles: seq<Handle>, targets: seq<nat>)
    requires handles != [] && AllKeepTo(handles, targets)
    ensures var (reports, end) := Rounds(handles);
            && (|reports| >= |targets| <==> AllReach(handles, |targets|))
            && (|reports| < |targets| ==>
                  end.Broken? && end.error.InstanceCrashed? && FirstToBreakOff(handles, |reports|, end.error.address))
    decreases |targets|
  {
    if targets != [] {
      if forall j :: 0 <= j < |handles| ==> handles[j].pending != [] {
        hide FirstToBreakOff, AllReach, MergeOf, AllKeepTo;
        StepOnTime(handles, targets);
        OnTimeIsUniform(handles, 0, targets[0]);
        AlignedRound(handles);
        hide CollectRound, Row, RowOnTime;
        var after := Advanced(handles);
        assert Rounds(handles) == ([CollectRound(handles).1.report] + Rounds(after).0, Rounds(after).1);
        RoundsEndWithShortest(after, targets[1..]);
        AdvancedReach(handles, |targets| - 1, 0);
        if |Rounds(after).0| < |targets| - 1 {
          AdvancedReach(handles, |Rounds(after).0|, Rounds(after).1.error.address);
        }
      } else {
        BrokenOffAtOnce(handles);
        hide CollectRound;
        assert Rounds(handles) == ([], CollectRound(handles).1);
      }
    }
  }

  lemma BrokenOffAtOnce(handles: seq<Handle>)
    requires exists j :: 0 <= j < |handles| && handles[j].pending == []
    ensures var (_, o) := CollectRound(handles);
            o.Broken? && o.error.InstanceCrashed? && FirstToBreakOff(handles, 0, o.error.address)
  {
    CrashIffGone(handles);
    hide CollectRound;
    var j :| 0 <= j < |handles| && handles[j].pending == [];
    assert handles[j] in handles && Crashes(handles[j]);
    var i :| 0 <= i < |handles| && handles[i] == Handle(CollectRound(handles).1.error.address, []);
    assert handles[i].pending == [];
  }

  // ---------------------------------------------------------------- the timing of deliveries

  /** A connection as it is: updates wait in the channel, and the rest has yet to arrive. */
  datatype Link = Link(address: nat, queue: seq<GeneratorUpdate>, unsent: seq<GeneratorUpdate>)

  datatype Network = Network(
    links: seq<Link>, i: nat, reports: seq<IntervalReport>, gone: seq<Handle>, crashed: Option<nat>)

  datatype Event =
    | Arrive(link: nat)   // the next update of a link enters its channel
    | Poll                // the loop gets what it waits for

  function WholeStream(l: Link): Handle {
    Handle(l.address, l.queue + l.unsent)
  }

  function WholeStreams(links: seq<Link>): seq<Handle> {
    seq(|links|, j requires 0 <= j < |links| => WholeStream(links[j]))
  }

  /** The round as it looks when the timing of deliveries is forgotten. */
  function Timeless(n: Network): Round {
    Round(WholeStreams(n.links), n.i, n.reports, n.gone, n.crashed)
  }

  function Occur(n: Network, e: Event): Option<Network> {
    match e
    case Arrive(j) =>
      if j < |n.links| && n.links[j].unsent != [] then
        var l := n.links[j];
        Some(n.(links := n.links[j := l.(queue := l.queue + [l.unsent[0]], unsent := l.unsent[1..])]))
      else None
    case Poll =>
      if n.crashed.Some? || n.i >= |n.links| then None
      else
        var l := n.links[n.i];
        if l.queue == [] then
          // `recv` answers `None` only once nothing can arrive any more.
          if l.unsent != [] then None
          else Some(n.(links := SwapRemove(n.links, n.i), gone := n.gone + [WholeStream(l)], crashed := Some(l.address)))
        else
          match l.queue[0]
          case Interval(report) =>
            Some(n.(links := n.links[n.i := l.(queue := l.queue[1..])], i := n.i + 1, reports := n.reports + [report]))
          case Finished =>
            Some(n.(links := SwapRemove(n.links, n.i), gone := n.gone + [WholeStream(l)]))
  }

  lemma SwapRemoveStreams(links: seq<Link>, i: nat)
    requires i < |links|
    ensures WholeStreams(SwapRemove(links, i)) == SwapRemove(WholeStreams(links), i)
  {
  }

  lemma PollIsPollOne(n: Network)
    requires Occur(n, Poll).Some?
    ensures !Over(Timeless(n)) && Timeless(Occur(n, Poll).value) == PollOne(Timeless(n))
  {
    var l, n' := n.links[n.i], Occur(n, Poll).value;
    SwapRemoveStreams(n.links, n.i);
    if l.queue != [] && l.queue[0].Interval? {
      assert (l.queue + l.unsent)[1..] == l.queue[1..] + l.unsent;
      assert WholeStreams(n'.links) == WholeStreams(n.links)[n.i := WholeStream(n'.links[n.i])];
    }
  }

  lemma ArriveIsInvisible(n: Network, j: nat)
    requires Occur(n, Arrive(j)).Some?
    ensures Timeless(Occur(n, Arrive(j)).value) == Timeless(n)
  {
    var l, n' := n.links[j], Occur(n, Arrive(j)).value;
    assert l.queue + [l.unsent[0]] + l.unsent[1..] == l.queue + l.unsent;
    assert WholeStreams(n'.links) == WholeStreams(n.links);
  }

  function History(n: Network, events: seq<Event>): Option<Network>
    decreases |events|
  {
    if events == [] then Some(n)
    else
      match Occur(n, events[0])
      case None => None
      case Some(n') => History(n', events[1..])
  }

  /**
   Whatever the interleaving of arrivals and polls, a round that is over comes to what the streams
   alone decide.
   */
  lemma {:induction false} TimingIsInvisible(n: Network, events: seq<Event>)
    requires |n.reports| == n.i <= |n.links|
    requires History(n, events).Some? && Over(Timeless(History(n, events).value))
    ensures Timeless(History(n, events).value) == PollAll(Timeless(n))
    decreases |events|
  {
    if events != [] {
      var n' := Occur(n, events[0]).value;
      if events[0] == Poll {
        PollIsPollOne(n);
        hide Timeless, Occur, Over;
        TimingIsInvisible(n', events[1..]);
      } else {
        ArriveIsInvisible(n, events[0].link);
        hide Timeless, Over;
        TimingIsInvisible(n', events[1..]);
      }
    }
  }

  /** A round never gets stuck: while it is not over, a poll or an arrival is possible. */
  lemma RoundsDoNotStall(n: Network)
    requires !Over(Timeless(n))
    ensures Occur(n, Poll).Some? || Occur(n, Arrive(n.i)).Some?
  {
  }

  // The same for a whole collection, in which updates also arrive while earlier rounds are merged.

  /** A collection under way: the merged reports so far, and the outcome once there is one. */
  datatype Gathering = Gathering(net: Network, merged: seq<IntervalReport>, end: Option<Outcome>)

  datatype Occurrence = Happens(event: Event) | RoundEnds

  predicate Sane(n: Network) {
    |n.reports| == n.i <= |n.links|
  }

  /** One event of the round under way, or the end of a round that is over. */
  function Proceed(g: Gathering, o: Occurrence): Option<Gathering> {
    if g.end.Some? || !Sane(g.net) then None
    else
      match o
      case Happens(e) =>
        (match Occur(g.net, e)
         case None => None
         case Some(n) => Some(g.(net := n)))
      case RoundEnds =>
        if !Over(Timeless(g.net)) then None
        else
          match Conclude(Timeless(g.net))
          case Merged(report) => Some(Gathering(Network(g.net.links, 0, [], [], None), g.merged + [report], None))
          case outcome => Some(g.(end := Some(outcome)))
  }

  function Unfold(g: Gathering, occurrences: seq<Occurrence>): Option<Gathering>
    decreases |occurrences|
  {
    if occurrences == [] then Some(g)
    else
      match Proceed(g, occurrences[0])
      case None => None
      case Some(g') => Unfold(g', occurrences[1..])
  }

  /** What the collection will have come to, as far as the streams decide it. */
  ghost function Prospect(g: Gathering): (seq<IntervalReport>, Outcome)
    requires Sane(g.net)
  {
    if g.end.Some? then (g.merged, g.end.value)
    else
      var r := PollAll(Timeless(g.net));
      match Conclude(r)
      case Merged(report) => (g.merged + [report] + Rounds(r.handles).0, Rounds(r.handles).1)
      case outcome => (g.merged, outcome)
  }

  lemma EventKeepsProspect(g: Gathering, e: Event)
    requires Sane(g.net) && Proceed(g, Happens(e)).Some?
    ensures Sane(Proceed(g, Happens(e)).value.net)
    ensures Prospect(Proceed(g, Happens(e)).value) == Prospect(g)
  {
    var n' := Occur(g.net, e).value;
    if e == Poll {
      PollIsPollOne(g.net);
      hide Occur;
      assert PollAll(Timeless(g.net)) == PollAll(Timeless(n'));
    } else {
      ArriveIsInvisible(g.net, e.link);
    }
  }

  lemma RoundEndKeepsProspect(g: Gathering)
    requires Sane(g.net) && Proceed(g, RoundEnds).Some?
    ensures Sane(Proceed(g, RoundEnds).value.net)
    ensures Prospect(Proceed(g, RoundEnds).value) == Prospect(g)
  {
    hide Rounds, Occur;
    var r := Timeless(g.net);
    assert PollAll(r) == r;
    var o := Conclude(r);
    if o.Merged? {
      var g' := Proceed(g, RoundEnds).value;
      assert Timeless(g'.net) == Begin(r.handles);
      RoundsUnfold(r.handles);
      hide CollectRound, PollAll, Conclude;
      var next := CollectRound(r.handles).1;
      if next.Merged? {
        assert g.merged + [o.report] + ([next.report] + Rounds(CollectRound(r.handles).0).0)
            == g.merged + [o.report] + [next.report] + Rounds(CollectRound(r.handles).0).0;
      } else {
        assert g.merged + [o.report] + [] == g.merged + [o.report];
      }
    }
  }

  lemma RoundsUnfold(handles: seq<Handle>)
    ensures var (after, o) := CollectRound(handles);
            Rounds(handles) == if o.Merged? then ([o.report] + Rounds(after).0, Rounds(after).1) else ([], o)
  {
    hide CollectRound, Backlog;
    RoundShrinksBacklog(handles);
  }

  /**
   Whatever the interleaving, over all rounds: a collection that has ended has the reports and the
   outcome that the streams alone decide.
   */
  lemma {:induction false} TimingOfCollectionIsInvisible(g: Gathering, occurrences: seq<Occurrence>)
    requires Sane(g.net) && Unfold(g, occurrences).Some? && Unfold(g, occurrences).value.end.Some?
    ensures var last := Unfold(g, occurrences).value; (last.merged, last.end.value) == Prospect(g)
    decreases |occurrences|
  {
    hide Prospect;
    if occurrences == [] {
      EndedProspect(g);
    } else {
      if occurrences[0].RoundEnds? {
        RoundEndKeepsProspect(g);
      } else {
        EventKeepsProspect(g, occurrences[0].event);
      }
      hide Proceed;
      TimingOfCollectionIsInvisible(Proceed(g, occurrences[0]).value, occurrences[1..]);
    }
  }

  lemma EndedProspect(g: Gathering)
    requires Sane(g.net) && g.end.Some?
    ensures Prospect(g) == (g.merged, g.end.value)
  {
  }

  /** In particular, from the start it comes to what the rounds of the whole streams come to. */
  lemma CollectionFollowsStreams(links: seq<Link>, occurrences: seq<Occurrence>)
    requires var start := Gathering(Network(links, 0, [], [], None), [], None);
             Unfold(start, occurrences).Some? && Unfold(start, occurrences).value.end.Some?
    ensures var last := Unfold(Gathering(Network(links, 0, [], [], None), [], None), occurrences).value;
            (last.merged, last.end.value) == Rounds(WholeStreams(links))
  {
    var start := Gathering(Network(links, 0, [], [], None), [], None);
    TimingOfCollectionIsInvisible(start, occurrences);
    var streams := WholeStreams(links);
    assert Timeless(start.net) == Begin(streams);
    RoundsUnfold(streams);
    hide Rounds;
    var (after, o) := CollectRound(streams);
    if o.Merged? {
      assert [] + [o.report] + Rounds(after).0 == [o.report] + Rounds(after).0;
    }
  }

  // ---------------------------------------------------------------- the collecting loop

  datatype CollectOutcome = AllCollected | CollectFailed(error: CollectError) | PersistFailed

  class Collector {
    var handles: seq<Handle>

    constructor (handles: seq<Handle>)
      ensures this.handles == handles
    {
      this.handles := handles;
    }

    /** One call: the loop of the program computes what the round comes to. */
    method CollectReports() returns (outcome: Outcome)
      modifies this
      ensures (handles, outcome) == CollectRound(old(handles))
    {
      hide LoadLevels, LatestBatch, Sum, Statistics;
      ghost var before := handles;
      if handles == [] {
        return Exhausted;
      }
      var reports: seq<IntervalReport> := [];
      var i := 0;
      ghost var gone: seq<Handle> := [];
      while i < |handles|
        invariant |reports| == i <= |handles|
        invariant PollAll(Round(handles, i, reports, gone, None)) == PollAll(Begin(before))
        decreases |handles| - i
      {
        var h := handles[i];
        ghost var next := PollOne(Round(handles, i, reports, gone, None));
        if h.pending == [] {
          handles := SwapRemove(handles, i);
          assert next == Round(handles, i, reports, gone + [h], Some(h.address));
          return Broken(InstanceCrashed(h.address));
        }
        match h.pending[0]
        case Interval(report) =>
          handles := handles[i := h.(pending := h.pending[1..])];
          reports := reports + [report];
          i := i + 1;
        case Finished =>
          handles := SwapRemove(handles, i);
          gone := gone + [h];
      }
      if reports == [] {
        return Exhausted;
      }
      var expected := reports[0].targetTime;
      var loadLevel := LoadLevels(reports) % U32;
      var j := 0;
      while j < |reports| && reports[j].targetTime == expected
        invariant 0 <= j <= |reports|
        invariant forall k :: 0 <= k < j ==> reports[k].targetTime == expected
      {
        j := j + 1;
      }
      if j < |reports| {
        FirstOffIsFirst(reports, j);
        return Broken(TimeMismatch(handles[j].address, expected, reports[j].targetTime));
      }
      outcome := Merged(IntervalReport(expected, loadLevel, Sum(Statistics(reports)), LatestBatch(reports)));
    }

    /**
     Collects until the generators are done or something fails. The writer takes `accepted` reports
     and refuses the next; its signal may also be seen before round `signal` is merged. Every report is
     recorded in the summary before it is handed over.
     */
    method CollectAndPersist(accepted: nat, signal: Option<nat>, summary: DropSummary)
      returns (outcome: CollectOutcome, written: seq<IntervalReport>)
      requires summary.Valid() && summary.recorded == []
      modifies this, summary, summary.classifier
      ensures summary.Valid()
      ensures var (reports, end) := Rounds(old(handles));
              LoopEnd(outcome, written, summary.recorded) == LoopEndOf(reports, end, accepted, signal)
    {
      hide CollectRound, Backlog, DropSummary.Valid, LoopEndOf, Rounds;
      written := [];
      ghost var (reports, end) := Rounds(handles);
      while true
        invariant |written| <= accepted && (signal.Some? ==> |written| <= signal.value)
        invariant summary.Valid() && summary.recorded == written
        invariant reports == written + Rounds(handles).0 && end == Rounds(handles).1
        decreases Backlog(handles)
      {
        RoundShrinksBacklog(handles);
        RoundsUnfold(handles);
        ghost var rest := Rounds(handles).0;
        if signal == Some(|written|) {
          SignalFinishes(written, rest, end, accepted);
          return PersistFailed, written;
        }
        var o := CollectReports();
        match o
        case Merged(report) =>
          assert rest == [report] + Rounds(handles).0;
          summary.Record(report);
          if |written| == accepted {
            RefusalFinishes(written, report, Rounds(handles).0, end, signal);
            return PersistFailed, written;
          }
          assert written + [report] + Rounds(handles).0 == reports;
          written := written + [report];
        case Exhausted =>
          EndFinishes(written, end, accepted, signal);
          return AllCollected, written;
        case Broken(e) =>
          EndFinishes(written, end, accepted, signal);
          return CollectFailed(e), written;
      }
    }
  }

  /** How the collecting loop ends: its outcome, what the writer took, and what the summary recorded. */
  datatype LoopEnd = LoopEnd(outcome: CollectOutcome, written: seq<IntervalReport>, recorded: seq<IntervalReport>)

  /** What the loop does with merged reports that `end` as given. */
  ghost function LoopEndOf(reports: seq<IntervalReport>, end: Outcome, accepted: nat, signal: Option<nat>): LoopEnd {
    var cut := if signal.Some? && signal.value <= |reports| then signal.value else |reports| + 1;
    if accepted < cut && accepted < |reports| then LoopEnd(PersistFailed, reports[..accepted], reports[..accepted + 1])
    else if cut <= |reports| then LoopEnd(PersistFailed, reports[..cut], reports[..cut])
    else LoopEnd(OutcomeOf(end), reports, reports)
  }

  /**
   What the end of the loop means: the writer got the first reports, and the summary has the same and, if the
   writer refused one, that one too. All is collected exactly when every generator finished and the writer took
   every report before it failed; an error of the collection is passed on only then too.
   */
  lemma LoopEndMeans(reports: seq<IntervalReport>, end: Outcome, accepted: nat, signal: Option<nat>)
    ensures var r := LoopEndOf(reports, end, accepted, signal);
            var healthy := |reports| <= accepted && (signal.Some? ==> signal.value > |reports|);
            var refused := accepted < |reports| && (signal.Some? ==> signal.value > accepted);
            && r.written <= r.recorded <= reports && |r.written| <= accepted
            && |r.recorded| == |r.written| + (if refused then 1 else 0)
            && (refused ==> |r.written| == accepted) && (!refused && !healthy ==> Some(|r.written|) == signal)
            && (r.outcome == PersistFailed <==> !healthy)
            && (healthy ==> r.written == reports)
            && (healthy && !end.Broken? ==> r.outcome == AllCollected)
            && (healthy && end.Broken? ==> r.outcome == CollectFailed(end.error))
            && (signal.Some? ==> |r.written| <= signal.value)
  {
  }

  lemma SignalFinishes(written: seq<IntervalReport>, rest: seq<IntervalReport>, end: Outcome, accepted: nat)
    requires |written| <= accepted
    ensures LoopEndOf(written + rest, end, accepted, Some(|written|)) == LoopEnd(PersistFailed, written, written)
  {
    assert (written + rest)[..|written|] == written;
  }

  lemma RefusalFinishes(written: seq<IntervalReport>, report: IntervalReport, rest: seq<IntervalReport>,
                        end: Outcome, signal: Option<nat>)
    requires signal.Some? ==> |written| < signal.value
    ensures LoopEndOf(written + ([report] + rest), end, |written|, signal)
         == LoopEnd(PersistFailed, written, written + [report])
  {
    var reports := written + ([report] + rest);
    assert reports[..|written|] == written && reports[..|written| + 1] == written + [report];
  }

  lemma EndFinishes(written: seq<IntervalReport>, end: Outcome, accepted: nat, signal: Option<nat>)
    requires |written| <= accepted && (signal.Some? ==> |written| < signal.value)
    ensures LoopEndOf(written + [], end, accepted, signal) == LoopEnd(OutcomeOf(end), written, written)
  {
    assert written + [] == written;
  }

  function OutcomeOf(end: Outcome): CollectOutcome {
    if end.Broken? then CollectFailed(end.error) else AllCollected
  }

  /**
   Collecting, summarising and writing together. Every persister gets a prefix of the reports that
   the summary recorded, each under the label under which the summary counted it; and if nothing failed,
   the summary is the tally of exactly what each persister wrote as load, and as warm-up.
   */
  method CollectSummariseWrite(collector: Collector, warmupDuration: nat, warmupPause: nat,
                               accepted: nat, signal: Option<nat>, persisters: seq<Persister>)
    returns (outcome: CollectOutcome, summary: DropSummary, after: seq<Persister>, failed: Option<WriteFailure>)
    requires forall p :: p in persisters ==> p.written == []
    modifies collector
    ensures summary.Valid() && |after| == |persisters|
    ensures forall j :: 0 <= j < |after| ==>
              after[j].written <= Labelled(warmupDuration, warmupPause, summary.recorded)
    ensures outcome == AllCollected && failed == None ==>
              && summary.recorded == Rounds(old(collector.handles)).0
              && forall j :: 0 <= j < |after| ==>
                   && summary.load == Tally(ResultsLabelled(after[j].written, true))
                   && summary.warmup == Tally(ResultsLabelled(after[j].written, false))
  {
    hide Tally, Rounds, Labelled;
    summary := new DropSummary(warmupDuration, warmupPause);
    var written;
    outcome, written := collector.CollectAndPersist(accepted, signal, summary);
    var classifier := new PhaseClassifier(warmupDuration, warmupPause);
    after, failed := WriterLoop(written, classifier, persisters);
    LabelledPrefix(warmupDuration, warmupPause, written, summary.recorded);
    forall j | 0 <= j < |after| ensures after[j].written <= Labelled(warmupDuration, warmupPause, summary.recorded) {
      var n :=
        if failed == None then |written|
        else failed.value.round + if failed.value.NotTaken? && j < failed.value.persister then 1 else 0;
      assert WroteFirst(after[j], warmupDuration, warmupPause, written, n);
      LabelledWhole(warmupDuration, warmupPause, written);
    }
    SummaryAgreesWithWriter(warmupDuration, warmupPause, summary.recorded, true);
    SummaryAgreesWithWriter(warmupDuration, warmupPause, summary.recorded, false);
    assert failed == None ==> forall j :: 0 <= j < |after| ==> after[j].written == Labelled(warmupDuration, warmupPause, written) by {
      LabelledWhole(warmupDuration, warmupPause, written);
    }
  }

  lemma LabelledPrefix(w: nat, p: nat, some: seq<IntervalReport>, all: seq<IntervalReport>)
    requires some <= all
    ensures Labelled(w, p, some) <= Labelled(w, p, all)
  {
  }

  lemma LabelledWhole(w: nat, p: nat, reports: seq<IntervalReport>)
    ensures |Labelled(w, p, reports)| == |reports|
    ensures Labelled(w, p, reports)[..|reports|] == Labelled(w, p, reports)
  {
  }

  lemma FirstOffIsFirst(reports: seq<IntervalReport>, j: nat)
    requires j < |reports| && reports[j].targetTime != reports[0].targetTime
    requires forall k :: 0 <= k < j ==> reports[k].targetTime == reports[0].targetTime
    ensures !Uniform(reports) && FirstOff(reports, 0) == j
  {
    var found := FirstOff(reports, 0);
  }
}
