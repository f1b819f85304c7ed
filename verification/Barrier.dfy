/**
 Connect, configure, start: the orchestrator's barriers and the generators' side of them, for any
 number of generators, any interleaving and any faults (src/orchestrator/runner.rs,
 src/orchestrator/phases/configure.rs, src/orchestrator/phases/start.rs,
 src/load_generator/phases/configure.rs, src/load_generator/phases/ready.rs).
 */
module Barrier {
  import opened Wrappers

  datatype Message = Config | AbortConfig | Ready | SetupFailed | Aborted | Start | AbortRun

  // ---------------------------------------------------------------- connections

  /** Every message takes some bytes; how many is no matter. */
  type Sizes = Message -> nat

  ghost predicate Positive(size: Sizes) {
    forall m :: size(m) > 0
  }

  /**
   One direction of a connection: the messages that were written and not yet decoded, and how many
   of their bytes the reader's framer has taken out of the socket.
   */
  datatype Pipe = Pipe(unread: seq<Message>, buffered: nat)

  const Clear := Pipe([], 0)

  function Bytes(size: Sizes, ms: seq<Message>): nat {
    if ms == [] then 0 else size(ms[0]) + Bytes(size, ms[1..])
  }

  function Write(p: Pipe, m: Message): Pipe {
    p.(unread := p.unread + [m])
  }

  /** The framer reads: now `n` bytes are in its buffer. */
  function Fill(size: Sizes, p: Pipe, n: nat): Option<Pipe> {
    if p.buffered < n <= Bytes(size, p.unread) then Some(p.(buffered := n)) else None
  }

  function Decode(size: Sizes, p: Pipe): Option<(Message, Pipe)> {
    if p.unread != [] && p.buffered >= size(p.unread[0])
    then Some((p.unread[0], Pipe(p.unread[1..], p.buffered - size(p.unread[0])))) else None
  }

  // ---------------------------------------------------------------- one generator, seen from both ends

  /** How far the orchestrator is with one generator. */
  datatype Orchestrator =
    | Connecting
    | ConnectFailed
    | Connected
    | Configuring       // the config is sent, the response is awaited
    | ConfigureFailed
    | ReadyDecoded      // about to hand the stream to a new framer
    | Configured
    | AbortPending      // the abort is sent, the response is awaited
    | AbortDone
    | StartSent
    | AbortRunSent
    | CommandFailed

  datatype Generator =
    | AwaitConfig
    | Preparing         // sets up its virtual users
    | ReadySent         // about to hand the stream to a new framer
    | AwaitCommand
    | Running
    | Stopped

  /**
   The last three are history: whether `Ready` was written, how many bytes framers took along, and
   whether the generator has read `AbortRun`.
   */
  datatype Link = Link(
    orch: Orchestrator, gen: Generator, toGen: Pipe, toOrch: Pipe, saidReady: bool, lost: nat, aborted: bool)

  const Unconnected := Link(Connecting, AwaitConfig, Clear, Clear, false, 0, false)

  /** `GaveUp`: a failure to send `AbortRun` has ended the loop over the ready generators. */
  datatype Stage = ConnectStage | AbortConnected | ConfigureStage | AbortConfigured | GaveUp | StartStage

  /**
   What can happen on one link. `arrives` says whether a message whose sending was reported as
   failed gets through all the same.
   */
  datatype LinkEvent =
    | ConnectOk
    | ConnectFails
    | SendConfig
    | SendConfigFails(arrives: bool)
    | OrchestratorReads(n: nat)
    | OrchestratorDecodes
    | OrchestratorHandsOver
    | OrchestratorReceivesNothing
    | SendAbortConfig
    | SendAbortConfigFails(arrives: bool)
    | SendStart
    | SendStartFails(arrives: bool)
    | SendAbortRun
    | SendAbortRunFails(arrives: bool)
    | GeneratorReads(n: nat)
    | GeneratorDecodes(answerArrives: bool)
    | SetupSucceeds(arrives: bool, reported: bool)
    | SetupFails(arrives: bool)
    | GeneratorHandsOver
    | GeneratorFails

  function WriteIf(p: Pipe, m: Message, arrives: bool): Pipe {
    if arrives then Write(p, m) else p
  }

  function OrchestratorStep(size: Sizes, stage: Stage, l: Link, e: LinkEvent): Option<Link> {
    match e
    case ConnectOk => if stage == ConnectStage && l.orch == Connecting then Some(l.(orch := Connected)) else None
    case ConnectFails => if stage == ConnectStage && l.orch == Connecting then Some(l.(orch := ConnectFailed)) else None
    case SendConfig =>
      if stage == ConfigureStage && l.orch == Connected then Some(l.(orch := Configuring, toGen := Write(l.toGen, Config))) else None
    case SendConfigFails(arrives) =>
      if stage == ConfigureStage && l.orch == Connected
      then Some(l.(orch := ConfigureFailed, toGen := WriteIf(l.toGen, Config, arrives))) else None
    case SendAbortConfig =>
      if stage == AbortConnected && l.orch == Connected
      then Some(l.(orch := AbortPending, toGen := Write(l.toGen, AbortConfig))) else None
    case SendAbortConfigFails(arrives) =>
      if stage == AbortConnected && l.orch == Connected
      then Some(l.(orch := AbortDone, toGen := WriteIf(l.toGen, AbortConfig, arrives))) else None
    case SendStart =>
      if stage == StartStage && l.orch == Configured then Some(l.(orch := StartSent, toGen := Write(l.toGen, Start))) else None
    case SendStartFails(arrives) =>
      if stage == StartStage && l.orch == Configured
      then Some(l.(orch := CommandFailed, toGen := WriteIf(l.toGen, Start, arrives))) else None
    case SendAbortRun =>
      if stage == AbortConfigured && l.orch == Configured
      then Some(l.(orch := AbortRunSent, toGen := Write(l.toGen, AbortRun))) else None
    case SendAbortRunFails(arrives) =>
      if stage == AbortConfigured && l.orch == Configured
      then Some(l.(orch := CommandFailed, toGen := WriteIf(l.toGen, AbortRun, arrives))) else None
    case OrchestratorReads(n) =>
      if l.orch == Configuring || l.orch == AbortPending then
        match Fill(size, l.toOrch, n)
        case None => None
        case Some(p) => Some(l.(toOrch := p))
      else None
    case OrchestratorDecodes =>
      if l.orch == Configuring || l.orch == AbortPending then
        match Decode(size, l.toOrch)
        case None => None
        case Some((m, p)) =>
          var next := if l.orch == AbortPending then AbortDone else if m == Ready then ReadyDecoded else ConfigureFailed;
          Some(l.(orch := next, toOrch := p))
      else None
    case OrchestratorReceivesNothing =>
      if l.orch == Configuring then Some(l.(orch := ConfigureFailed))
      else if l.orch == AbortPending then Some(l.(orch := AbortDone))
      else None
    case OrchestratorHandsOver =>
      if l.orch == ReadyDecoded
      then Some(l.(orch := Configured, lost := l.lost + l.toOrch.buffered, toOrch := l.toOrch.(buffered := 0))) else None
    case _ => None
  }

  function GeneratorStep(size: Sizes, l: Link, e: LinkEvent): Option<Link> {
    match e
    case GeneratorReads(n) =>
      if l.gen == AwaitConfig || l.gen == AwaitCommand then
        match Fill(size, l.toGen, n)
        case None => None
        case Some(p) => Some(l.(toGen := p))
      else None
    case GeneratorDecodes(answerArrives) =>
      if l.gen == AwaitConfig || l.gen == AwaitCommand then
        match Decode(size, l.toGen)
        case None => None
        case Some((m, p)) =>
          if l.gen == AwaitCommand
          then Some(l.(gen := if m == Start then Running else Stopped, toGen := p, aborted := m == AbortRun))
          else if m == Config then Some(l.(gen := Preparing, toGen := p))
          else Some(l.(gen := Stopped, toGen := p, toOrch := WriteIf(l.toOrch, Aborted, answerArrives && m == AbortConfig)))
      else None
    case SetupSucceeds(arrives, reported) =>
      if l.gen == Preparing
      then Some(l.(gen := if reported then ReadySent else Stopped,
                   toOrch := WriteIf(l.toOrch, Ready, arrives || reported), saidReady := arrives || reported)) else None
    case SetupFails(arrives) =>
      if l.gen == Preparing then Some(l.(gen := Stopped, toOrch := WriteIf(l.toOrch, SetupFailed, arrives))) else None
    case GeneratorHandsOver =>
      if l.gen == ReadySent
      then Some(l.(gen := AwaitCommand, lost := l.lost + l.toGen.buffered, toGen := l.toGen.(buffered := 0))) else None
    case GeneratorFails => if l.gen != Running then Some(l.(gen := Stopped)) else None
    case _ => None
  }

  predicate ByGenerator(e: LinkEvent) {
    e.GeneratorReads? || e.GeneratorDecodes? || e.SetupSucceeds? || e.SetupFails? || e.GeneratorHandsOver? || e.GeneratorFails?
  }

  function LinkStep(size: Sizes, stage: Stage, l: Link, e: LinkEvent): Option<Link> {
    if ByGenerator(e) then GeneratorStep(size, l, e) else OrchestratorStep(size, stage, l, e)
  }

  // ---------------------------------------------------------------- the whole barrier

  datatype State = State(stage: Stage, links: seq<Link>)

  datatype Action =
    | On(link: nat, event: LinkEvent)
    | AllConnectsJoined
    | AllConfiguresJoined

  function Initial(n: nat): State {
    State(ConnectStage, seq(n, i => Unconnected))
  }

  predicate All(links: seq<Link>, orch: Orchestrator) {
    forall j :: 0 <= j < |links| ==> links[j].orch == orch
  }

  function Apply(size: Sizes, s: State, a: Action): (next: Option<State>)
    ensures next.Some? ==> |next.value.links| == |s.links|
  {
    match a
    case On(j, e) =>
      if j < |s.links| then
        match LinkStep(size, s.stage, s.links[j], e)
        case None => None
        case Some(l) => Some(State(if e.SendAbortRunFails? then GaveUp else s.stage, s.links[j := l]))
      else None
    case AllConnectsJoined =>
      if s.stage == ConnectStage && forall j :: 0 <= j < |s.links| ==> s.links[j].orch != Connecting
      then Some(s.(stage := if All(s.links, Connected) then ConfigureStage else AbortConnected))
      else None
    case AllConfiguresJoined =>
      if s.stage == ConfigureStage && forall j :: 0 <= j < |s.links| ==> s.links[j].orch in {Configured, ConfigureFailed}
      then Some(s.(stage := if All(s.links, Configured) then StartStage else AbortConfigured))
      else None
  }

  function Execute(size: Sizes, n: nat, actions: seq<Action>): (end: Option<State>)
    ensures end.Some? ==> |end.value.links| == n
  {
    if actions == [] then Some(Initial(n))
    else
      match Execute(size, n, actions[..|actions| - 1])
      case None => None
      case Some(s) => Apply(size, s, actions[|actions| - 1])
  }

  // ---------------------------------------------------------------- the invariants

  /** The framer has taken no more than was written. */
  ghost predicate Within(size: Sizes, p: Pipe) {
    p.buffered <= Bytes(size, p.unread)
  }

  /** Until it has answered, a generator reads one message and has written none. */
  ghost predicate GeneratorAlternates(size: Sizes, l: Link) {
    && Within(size, l.toGen)
    && (l.gen == AwaitConfig ==> |l.toGen.unread| <= 1 && l.toOrch == Clear && !l.saidReady)
    && (l.gen == Preparing ==> l.toGen == Clear && l.toOrch == Clear && !l.saidReady)
    && (l.gen == ReadySent ==> l.toGen.buffered == 0)
    && (l.gen == ReadySent || l.gen == AwaitCommand || l.gen == Running ==> l.saidReady)
    && (l.aborted ==> l.gen == Stopped)
  }

  /** Until the command is sent, the orchestrator gets one answer and has sent one message. */
  ghost predicate OrchestratorAlternates(size: Sizes, l: Link) {
    && Within(size, l.toOrch) && |l.toOrch.unread| <= 1
    && (Ready in l.toOrch.unread ==> l.saidReady)
    && (l.orch == Connecting || l.orch == ConnectFailed || l.orch == Connected ==>
          l.toGen == Clear && l.gen in {AwaitConfig, Stopped})
    && (l.orch == ReadyDecoded || l.orch == Configured ==> l.toOrch == Clear && l.saidReady && l.gen != Running)
    && (l.orch in {Configuring, ConfigureFailed, ReadyDecoded, Configured} && l.gen in {ReadySent, AwaitCommand} ==>
          l.toGen == Clear)
    && (l.orch == StartSent || l.orch == AbortRunSent || l.orch == CommandFailed ==> l.saidReady)
    && (Start in l.toGen.unread || l.gen == Running ==> l.orch == StartSent || l.orch == CommandFailed)
    && (AbortRun in l.toGen.unread ==> l.orch == AbortRunSent || l.orch == CommandFailed)
    && (l.orch == Connecting || l.orch == ConnectFailed || l.orch == Connected || l.orch == AbortPending || l.orch == AbortDone ==>
          Config !in l.toGen.unread && l.gen in {AwaitConfig, Stopped} && !l.saidReady)
  }

  ghost predicate LinkInvariant(size: Sizes, l: Link) {
    GeneratorAlternates(size, l) && OrchestratorAlternates(size, l) && l.lost == 0
  }

  /** What the stage allows on a link. */
  ghost predicate StageAllows(stage: Stage, l: Link) {
    match stage
    case ConnectStage => l.orch in {Connecting, ConnectFailed, Connected}
    case AbortConnected => l.orch in {ConnectFailed, Connected, AbortPending, AbortDone}
    case ConfigureStage => l.orch in {Connected, Configuring, ConfigureFailed, ReadyDecoded, Configured}
    case AbortConfigured | GaveUp =>
      l.orch in {ConfigureFailed, Configured, AbortRunSent, CommandFailed} && Start !in l.toGen.unread && l.gen != Running
    case StartStage => l.orch in {Configured, StartSent, CommandFailed} && AbortRun !in l.toGen.unread
  }

  ghost predicate Invariant(size: Sizes, s: State) {
    forall j :: 0 <= j < |s.links| ==> LinkInvariant(size, s.links[j]) && StageAllows(s.stage, s.links[j])
  }

  lemma OneMessageBytes(size: Sizes, ms: seq<Message>)
    requires |ms| <= 1
    ensures ms == [] ==> Bytes(size, ms) == 0
    ensures ms != [] ==> Bytes(size, ms) == size(ms[0]) && ms[1..] == []
  {
  }

  lemma {:induction false} MoreBytes(size: Sizes, ms: seq<Message>, m: Message)
    ensures Bytes(size, ms + [m]) == Bytes(size, ms) + size(m)
  {
    if ms != [] {
      MoreBytes(size, ms[1..], m);
      assert (ms + [m])[1..] == ms[1..] + [m];
    }
  }

  lemma GeneratorDecodeKeeps(size: Sizes, stage: Stage, l: Link, e: LinkEvent)
    requires Positive(size) && LinkInvariant(size, l) && StageAllows(stage, l) && GeneratorStep(size, l, e).Some? && e.GeneratorDecodes?
    ensures LinkInvariant(size, GeneratorStep(size, l, e).value) && StageAllows(stage, GeneratorStep(size, l, e).value)
  {
    if l.gen == AwaitConfig {
      OneMessageBytes(size, l.toGen.unread);
    }
  }

  lemma GeneratorStepKeeps(size: Sizes, stage: Stage, l: Link, e: LinkEvent)
    requires Positive(size) && LinkInvariant(size, l) && StageAllows(stage, l) && GeneratorStep(size, l, e).Some?
    ensures LinkInvariant(size, GeneratorStep(size, l, e).value) && StageAllows(stage, GeneratorStep(size, l, e).value)
  {
    if e.GeneratorDecodes? {
      GeneratorDecodeKeeps(size, stage, l, e);
    } else {
      hide Decode;
      MoreBytes(size, l.toOrch.unread, Ready);
    }
  }

  lemma WriteStaysWithin(size: Sizes, p: Pipe, m: Message)
    requires Within(size, p)
    ensures Within(size, Write(p, m))
  {
    MoreBytes(size, p.unread, m);
  }

  /** The events in which the orchestrator sends something. */
  predicate Sends(e: LinkEvent) {
    e.SendConfig? || e.SendConfigFails? || e.SendAbortConfig? || e.SendAbortConfigFails?
    || e.SendStart? || e.SendStartFails? || e.SendAbortRun? || e.SendAbortRunFails?
  }

  predicate SendsCommand(e: LinkEvent) {
    e.SendStart? || e.SendStartFails? || e.SendAbortRun? || e.SendAbortRunFails?
  }

  lemma OrchestratorCommandKeeps(size: Sizes, stage: Stage, l: Link, e: LinkEvent)
    requires LinkInvariant(size, l) && StageAllows(stage, l) && OrchestratorStep(size, stage, l, e).Some? && SendsCommand(e)
    ensures LinkInvariant(size, OrchestratorStep(size, stage, l, e).value) && StageAllows(stage, OrchestratorStep(size, stage, l, e).value)
  {
    hide Bytes, Within, Fill, Decode;
    forall m ensures Within(size, Write(l.toGen, m)) {
      WriteStaysWithin(size, l.toGen, m);
    }
  }

  lemma OrchestratorConfigKeeps(size: Sizes, stage: Stage, l: Link, e: LinkEvent)
    requires LinkInvariant(size, l) && StageAllows(stage, l) && OrchestratorStep(size, stage, l, e).Some? && Sends(e) && !SendsCommand(e)
    ensures LinkInvariant(size, OrchestratorStep(size, stage, l, e).value) && StageAllows(stage, OrchestratorStep(size, stage, l, e).value)
  {
    hide Bytes, Within, Fill, Decode;
    forall m ensures Within(size, Write(l.toGen, m)) {
      WriteStaysWithin(size, l.toGen, m);
    }
  }

  lemma OrchestratorSendKeeps(size: Sizes, stage: Stage, l: Link, e: LinkEvent)
    requires LinkInvariant(size, l) && StageAllows(stage, l) && OrchestratorStep(size, stage, l, e).Some? && Sends(e)
    ensures LinkInvariant(size, OrchestratorStep(size, stage, l, e).value) && StageAllows(stage, OrchestratorStep(size, stage, l, e).value)
  {
    hide LinkInvariant, StageAllows, OrchestratorStep;
    if SendsCommand(e) {
      OrchestratorCommandKeeps(size, stage, l, e);
    } else {
      OrchestratorConfigKeeps(size, stage, l, e);
    }
  }

  lemma OrchestratorDecodeKeeps(size: Sizes, stage: Stage, l: Link)
    requires LinkInvariant(size, l) && StageAllows(stage, l) && OrchestratorStep(size, stage, l, OrchestratorDecodes).Some?
    ensures LinkInvariant(size, OrchestratorStep(size, stage, l, OrchestratorDecodes).value)
    ensures StageAllows(stage, OrchestratorStep(size, stage, l, OrchestratorDecodes).value)
  {
    OneMessageBytes(size, l.toOrch.unread);
  }

  lemma OrchestratorStepKeeps(size: Sizes, stage: Stage, l: Link, e: LinkEvent)
    requires Positive(size) && LinkInvariant(size, l) && StageAllows(stage, l) && OrchestratorStep(size, stage, l, e).Some?
    ensures LinkInvariant(size, OrchestratorStep(size, stage, l, e).value) && StageAllows(stage, OrchestratorStep(size, stage, l, e).value)
  {
    if Sends(e) {
      OrchestratorSendKeeps(size, stage, l, e);
    } else if e.OrchestratorDecodes? {
      OrchestratorDecodeKeeps(size, stage, l);
    } else {
      hide Decode;
    }
  }

  lemma InvariantStep(size: Sizes, s: State, a: Action)
    requires Positive(size) && Invariant(size, s) && Apply(size, s, a).Some?
    ensures Invariant(size, Apply(size, s, a).value)
  {
    if a.On? {
      LinkStepKeeps(size, s, a.link, a.event);
    } else {
      hide GeneratorAlternates;
      var s' := Apply(size, s, a).value;
      forall j | 0 <= j < |s.links| ensures LinkInvariant(size, s'.links[j]) && StageAllows(s'.stage, s'.links[j]) {
        assert LinkInvariant(size, s.links[j]) && StageAllows(s.stage, s.links[j]);
      }
    }
  }

  lemma LinkStepKeeps(size: Sizes, s: State, j: nat, e: LinkEvent)
    requires Positive(size) && Invariant(size, s) && Apply(size, s, On(j, e)).Some?
    ensures Invariant(size, Apply(size, s, On(j, e)).value)
  {
    hide LinkInvariant, StageAllows, OrchestratorStep, GeneratorStep;
    var l := s.links[j];
    assert LinkInvariant(size, l) && StageAllows(s.stage, l);
    if ByGenerator(e) {
      GeneratorStepKeeps(size, s.stage, l, e);
    } else {
      OrchestratorStepKeeps(size, s.stage, l, e);
    }
    if e.SendAbortRunFails? {
      GivingUpWasAborting(size, s.stage, l, e);
    }
    GivingUpAllowsTheSame();
  }

  lemma GivingUpAllowsTheSame()
    ensures forall l :: StageAllows(AbortConfigured, l) == StageAllows(GaveUp, l)
  {
  }

  /** Every run keeps the invariants, whatever fails and whenever. */
  lemma {:induction false} EveryRunKeepsInvariant(size: Sizes, n: nat, actions: seq<Action>)
    requires Positive(size) && Execute(size, n, actions).Some?
    ensures Invariant(size, Execute(size, n, actions).value)
  {
    if actions != [] {
      var init := actions[..|actions| - 1];
      EveryRunKeepsInvariant(size, n, init);
      InvariantStep(size, Execute(size, n, init).value, actions[|actions| - 1]);
      hide Invariant, LinkStep;
    }
  }

  // ---------------------------------------------------------------- what the barriers guarantee

  /** A generator runs, or is about to, only if every generator has answered `Ready`. */
  lemma StartMeansAllReady(size: Sizes, n: nat, actions: seq<Action>, j: nat, k: nat)
    requires Positive(size) && Execute(size, n, actions).Some? && j < n && k < n
    requires var l := Execute(size, n, actions).value.links[j]; l.gen == Running || Start in l.toGen.unread
    ensures var s := Execute(size, n, actions).value; s.stage == StartStage && s.links[k].saidReady
  {
    EveryRunKeepsInvariant(size, n, actions);
    hide Execute;
    var s := Execute(size, n, actions).value;
    assert LinkInvariant(size, s.links[j]) && StageAllows(s.stage, s.links[j]);
    assert LinkInvariant(size, s.links[k]) && StageAllows(s.stage, s.links[k]);
  }

  /** After a failed connection no generator is ever configured: none prepares users, none is ready. */
  lemma NoConfigAfterConnectFailure(size: Sizes, n: nat, actions: seq<Action>, j: nat, k: nat)
    requires Positive(size) && Execute(size, n, actions).Some? && j < n && k < n
    requires Execute(size, n, actions).value.links[j].orch == ConnectFailed
    ensures var l := Execute(size, n, actions).value.links[k];
            Config !in l.toGen.unread && l.gen in {AwaitConfig, Stopped} && !l.saidReady
  {
    EveryRunKeepsInvariant(size, n, actions);
    hide Execute;
    var s := Execute(size, n, actions).value;
    assert LinkInvariant(size, s.links[j]) && StageAllows(s.stage, s.links[j]);
    assert LinkInvariant(size, s.links[k]) && StageAllows(s.stage, s.links[k]);
  }

  /** Handing a stream from one framer to the next never loses a byte. */
  lemma HandoffsLoseNothing(size: Sizes, n: nat, actions: seq<Action>, j: nat)
    requires Positive(size) && Execute(size, n, actions).Some? && j < n
    ensures var l := Execute(size, n, actions).value.links[j];
            && l.lost == 0
            && (l.orch == ReadyDecoded ==> l.toOrch.buffered == 0) && (l.gen == ReadySent ==> l.toGen.buffered == 0)
  {
    EveryRunKeepsInvariant(size, n, actions);
    hide Execute;
    var s := Execute(size, n, actions).value;
    assert LinkInvariant(size, s.links[j]);
  }

  /** Start and abort exclude each other: if some generator is told to start, none is told to abort. */
  lemma StartExcludesAbort(size: Sizes, n: nat, actions: seq<Action>, j: nat, k: nat)
    requires Positive(size) && Execute(size, n, actions).Some? && j < n && k < n
    requires var l := Execute(size, n, actions).value.links[j]; l.gen == Running || Start in l.toGen.unread
    ensures var l := Execute(size, n, actions).value.links[k]; AbortRun !in l.toGen.unread && l.orch != AbortRunSent
  {
    StartMeansAllReady(size, n, actions, j, k);
    EveryRunKeepsInvariant(size, n, actions);
    hide Execute;
    var s := Execute(size, n, actions).value;
    assert StageAllows(s.stage, s.links[k]);
  }

  // ---------------------------------------------------------------- who is told to start, who to abort

  /** The command has been read, or waits to be read. */
  ghost predicate ToldToStart(l: Link) {
    l.gen == Running || Start in l.toGen.unread
  }

  ghost predicate ToldToAbort(l: Link) {
    l.aborted || AbortRun in l.toGen.unread
  }

  /** Some send of the command to generator `j` failed and did not get through either. */
  ghost predicate StartLost(actions: seq<Action>, j: nat) {
    On(j, SendStartFails(false)) in actions
  }

  ghost predicate AbortLost(actions: seq<Action>, j: nat) {
    On(j, SendAbortRunFails(false)) in actions
  }

  /** What the state of a link says about the commands written to it. */
  ghost predicate Telling(stage: Stage, l: Link, startLost: bool, abortLost: bool) {
    && (l.orch == StartSent ==> ToldToStart(l) && !startLost)
    && (l.orch == AbortRunSent ==> ToldToAbort(l) && !abortLost)
    && (l.orch == CommandFailed && stage == StartStage ==> (ToldToStart(l) <==> !startLost))
    && (l.orch == CommandFailed && stage != StartStage ==> stage == GaveUp && (ToldToAbort(l) <==> !abortLost))
    && (l.orch !in {StartSent, AbortRunSent, CommandFailed} ==> !startLost && !abortLost && !ToldToAbort(l))
    && (startLost ==> stage == StartStage) && (abortLost ==> stage == GaveUp)
  }

  lemma TellingOrchestrator(size: Sizes, stage: Stage, l: Link, e: LinkEvent, startLost: bool, abortLost: bool)
    requires LinkInvariant(size, l) && StageAllows(stage, l) && Telling(stage, l, startLost, abortLost)
    requires OrchestratorStep(size, stage, l, e).Some?
    ensures Telling(if e.SendAbortRunFails? then GaveUp else stage, OrchestratorStep(size, stage, l, e).value,
                    startLost || e == SendStartFails(false), abortLost || e == SendAbortRunFails(false))
  {
    hide GeneratorAlternates, Bytes, Fill, Decode;
  }

  lemma TellingGenerator(size: Sizes, stage: Stage, l: Link, e: LinkEvent, startLost: bool, abortLost: bool)
    requires LinkInvariant(size, l) && StageAllows(stage, l) && Telling(stage, l, startLost, abortLost)
    requires GeneratorStep(size, l, e).Some?
    ensures Telling(stage, GeneratorStep(size, l, e).value, startLost, abortLost)
  {
    if e.GeneratorDecodes? {
      assert l.toGen.unread == [l.toGen.unread[0]] + l.toGen.unread[1..];
    }
  }

  /** Other links only see the stage change. */
  lemma TellingElsewhere(stage: Stage, stage': Stage, l: Link, startLost: bool, abortLost: bool)
    requires Telling(stage, l, startLost, abortLost) && StageAllows(stage, l)
    requires stage' == stage || (stage == AbortConfigured && stage' == GaveUp) || stage in {ConnectStage, ConfigureStage}
    ensures Telling(stage', l, startLost, abortLost)
  {
  }

  ghost predicate AllTelling(s: State, actions: seq<Action>) {
    forall j :: 0 <= j < |s.links| ==> Telling(s.stage, s.links[j], StartLost(actions, j), AbortLost(actions, j))
  }

  lemma TellingStep(size: Sizes, s: State, actions: seq<Action>, a: Action)
    requires Positive(size) && Invariant(size, s) && AllTelling(s, actions) && Apply(size, s, a).Some?
    ensures AllTelling(Apply(size, s, a).value, actions + [a])
  {
    hide Telling, LinkInvariant, StageAllows, OrchestratorStep, GeneratorStep;
    var s' := Apply(size, s, a).value;
    forall j | 0 <= j < |s.links|
      ensures Telling(s'.stage, s'.links[j], StartLost(actions + [a], j), AbortLost(actions + [a], j))
    {
      assert LinkInvariant(size, s.links[j]) && StageAllows(s.stage, s.links[j]);
      if a.On? && a.link == j {
        if ByGenerator(a.event) {
          TellingGenerator(size, s.stage, s.links[j], a.event, StartLost(actions, j), AbortLost(actions, j));
        } else {
          TellingOrchestrator(size, s.stage, s.links[j], a.event, StartLost(actions, j), AbortLost(actions, j));
        }
      } else {
        if a.On? && a.event.SendAbortRunFails? {
          GivingUpWasAborting(size, s.stage, s.links[a.link], a.event);
        }
        TellingElsewhere(s.stage, s'.stage, s.links[j], StartLost(actions, j), AbortLost(actions, j));
      }
    }
  }

  lemma GivingUpWasAborting(size: Sizes, stage: Stage, l: Link, e: LinkEvent)
    requires LinkStep(size, stage, l, e).Some? && e.SendAbortRunFails?
    ensures stage == AbortConfigured
  {
  }

  lemma {:induction false} EveryRunTells(size: Sizes, n: nat, actions: seq<Action>)
    requires Positive(size) && Execute(size, n, actions).Some?
    ensures AllTelling(Execute(size, n, actions).value, actions)
  {
    hide Apply, Invariant;
    if actions != [] {
      var init, a := actions[..|actions| - 1], actions[|actions| - 1];
      EveryRunTells(size, n, init);
      EveryRunKeepsInvariant(size, n, init);
      TellingStep(size, Execute(size, n, init).value, init, a);
      assert init + [a] == actions;
    }
  }

  lemma LinkToldToStartIff(size: Sizes, l: Link, startLost: bool, abortLost: bool)
    requires LinkInvariant(size, l) && StageAllows(StartStage, l) && Telling(StartStage, l, startLost, abortLost)
    ensures ToldToStart(l) <==> l.orch != Configured && !startLost
  {
    hide Bytes, Fill, Decode;
  }

  /**
   All generators are told to start exactly when every start has been attempted and no failed start also
   failed to arrive. A start may stay unattempted: the loop that joins the senders ends at the first failure.
   */
  lemma AllToldToStartIff(size: Sizes, n: nat, actions: seq<Action>)
    requires Positive(size) && Execute(size, n, actions).Some?
    requires Execute(size, n, actions).value.stage == StartStage
    ensures var s := Execute(size, n, actions).value;
            (forall j :: 0 <= j < n ==> ToldToStart(s.links[j]))
            <==> forall j :: 0 <= j < n ==> s.links[j].orch != Configured && !StartLost(actions, j)
  {
    EveryRunTells(size, n, actions);
    EveryRunKeepsInvariant(size, n, actions);
    hide Execute, StartLost, AbortLost, ToldToStart, Telling, LinkInvariant, StageAllows;
    var s := Execute(size, n, actions).value;
    forall j | 0 <= j < n ensures ToldToStart(s.links[j]) <==> s.links[j].orch != Configured && !StartLost(actions, j) {
      LinkToldToStartIff(size, s.links[j], StartLost(actions, j), AbortLost(actions, j));
    }
  }

  /**
   The abort reaches every ready generator exactly when the loop got to all of them and no failed abort
   also failed to arrive: the first failure ends the loop.
   */
  lemma AllToldToAbortIff(size: Sizes, n: nat, actions: seq<Action>)
    requires Positive(size) && Execute(size, n, actions).Some?
    requires Execute(size, n, actions).value.stage in {AbortConfigured, GaveUp}
    ensures var s := Execute(size, n, actions).value;
            (forall j :: 0 <= j < n && s.links[j].orch != ConfigureFailed ==> ToldToAbort(s.links[j]))
            <==> forall j :: 0 <= j < n ==> s.links[j].orch != Configured && !AbortLost(actions, j)
  {
    EveryRunTells(size, n, actions);
    EveryRunKeepsInvariant(size, n, actions);
    hide Execute, AbortLost, ToldToAbort;
    var s := Execute(size, n, actions).value;
    forall j | 0 <= j < n
      ensures s.links[j].orch != ConfigureFailed ==>
                (ToldToAbort(s.links[j]) <==> s.links[j].orch != Configured && !AbortLost(actions, j))
      ensures s.links[j].orch == ConfigureFailed ==> !AbortLost(actions, j)
    {
      assert Telling(s.stage, s.links[j], StartLost(actions, j), AbortLost(actions, j));
      assert LinkInvariant(size, s.links[j]) && StageAllows(s.stage, s.links[j]);
    }
  }

  // ---------------------------------------------------------------- what the connections carry

  function If(m: Message, arrives: bool): seq<Message> {
    if arrives then [m] else []
  }

  /** What reaches the socket of the generator when the orchestrator does this. */
  function Tells(e: LinkEvent): seq<Message> {
    match e
    case SendConfig => [Config]
    case SendConfigFails(arrives) => If(Config, arrives)
    case SendAbortConfig => [AbortConfig]
    case SendAbortConfigFails(arrives) => If(AbortConfig, arrives)
    case SendStart => [Start]
    case SendStartFails(arrives) => If(Start, arrives)
    case SendAbortRun => [AbortRun]
    case SendAbortRunFails(arrives) => If(AbortRun, arrives)
    case _ => []
  }

  /** What reaches the socket of the orchestrator; `heard` is the first message, if this reads it. */
  function Answers(e: LinkEvent, heard: Option<Message>): seq<Message> {
    match e
    case SetupSucceeds(arrives, reported) => If(Ready, arrives || reported)
    case SetupFails(arrives) => If(SetupFailed, arrives)
    case GeneratorDecodes(answerArrives) => If(Aborted, heard == Some(AbortConfig) && answerArrives)
    case _ => []
  }

  /** The messages that a run sent to generator `j`, how many it has read, its answers, and how many of these were read. */
  datatype Exchange = Exchange(told: seq<Message>, heard: nat, answered: seq<Message>, understood: nat)

  function Continue(x: Exchange, e: LinkEvent): Exchange {
    var first := if x.heard == 0 && x.told != [] then Some(x.told[0]) else None;
    Exchange(x.told + Tells(e), x.heard + (if e.GeneratorDecodes? then 1 else 0),
             x.answered + Answers(e, first), x.understood + (if e.OrchestratorDecodes? then 1 else 0))
  }

  function ExchangeOf(actions: seq<Action>, j: nat): Exchange {
    if actions == [] then Exchange([], 0, [], 0)
    else
      var x, a := ExchangeOf(actions[..|actions| - 1], j), actions[|actions| - 1];
      if a.On? && a.link == j then Continue(x, a.event) else x
  }

  /** What is under way on the link is what was sent and not yet read, in order. */
  ghost predicate Carries(l: Link, x: Exchange) {
    && x.heard <= |x.told| && l.toGen.unread == x.told[x.heard..]
    && x.understood <= |x.answered| && l.toOrch.unread == x.answered[x.understood..]
    && (l.gen == AwaitConfig ==> x.heard == 0)
    && (l.gen in {Preparing, ReadySent, AwaitCommand} ==> x.heard == 1)
  }

  /** What is left when, perhaps, the first message has been read. */
  function AfterReading(unread: seq<Message>, one: bool): seq<Message> {
    if one && unread != [] then unread[1..] else unread
  }

  lemma OrchestratorMoves(size: Sizes, stage: Stage, l: Link, e: LinkEvent)
    requires OrchestratorStep(size, stage, l, e).Some? && !ByGenerator(e)
    ensures var l' := OrchestratorStep(size, stage, l, e).value;
            && l'.gen == l.gen && l'.toGen.unread == l.toGen.unread + Tells(e)
            && l'.toOrch.unread == AfterReading(l.toOrch.unread, e.OrchestratorDecodes?)
            && (e.OrchestratorDecodes? ==> l.toOrch.unread != [])
  {
    hide Bytes;
  }

  /** A queue from which, perhaps, one message is taken, and to which more are added. */
  lemma QueueMoves(sent: seq<Message>, read: nat, one: bool, more: seq<Message>)
    requires read <= |sent| && (one ==> read < |sent|)
    ensures var read' := read + if one then 1 else 0;
            read' <= |sent + more| && (sent + more)[read'..] == AfterReading(sent[read..], one) + more
  {
  }

  lemma OrchestratorCarries(size: Sizes, stage: Stage, l: Link, e: LinkEvent, x: Exchange)
    requires Carries(l, x) && OrchestratorStep(size, stage, l, e).Some? && !ByGenerator(e)
    ensures Carries(OrchestratorStep(size, stage, l, e).value, Continue(x, e))
  {
    OrchestratorMoves(size, stage, l, e);
    OrchestratorAnswersNothing(e, if x.heard == 0 && x.told != [] then Some(x.told[0]) else None);
    hide OrchestratorStep, Tells, Answers, ByGenerator;
    QueueMoves(x.told, x.heard, false, Tells(e));
    QueueMoves(x.answered, x.understood, e.OrchestratorDecodes?, []);
    hide AfterReading;
    assert AfterReading(l.toGen.unread, false) == l.toGen.unread by { NothingRead(l.toGen.unread); }
  }

  lemma NothingRead(unread: seq<Message>)
    ensures AfterReading(unread, false) == unread
  {
  }

  lemma OrchestratorAnswersNothing(e: LinkEvent, heard: Option<Message>)
    requires !ByGenerator(e)
    ensures Answers(e, heard) == [] && !e.GeneratorDecodes?
  {
  }

  lemma GeneratorTellsNothing(e: LinkEvent)
    requires ByGenerator(e)
    ensures Tells(e) == [] && !e.OrchestratorDecodes?
  {
  }

  lemma GeneratorMoves(size: Sizes, l: Link, e: LinkEvent)
    requires GeneratorStep(size, l, e).Some?
    ensures var l' := GeneratorStep(size, l, e).value;
            && l'.toGen.unread == AfterReading(l.toGen.unread, e.GeneratorDecodes?)
            && l'.toOrch.unread
               == l.toOrch.unread + Answers(e, if l.gen == AwaitConfig && l.toGen.unread != [] then Some(l.toGen.unread[0]) else None)
            && (e.GeneratorDecodes? ==> l.toGen.unread != [] && l.gen in {AwaitConfig, AwaitCommand})
            && (l'.gen == AwaitConfig ==> l.gen == AwaitConfig && !e.GeneratorDecodes?)
            && (l'.gen in {Preparing, ReadySent, AwaitCommand} ==>
                  if e.GeneratorDecodes? then l.gen == AwaitConfig else l.gen in {Preparing, ReadySent, AwaitCommand})
  {
    hide Bytes;
  }

  lemma GeneratorCarries(size: Sizes, l: Link, e: LinkEvent, x: Exchange)
    requires Carries(l, x) && GeneratorStep(size, l, e).Some? && ByGenerator(e)
    ensures Carries(GeneratorStep(size, l, e).value, Continue(x, e))
  {
    GeneratorMoves(size, l, e);
    GeneratorTellsNothing(e);
    hide GeneratorStep, Tells, ByGenerator, Answers;
    var first := if x.heard == 0 && x.told != [] then Some(x.told[0]) else None;
    var heard := if l.gen == AwaitConfig && l.toGen.unread != [] then Some(l.toGen.unread[0]) else None;
    assert e.GeneratorDecodes? ==> first == heard;
    OnlyDecodingDependsOnHeard(e, first);
    OnlyDecodingDependsOnHeard(e, heard);
    QueueMoves(x.told, x.heard, e.GeneratorDecodes?, []);
    QueueMoves(x.answered, x.understood, false, Answers(e, first));
    hide AfterReading;
    assert AfterReading(l.toOrch.unread, false) == l.toOrch.unread by { NothingRead(l.toOrch.unread); }
  }

  lemma OnlyDecodingDependsOnHeard(e: LinkEvent, heard: Option<Message>)
    ensures !e.GeneratorDecodes? ==> Answers(e, heard) == Answers(e, None)
  {
  }

  /**
   Every connection is a queue each way: in every run with any faults, what a generator has yet to read is what
   was sent to it, in order, without the messages it has read, and likewise for its answers.
   */
  lemma {:induction false} LinksAreQueues(size: Sizes, n: nat, actions: seq<Action>, j: nat)
    requires Execute(size, n, actions).Some? && j < n
    ensures Carries(Execute(size, n, actions).value.links[j], ExchangeOf(actions, j))
  {
    hide Carries, Continue, OrchestratorStep, GeneratorStep;
    if actions != [] {
      var init, a := actions[..|actions| - 1], actions[|actions| - 1];
      LinksAreQueues(size, n, init, j);
      var s := Execute(size, n, init).value;
      if a.On? && a.link == j {
        if ByGenerator(a.event) {
          GeneratorCarries(size, s.links[j], a.event, ExchangeOf(init, j));
        } else {
          OrchestratorCarries(size, s.stage, s.links[j], a.event, ExchangeOf(init, j));
        }
      }
    } else {
      assert Carries(Unconnected, ExchangeOf([], j)) by { NothingCarried(j); }
    }
  }

  lemma NothingCarried(j: nat)
    ensures Carries(Unconnected, ExchangeOf([], j))
  {
  }

  /** Some abort to generator `j` failed before it was configured, and did not get through either. */
  ghost predicate AbortConfigLost(actions: seq<Action>, j: nat) {
    On(j, SendAbortConfigFails(false)) in actions
  }

  /** What the state of a link says about the abort after a failed connection. */
  ghost predicate TellingOff(l: Link, told: seq<Message>, lost: bool) {
    && (l.orch == AbortPending ==> AbortConfig in told && !lost)
    && (l.orch == AbortDone ==> (AbortConfig in told <==> !lost))
    && (l.orch in {Connecting, ConnectFailed, Connected} ==> AbortConfig !in told && !lost)
  }

  lemma TellingOffStep(size: Sizes, stage: Stage, l: Link, e: LinkEvent, told: seq<Message>, lost: bool)
    requires TellingOff(l, told, lost) && LinkStep(size, stage, l, e).Some?
    ensures TellingOff(LinkStep(size, stage, l, e).value, told + Tells(e), lost || e == SendAbortConfigFails(false))
  {
    hide Fill, Decode;
  }

  lemma {:induction false} EveryRunTellsOff(size: Sizes, n: nat, actions: seq<Action>, j: nat)
    requires Execute(size, n, actions).Some? && j < n
    ensures TellingOff(Execute(size, n, actions).value.links[j], ExchangeOf(actions, j).told, AbortConfigLost(actions, j))
  {
    hide TellingOff, LinkStep, Tells, ExchangeOf, AbortConfigLost;
    if actions != [] {
      var init, a := actions[..|actions| - 1], actions[|actions| - 1];
      EveryRunTellsOff(size, n, init, j);
      var s := Execute(size, n, init).value;
      HistoryGrows(init, a, j);
      assert init + [a] == actions;
      if a.On? && a.link == j {
        TellingOffStep(size, s.stage, s.links[j], a.event, ExchangeOf(init, j).told, AbortConfigLost(init, j));
      }
    } else {
      NobodyToldOff(j);
    }
  }

  lemma HistoryGrows(actions: seq<Action>, a: Action, j: nat)
    ensures var told := ExchangeOf(actions, j).told;
            ExchangeOf(actions + [a], j).told == if a.On? && a.link == j then told + Tells(a.event) else told
    ensures AbortConfigLost(actions + [a], j) <==> AbortConfigLost(actions, j) || a == On(j, SendAbortConfigFails(false))
  {
    hide Tells, Answers;
    assert (actions + [a])[..|actions|] == actions;
  }

  lemma NobodyToldOff(j: nat)
    ensures TellingOff(Unconnected, ExchangeOf([], j).told, AbortConfigLost([], j))
  {
  }

  /**
   After a failed connection every connected generator is told to abort exactly when the loop got to all of
   them and no failed abort also failed to arrive: a failure does not end this loop.
   */
  lemma AllConnectedToldToAbortIff(size: Sizes, n: nat, actions: seq<Action>)
    requires Positive(size) && Execute(size, n, actions).Some? && Execute(size, n, actions).value.stage == AbortConnected
    ensures var s := Execute(size, n, actions).value;
            (forall j :: 0 <= j < n && s.links[j].orch != ConnectFailed ==> AbortConfig in ExchangeOf(actions, j).told)
            <==> forall j :: 0 <= j < n ==> s.links[j].orch != Connected && !AbortConfigLost(actions, j)
  {
    EveryRunKeepsInvariant(size, n, actions);
    hide Execute, AbortConfigLost, ExchangeOf, LinkInvariant;
    var s := Execute(size, n, actions).value;
    forall j | 0 <= j < n
      ensures s.links[j].orch != ConnectFailed ==>
                (AbortConfig in ExchangeOf(actions, j).told <==> s.links[j].orch != Connected && !AbortConfigLost(actions, j))
      ensures s.links[j].orch == ConnectFailed ==> !AbortConfigLost(actions, j)
    {
      EveryRunTellsOff(size, n, actions, j);
      assert StageAllows(s.stage, s.links[j]);
    }
  }

  // ---------------------------------------------------------------- what they do not guarantee

  /** The same events on one link, one after the other. */
  function LinkRun(size: Sizes, stage: Stage, l: Link, events: seq<LinkEvent>): Option<Link> {
    if events == [] then Some(l)
    else
      match LinkRun(size, stage, l, events[..|events| - 1])
      case None => None
      case Some(l') => LinkStep(size, stage, l', events[|events| - 1])
  }

  function OnAll(j: nat, events: seq<LinkEvent>): seq<Action> {
    seq(|events|, i requires 0 <= i < |events| => On(j, events[i]))
  }

  lemma OnlyAbortingGivesUp(size: Sizes, stage: Stage, l: Link, e: LinkEvent)
    requires stage != AbortConfigured && LinkStep(size, stage, l, e).Some?
    ensures !e.SendAbortRunFails?
  {
  }

  lemma {:induction false} RunOnLink(size: Sizes, n: nat, actions: seq<Action>, s: State, j: nat, events: seq<LinkEvent>, l: Link)
    requires Execute(size, n, actions) == Some(s) && s.stage != AbortConfigured
    requires j < n && LinkRun(size, s.stage, s.links[j], events) == Some(l)
    ensures Execute(size, n, actions + OnAll(j, events)) == Some(s.(links := s.links[j := l]))
  {
    hide LinkStep;
    if events == [] {
      assert actions + OnAll(j, events) == actions && s.links[j := l] == s.links;
    } else {
      var init := events[..|events| - 1];
      var l' := LinkRun(size, s.stage, s.links[j], init).value;
      RunOnLink(size, n, actions, s, j, init, l');
      OnlyAbortingGivesUp(size, s.stage, l', events[|events| - 1]);
      var all := actions + OnAll(j, events);
      assert all[..|all| - 1] == actions + OnAll(j, init);
      assert s.links[j := l'][j := l] == s.links[j := l];
    }
  }

  lemma ThenOnLink(size: Sizes, stage: Stage, l: Link, events: seq<LinkEvent>, l': Link, e: LinkEvent)
    returns (longer: seq<LinkEvent>, l'': Link)
    requires LinkRun(size, stage, l, events) == Some(l') && LinkStep(size, stage, l', e).Some?
    ensures longer == events + [e] && l'' == LinkStep(size, stage, l', e).value && LinkRun(size, stage, l, longer) == Some(l'')
  {
    longer, l'' := events + [e], LinkStep(size, stage, l', e).value;
    assert longer[..|events|] == events;
  }

  function Twelve(m: Message): nat {
    12
  }

  const ACCEPTED := Unconnected.(orch := Connected)
  const READY := Link(Configured, AwaitCommand, Clear, Clear, true, 0, false)

  lemma SendingConfig()
    ensures LinkStep(Twelve, ConfigureStage, ACCEPTED, SendConfig) == Some(Link(Configuring, AwaitConfig, Pipe([Config], 0), Clear, false, 0, false))
  {
    assert [] + [Config] == [Config];
  }

  lemma PreparingSteps()
    ensures LinkStep(Twelve, ConfigureStage, Link(Configuring, AwaitConfig, Pipe([Config], 0), Clear, false, 0, false), GeneratorReads(12))
         == Some(Link(Configuring, AwaitConfig, Pipe([Config], 12), Clear, false, 0, false))
    ensures LinkStep(Twelve, ConfigureStage, Link(Configuring, AwaitConfig, Pipe([Config], 12), Clear, false, 0, false), GeneratorDecodes(true))
         == Some(Link(Configuring, Preparing, Clear, Clear, false, 0, false))
  {
    OneMessageBytes(Twelve, [Config]);
  }

  lemma SayingReady()
    ensures LinkStep(Twelve, ConfigureStage, Link(Configuring, Preparing, Clear, Clear, false, 0, false), SetupSucceeds(true, true))
         == Some(Link(Configuring, ReadySent, Clear, Pipe([Ready], 0), true, 0, false))
  {
    assert Write(Clear, Ready) == Pipe([Ready], 0);
    hide Write;
  }

  lemma HandingOver()
    ensures LinkStep(Twelve, ConfigureStage, Link(ReadyDecoded, ReadySent, Clear, Clear, true, 0, false), OrchestratorHandsOver)
         == Some(Link(Configured, ReadySent, Clear, Clear, true, 0, false))
    ensures LinkStep(Twelve, ConfigureStage, Link(Configured, ReadySent, Clear, Clear, true, 0, false), GeneratorHandsOver) == Some(READY)
  {
    hide Decode, Fill, Write;
  }

  lemma ReadingReady()
    ensures LinkStep(Twelve, ConfigureStage, Link(Configuring, ReadySent, Clear, Pipe([Ready], 0), true, 0, false), OrchestratorReads(12))
         == Some(Link(Configuring, ReadySent, Clear, Pipe([Ready], 12), true, 0, false))
    ensures LinkStep(Twelve, ConfigureStage, Link(Configuring, ReadySent, Clear, Pipe([Ready], 12), true, 0, false), OrchestratorDecodes)
         == Some(Link(ReadyDecoded, ReadySent, Clear, Clear, true, 0, false))
  {
    OneMessageBytes(Twelve, [Ready]);
  }

  lemma GettingReady() returns (events: seq<LinkEvent>)
    ensures LinkRun(Twelve, ConfigureStage, ACCEPTED, events) == Some(READY)
  {
    hide LinkStep;
    SendingConfig();
    PreparingSteps();
    SayingReady();
    ReadingReady();
    HandingOver();
    var es1, l1 := ThenOnLink(Twelve, ConfigureStage, ACCEPTED, [], ACCEPTED, SendConfig);
    var es2, l2 := ThenOnLink(Twelve, ConfigureStage, ACCEPTED, es1, l1, GeneratorReads(12));
    var es3, l3 := ThenOnLink(Twelve, ConfigureStage, ACCEPTED, es2, l2, GeneratorDecodes(true));
    var es4, l4 := ThenOnLink(Twelve, ConfigureStage, ACCEPTED, es3, l3, SetupSucceeds(true, true));
    var es5, l5 := ThenOnLink(Twelve, ConfigureStage, ACCEPTED, es4, l4, OrchestratorReads(12));
    var es6, l6 := ThenOnLink(Twelve, ConfigureStage, ACCEPTED, es5, l5, OrchestratorDecodes);
    var es7, l7 := ThenOnLink(Twelve, ConfigureStage, ACCEPTED, es6, l6, OrchestratorHandsOver);
    var es8, l8 := ThenOnLink(Twelve, ConfigureStage, ACCEPTED, es7, l7, GeneratorHandsOver);
    events := es8;
  }

  lemma SendingStart()
    ensures LinkStep(Twelve, StartStage, READY, SendStart) == Some(Link(StartSent, AwaitCommand, Pipe([Start], 0), Clear, true, 0, false))
  {
    assert [] + [Start] == [Start];
  }

  lemma StartingSteps()
    ensures LinkStep(Twelve, StartStage, Link(StartSent, AwaitCommand, Pipe([Start], 0), Clear, true, 0, false), GeneratorReads(12))
         == Some(Link(StartSent, AwaitCommand, Pipe([Start], 12), Clear, true, 0, false))
    ensures LinkStep(Twelve, StartStage, Link(StartSent, AwaitCommand, Pipe([Start], 12), Clear, true, 0, false), GeneratorDecodes(true))
         == Some(Link(StartSent, Running, Clear, Clear, true, 0, false))
  {
    OneMessageBytes(Twelve, [Start]);
  }

  lemma Starting() returns (events: seq<LinkEvent>)
    ensures LinkRun(Twelve, StartStage, READY, events) == Some(Link(StartSent, Running, Clear, Clear, true, 0, false))
  {
    hide LinkStep;
    SendingStart();
    StartingSteps();
    var es1, l1 := ThenOnLink(Twelve, StartStage, READY, [], READY, SendStart);
    var es2, l2 := ThenOnLink(Twelve, StartStage, READY, es1, l1, GeneratorReads(12));
    var es3, l3 := ThenOnLink(Twelve, StartStage, READY, es2, l2, GeneratorDecodes(true));
    events := es3;
  }

  lemma JoinsLead(size: Sizes, n: nat, actions: seq<Action>, s: State, a: Action)
    requires Execute(size, n, actions) == Some(s)
    ensures Execute(size, n, actions + [a]) == Apply(size, s, a)
  {
    assert (actions + [a])[..|actions|] == actions;
  }

  /** The start is not all or nothing: here one of two ready generators runs, and the other was never told to. */
  lemma StartCanBePartial() returns (actions: seq<Action>)
    ensures Execute(Twelve, 2, actions).Some?
    ensures var s := Execute(Twelve, 2, actions).value;
            && s.links[0].gen == Running
            && s.links[1].gen == AwaitCommand && s.links[1].orch == CommandFailed && s.links[1].toGen == Clear
  {
    hide LinkStep, Execute;
    var s0 := Initial(2);
    assert Execute(Twelve, 2, []) == Some(s0) by { ExecuteNothing(Twelve, 2); }
    var connect := ConnectingOk();
    RunOnLink(Twelve, 2, [], s0, 0, connect, ACCEPTED);
    var s1 := s0.(links := s0.links[0 := ACCEPTED]);
    RunOnLink(Twelve, 2, [] + OnAll(0, connect), s1, 1, connect, ACCEPTED);
    var as2, s2 := [] + OnAll(0, connect) + OnAll(1, connect), State(ConnectStage, [ACCEPTED, ACCEPTED]);
    assert s1.(links := s1.links[1 := ACCEPTED]) == s2;
    JoinsLead(Twelve, 2, as2, s2, AllConnectsJoined);
    var as3 := StartingBoth(as2 + [AllConnectsJoined]);
    actions := as3;
  }

  lemma ExecuteNothing(size: Sizes, n: nat)
    ensures Execute(size, n, []) == Some(Initial(n))
  {
  }

  lemma ConnectingOk() returns (events: seq<LinkEvent>)
    ensures LinkRun(Twelve, ConnectStage, Unconnected, events) == Some(ACCEPTED)
  {
    var es, l := ThenOnLink(Twelve, ConnectStage, Unconnected, [], Unconnected, ConnectOk);
    events := es;
  }

  lemma FailingToStart() returns (events: seq<LinkEvent>)
    ensures LinkRun(Twelve, StartStage, READY, events) == Some(READY.(orch := CommandFailed))
  {
    var es, l := ThenOnLink(Twelve, StartStage, READY, [], READY, SendStartFails(false));
    events := es;
  }

  lemma StartingBoth(before: seq<Action>) returns (actions: seq<Action>)
    requires Execute(Twelve, 2, before) == Some(State(ConfigureStage, [ACCEPTED, ACCEPTED]))
    ensures Execute(Twelve, 2, actions)
         == Some(State(StartStage, [Link(StartSent, Running, Clear, Clear, true, 0, false), READY.(orch := CommandFailed)]))
  {
    hide LinkStep, Execute;
    var s0 := State(ConfigureStage, [ACCEPTED, ACCEPTED]);
    var ready := GettingReady();
    RunOnLink(Twelve, 2, before, s0, 0, ready, READY);
    var as1, s1 := before + OnAll(0, ready), State(ConfigureStage, [READY, ACCEPTED]);
    assert s0.(links := s0.links[0 := READY]) == s1;
    RunOnLink(Twelve, 2, as1, s1, 1, ready, READY);
    var as2, s2 := as1 + OnAll(1, ready), State(ConfigureStage, [READY, READY]);
    assert s1.(links := s1.links[1 := READY]) == s2;
    JoinsLead(Twelve, 2, as2, s2, AllConfiguresJoined);
    var as3, s3 := as2 + [AllConfiguresJoined], State(StartStage, [READY, READY]);
    var start := Starting();
    var fail := FailingToStart();
    var started := Link(StartSent, Running, Clear, Clear, true, 0, false);
    RunOnLink(Twelve, 2, as3, s3, 0, start, started);
    var as4, s4 := as3 + OnAll(0, start), State(StartStage, [started, READY]);
    assert s3.(links := s3.links[0 := started]) == s4;
    RunOnLink(Twelve, 2, as4, s4, 1, fail, READY.(orch := CommandFailed));
    actions := as4 + OnAll(1, fail);
    assert s4.(links := s4.links[1 := READY.(orch := CommandFailed)]) == State(StartStage, [started, READY.(orch := CommandFailed)]);
  }

  // ---------------------------------------------------------------- what can always happen

  /** The orchestrator has done what the stage asks of it on this link. */
  predicate Settled(stage: Stage, orch: Orchestrator) {
    match stage
    case ConnectStage => orch != Connecting
    case AbortConnected => orch != Connected && orch != AbortPending
    case ConfigureStage => orch == Configured || orch == ConfigureFailed
    case AbortConfigured => orch != Configured
    case StartStage => orch != Configured
    case GaveUp => true
  }

  /** What the orchestrator can do next on a link that is not settled, if the other side stays silent. */
  function NextEvent(stage: Stage, orch: Orchestrator): LinkEvent {
    match orch
    case Connecting => ConnectOk
    case Connected => if stage == AbortConnected then SendAbortConfig else SendConfig
    case ReadyDecoded => OrchestratorHandsOver
    case Configured => if stage == AbortConfigured then SendAbortRun else SendStart
    case _ => OrchestratorReceivesNothing
  }

  lemma UnsettledGoesOn(size: Sizes, stage: Stage, l: Link)
    requires StageAllows(stage, l) && !Settled(stage, l.orch)
    ensures LinkStep(size, stage, l, NextEvent(stage, l.orch)).Some?
  {
  }

  /** The stages in which the commands are sent, or the loop that sends them has been given up. */
  predicate LastStage(stage: Stage) {
    stage == AbortConnected || stage == AbortConfigured || stage == StartStage || stage == GaveUp
  }

  /**
   The barriers never get stuck: in every reachable state the orchestrator can go on, without help of any
   generator, until in the last stage it has settled every link.
   */
  lemma NoDeadlock(size: Sizes, n: nat, actions: seq<Action>)
    requires Positive(size) && Execute(size, n, actions).Some?
    ensures var s := Execute(size, n, actions).value;
            || (LastStage(s.stage) && forall j :: 0 <= j < n ==> Settled(s.stage, s.links[j].orch))
            || exists a :: Apply(size, s, a).Some? && (a.On? ==> !ByGenerator(a.event))
  {
    EveryRunKeepsInvariant(size, n, actions);
    hide Execute, OrchestratorStep, GeneratorStep, LinkInvariant;
    var s := Execute(size, n, actions).value;
    if j :| 0 <= j < n && !Settled(s.stage, s.links[j].orch) {
      assert StageAllows(s.stage, s.links[j]);
      UnsettledGoesOn(size, s.stage, s.links[j]);
      assert Apply(size, s, On(j, NextEvent(s.stage, s.links[j].orch))).Some?;
    } else if s.stage == ConnectStage {
      assert Apply(size, s, AllConnectsJoined).Some?;
    } else if s.stage == ConfigureStage {
      assert Apply(size, s, AllConfiguresJoined).Some?;
    }
  }

  const TURNED_AWAY := Link(AbortDone, Stopped, Clear, Clear, false, 0, false)

  lemma SendingAbort()
    ensures LinkStep(Twelve, AbortConnected, ACCEPTED, SendAbortConfig) == Some(Link(AbortPending, AwaitConfig, Pipe([AbortConfig], 0), Clear, false, 0, false))
  {
    assert [] + [AbortConfig] == [AbortConfig];
  }

  lemma AbortingSteps()
    ensures LinkStep(Twelve, AbortConnected, Link(AbortPending, AwaitConfig, Pipe([AbortConfig], 0), Clear, false, 0, false), GeneratorReads(12))
         == Some(Link(AbortPending, AwaitConfig, Pipe([AbortConfig], 12), Clear, false, 0, false))
    ensures LinkStep(Twelve, AbortConnected, Link(AbortPending, AwaitConfig, Pipe([AbortConfig], 12), Clear, false, 0, false), GeneratorDecodes(true))
         == Some(Link(AbortPending, Stopped, Clear, Pipe([Aborted], 0), false, 0, false))
  {
    OneMessageBytes(Twelve, [AbortConfig]);
    assert [] + [Aborted] == [Aborted];
  }

  lemma ReadingAborted()
    ensures LinkStep(Twelve, AbortConnected, Link(AbortPending, Stopped, Clear, Pipe([Aborted], 0), false, 0, false), OrchestratorReads(12))
         == Some(Link(AbortPending, Stopped, Clear, Pipe([Aborted], 12), false, 0, false))
    ensures LinkStep(Twelve, AbortConnected, Link(AbortPending, Stopped, Clear, Pipe([Aborted], 12), false, 0, false), OrchestratorDecodes)
         == Some(TURNED_AWAY)
  {
    OneMessageBytes(Twelve, [Aborted]);
  }

  lemma TurningAway() returns (events: seq<LinkEvent>)
    ensures LinkRun(Twelve, AbortConnected, ACCEPTED, events) == Some(TURNED_AWAY)
  {
    hide LinkStep;
    SendingAbort();
    AbortingSteps();
    ReadingAborted();
    var es1, l1 := ThenOnLink(Twelve, AbortConnected, ACCEPTED, [], ACCEPTED, SendAbortConfig);
    var es2, l2 := ThenOnLink(Twelve, AbortConnected, ACCEPTED, es1, l1, GeneratorReads(12));
    var es3, l3 := ThenOnLink(Twelve, AbortConnected, ACCEPTED, es2, l2, GeneratorDecodes(true));
    var es4, l4 := ThenOnLink(Twelve, AbortConnected, ACCEPTED, es3, l3, OrchestratorReads(12));
    var es5, l5 := ThenOnLink(Twelve, AbortConnected, ACCEPTED, es4, l4, OrchestratorDecodes);
    events := es5;
  }

  lemma FailingToConnect() returns (events: seq<LinkEvent>)
    ensures LinkRun(Twelve, ConnectStage, Unconnected, events) == Some(Unconnected.(orch := ConnectFailed))
  {
    var es, l := ThenOnLink(Twelve, ConnectStage, Unconnected, [], Unconnected, ConnectFails);
    events := es;
  }

  /** One connection fails, and the generator behind the other is told to abort, stops and says so. */
  lemma FailedConnectionAborts() returns (actions: seq<Action>)
    ensures Execute(Twelve, 2, actions) == Some(State(AbortConnected, [TURNED_AWAY, Unconnected.(orch := ConnectFailed)]))
  {
    hide LinkStep, Execute;
    var s0, lost := Initial(2), Unconnected.(orch := ConnectFailed);
    assert Execute(Twelve, 2, []) == Some(s0) by { ExecuteNothing(Twelve, 2); }
    var connect := ConnectingOk();
    var fail := FailingToConnect();
    RunOnLink(Twelve, 2, [], s0, 0, connect, ACCEPTED);
    var s1 := s0.(links := s0.links[0 := ACCEPTED]);
    RunOnLink(Twelve, 2, [] + OnAll(0, connect), s1, 1, fail, lost);
    var as2, s2 := [] + OnAll(0, connect) + OnAll(1, fail), State(ConnectStage, [ACCEPTED, lost]);
    assert s1.(links := s1.links[1 := lost]) == s2;
    assert s2.links[1] == lost && !All(s2.links, Connected);
    JoinsLead(Twelve, 2, as2, s2, AllConnectsJoined);
    var s3 := State(AbortConnected, [ACCEPTED, lost]);
    var away := TurningAway();
    RunOnLink(Twelve, 2, as2 + [AllConnectsJoined], s3, 0, away, TURNED_AWAY);
    actions := as2 + [AllConnectsJoined] + OnAll(0, away);
    assert s3.(links := s3.links[0 := TURNED_AWAY]) == State(AbortConnected, [TURNED_AWAY, lost]);
  }
}
