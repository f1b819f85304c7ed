/** Virtual users: one setup, then one request per transaction (src/virtual_user/user.rs). */
module VirtualUser {
  import opened Arithmetic
  import opened Wrappers
  import opened Reports
  import opened Script

  /** How executing a request ends, and what the script's `extract` function left in the store. */
  datatype Execution =
    | Completed(store: Store)
    | BadUrl
    | SendTimedOut
    | SendFailed
    | BadStatus
    | ExtractFailed(store: Store)

  /** The system under test: how the n-th request of a user ends. */
  type Environment = (nat, nat, Store) -> Execution

  function StoreAfter(e: Execution, store: Store): Store {
    if e.Completed? || e.ExtractFailed? then e.store else store
  }

  // ---------------------------------------------------------------- one transaction

  /** The class a transaction is logged under, and the spec it sent if there was one. */
  datatype Outcome = Outcome(class_: Class, id: Option<nat>)

  function MapExecution(e: Execution): Class {
    match e
    case Completed(_) => Succeeded
    case SendTimedOut => TimedOut
    case SendFailed => Erred
    case BadStatus => Erred
    case ExtractFailed(_) => Erred
    case BadUrl => WasDropped
  }

  /** A user between transactions. */
  datatype Position = Position(cursor: nat, store: Store)

  function Transact(specs: seq<LuaSpec>, depth: nat, env: Environment, n: nat, at: Position): (Position, Outcome)
    requires at.cursor < |specs|
  {
    var (store, r) := NextSpec(specs, at.cursor, at.store, depth);
    if !r.Found? then (Position(at.cursor, store), Outcome(WasDropped, None))
    else
      var e := env(n, r.spec, store);
      var cursor := if e.Completed? then (r.index + 1) % |specs| else at.cursor;
      (Position(cursor, StoreAfter(e, store)), Outcome(MapExecution(e), Some(r.index)))
  }

  // ---------------------------------------------------------------- any number of transactions

  /** The user after `n` transactions. */
  function After(specs: seq<LuaSpec>, depth: nat, env: Environment, start: Position, n: nat): (at: Position)
    requires start.cursor < |specs|
    ensures at.cursor < |specs|
  {
    if n == 0 then start else Transact(specs, depth, env, n - 1, After(specs, depth, env, start, n - 1)).0
  }

  /** The outcome of the n-th transaction. */
  function OutcomeAt(specs: seq<LuaSpec>, depth: nat, env: Environment, start: Position, n: nat): Outcome
    requires start.cursor < |specs|
  {
    Transact(specs, depth, env, n, After(specs, depth, env, start, n)).1
  }

  /** How many of the first `n` transactions are logged under a class. */
  function LoggedAs(c: Class, specs: seq<LuaSpec>, depth: nat, env: Environment, start: Position, n: nat): nat
    requires start.cursor < |specs|
  {
    if n == 0 then 0
    else LoggedAs(c, specs, depth, env, start, n - 1) + if OutcomeAt(specs, depth, env, start, n - 1).class_ == c then 1 else 0
  }

  function Successes(specs: seq<LuaSpec>, depth: nat, env: Environment, start: Position, n: nat): nat
    requires start.cursor < |specs|
  {
    LoggedAs(Succeeded, specs, depth, env, start, n)
  }

  /** How the request of the n-th transaction ended; no request is made if the script yields no spec. */
  function RequestAt(specs: seq<LuaSpec>, depth: nat, env: Environment, start: Position, n: nat): Option<Execution>
    requires start.cursor < |specs|
  {
    var before := After(specs, depth, env, start, n);
    var (store, r) := NextSpec(specs, before.cursor, before.store, depth);
    if r.Found? then Some(env(n, r.spec, store)) else None
  }

  /** The ways of ending that belong to a class. */
  predicate EndsAs(request: Option<Execution>, c: Class) {
    match c
    case Succeeded => request.Some? && request.value.Completed?
    case TimedOut => request == Some(SendTimedOut)
    case Erred => request == Some(SendFailed) || request == Some(BadStatus) || (request.Some? && request.value.ExtractFailed?)
    case WasDropped => request == None || request == Some(BadUrl)
  }

  /** How many of the first `n` requests ended in one of the ways of a class. */
  function EndedAs(c: Class, specs: seq<LuaSpec>, depth: nat, env: Environment, start: Position, n: nat): nat
    requires start.cursor < |specs|
  {
    if n == 0 then 0
    else EndedAs(c, specs, depth, env, start, n - 1) + if EndsAs(RequestAt(specs, depth, env, start, n - 1), c) then 1 else 0
  }

  /**
   A transaction is logged under the class that its request ended as, with the spec it was about. The store is
   left as resolving the spec left it, or as the script's `extract` did if it ran.
   */
  lemma OutcomeIsHowItEnded(specs: seq<LuaSpec>, depth: nat, env: Environment, start: Position, n: nat)
    requires start.cursor < |specs|
    ensures var o, request := OutcomeAt(specs, depth, env, start, n), RequestAt(specs, depth, env, start, n);
            && (forall c :: o.class_ == c <==> EndsAs(request, c))
            && (o.id.Some? <==> request.Some?)
    ensures var before, after := After(specs, depth, env, start, n), After(specs, depth, env, start, n + 1);
            var request := RequestAt(specs, depth, env, start, n);
            after.store == if request.Some? && (request.value.Completed? || request.value.ExtractFailed?) then request.value.store
                           else NextSpec(specs, before.cursor, before.store, depth).0
  {
  }

  /** Over any number of transactions each class counts exactly the requests that ended as it says. */
  lemma {:induction false} ClassesCountRequests(c: Class, specs: seq<LuaSpec>, depth: nat, env: Environment, start: Position, n: nat)
    requires start.cursor < |specs|
    ensures LoggedAs(c, specs, depth, env, start, n) == EndedAs(c, specs, depth, env, start, n)
  {
    hide OutcomeAt, RequestAt, EndsAs, After;
    if n > 0 {
      ClassesCountRequests(c, specs, depth, env, start, n - 1);
      OutcomeIsHowItEnded(specs, depth, env, start, n - 1);
    }
  }

  /** A success moves the cursor past the spec that was sent; anything else leaves it where it was. */
  lemma OnlySuccessMovesCursor(specs: seq<LuaSpec>, depth: nat, env: Environment, start: Position, n: nat)
    requires start.cursor < |specs|
    ensures var before, after := After(specs, depth, env, start, n), After(specs, depth, env, start, n + 1);
            var o := OutcomeAt(specs, depth, env, start, n);
            && (o.class_ != Succeeded ==> after.cursor == before.cursor)
            && (o.class_ == Succeeded ==> o.id.Some? && o.id.value < |specs| && after.cursor == (o.id.value + 1) % |specs|)
  {
    var before := After(specs, depth, env, start, n);
    FoundIsInRange(specs, before.cursor, before.store, depth);
  }

  ghost predicate AllStatic(specs: seq<LuaSpec>) {
    forall i :: 0 <= i < |specs| ==> specs[i].kind.Static?
  }

  lemma StaticSendsCursor(specs: seq<LuaSpec>, depth: nat, env: Environment, n: nat, at: Position)
    requires at.cursor < |specs| && AllStatic(specs)
    ensures Transact(specs, depth, env, n, at).1.id == Some(at.cursor)
  {
  }

  /** In an all-static script the n-th transaction sends the spec that its earlier successes lead to. */
  lemma {:induction false} StaticScriptsCycle(specs: seq<LuaSpec>, depth: nat, env: Environment, store: Store, n: nat)
    requires specs != [] && AllStatic(specs)
    ensures var start := Position(0, store);
            && After(specs, depth, env, start, n).cursor == Successes(specs, depth, env, start, n) % |specs|
            && OutcomeAt(specs, depth, env, start, n).id == Some(Successes(specs, depth, env, start, n) % |specs|)
  {
    hide Transact, AllStatic;
    var start := Position(0, store);
    StaticSendsCursor(specs, depth, env, n, After(specs, depth, env, start, n));
    if n > 0 {
      StaticScriptsCycle(specs, depth, env, store, n - 1);
      hide After, OutcomeAt;
      OnlySuccessMovesCursor(specs, depth, env, start, n - 1);
      NextInCycle(Successes(specs, depth, env, start, n - 1), |specs|);
    }
  }

  lemma NextInCycle(k: nat, len: nat)
    requires len > 0
    ensures (k % len + 1) % len == (k + 1) % len
  {
    var q, r := k / len, k % len;
    assert k == len * q + r;
    if r + 1 < len {
      DivisionIsUnique(k + 1, len, q, r + 1);
    } else {
      assert len * (q + 1) == len * q + len;
      DivisionIsUnique(k + 1, len, q + 1, 0);
    }
  }

  // ---------------------------------------------------------------- setup

  datatype SetupOutcome =
    | SetUp                     // ready for transactions
    | SpecError(error: Resolved)
    | RequestError(id: nat, execution: Execution)
    | StillRunning              // the patience of the caller is used up

  /** How a setup ends, the specs it sent, and where it leaves cursor and store. */
  datatype SetupRun = SetupRun(outcome: SetupOutcome, issued: seq<nat>, cursor: nat, store: Store)

  /** The setup from `cursor` on; the next request is the n-th. */
  function RunSetup(specs: seq<LuaSpec>, depth: nat, env: Environment, n: nat, cursor: nat, store: Store, patience: nat): SetupRun
    decreases patience
  {
    if patience == 0 then SetupRun(StillRunning, [], cursor, store)
    else if cursor >= |specs| then SetupRun(SetUp, [], cursor, store)
    else
      var (resolved, r) := NextSpec(specs, cursor, store, depth);
      if !r.Found? then SetupRun(SpecError(r), [], cursor, resolved)
      else
        var e := env(n, r.spec, resolved);
        if !e.Completed? then SetupRun(RequestError(r.index, e), [r.index], r.index + 1, StoreAfter(e, resolved))
        else Prepend([r.index], RunSetup(specs, depth, env, n + 1, r.index + 1, e.store, patience - 1))
  }

  function Prepend(issued: seq<nat>, run: SetupRun): SetupRun {
    run.(issued := issued + run.issued)
  }

  lemma PrependTwice(first: seq<nat>, second: seq<nat>, run: SetupRun)
    ensures Prepend(first, Prepend(second, run)) == Prepend(first + second, run)
    ensures Prepend([], run) == run
  {
    assert first + (second + run.issued) == first + second + run.issued;
  }

  lemma PrependEnds(first: seq<nat>, outcome: SetupOutcome, last: seq<nat>, cursor: nat, store: Store)
    ensures Prepend(first, SetupRun(outcome, last, cursor, store)) == SetupRun(outcome, first + last, cursor, store)
    ensures last == [] ==> first + last == first
  {
  }

  /** A setup that ends does not depend on how long one was ready to wait. */
  lemma {:induction false} PatienceDoesNotMatter(specs: seq<LuaSpec>, depth: nat, env: Environment,
                                                 n: nat, cursor: nat, store: Store, patience: nat, more: nat)
    requires patience <= more && RunSetup(specs, depth, env, n, cursor, store, patience).outcome != StillRunning
    ensures RunSetup(specs, depth, env, n, cursor, store, more) == RunSetup(specs, depth, env, n, cursor, store, patience)
    decreases patience
  {
    if cursor < |specs| {
      var (resolved, r) := NextSpec(specs, cursor, store, depth);
      if r.Found? {
        var e := env(n, r.spec, resolved);
        if e.Completed? {
          PatienceDoesNotMatter(specs, depth, env, n + 1, r.index + 1, e.store, patience - 1, more - 1);
        }
      }
    }
  }

  /** No spec of the phase jumps, whatever the store. */
  ghost predicate JumpFree(specs: seq<LuaSpec>) {
    forall i, s: Store :: 0 <= i < |specs| && specs[i].kind.Dynamic? ==> !specs[i].kind.call(s).1.Jump?
  }

  lemma JumpFreeStaysPut(specs: seq<LuaSpec>, cursor: nat, store: Store, depth: nat)
    requires cursor < |specs| && JumpFree(specs)
    ensures var r := NextSpec(specs, cursor, store, depth).1; r.Found? ==> r.index == cursor
  {
  }

  /** What goes wrong with spec `i` as the n-th request, if anything. */
  function FailureAt(specs: seq<LuaSpec>, depth: nat, env: Environment, n: nat, i: nat, store: Store): Option<SetupOutcome>
    requires i < |specs|
  {
    var (resolved, r) := NextSpec(specs, i, store, depth);
    if !r.Found? then Some(SpecError(r))
    else
      var e := env(n, r.spec, resolved);
      if e.Completed? then None else Some(RequestError(i, e))
  }

  /** The store before spec `i`, when the specs are sent one after the other, the first as request 0. */
  function StoreBefore(specs: seq<LuaSpec>, depth: nat, env: Environment, store: Store, i: nat): Store
    requires i <= |specs|
  {
    if i == 0 then store
    else
      var (resolved, r) := NextSpec(specs, i - 1, StoreBefore(specs, depth, env, store, i - 1), depth);
      if r.Found? then StoreAfter(env(i - 1, r.spec, resolved), resolved) else resolved
  }

  /** Spec `i` fails when its turn comes, and how. */
  function FailureInTurn(specs: seq<LuaSpec>, depth: nat, env: Environment, store: Store, i: nat): Option<SetupOutcome>
    requires i < |specs|
  {
    FailureAt(specs, depth, env, i, i, StoreBefore(specs, depth, env, store, i))
  }

  function UpTo(n: nat): seq<nat> {
    Between(0, n)
  }

  function Between(a: nat, b: nat): seq<nat>
    decreases if a < b then b - a else 0
  {
    if a >= b then [] else [a] + Between(a + 1, b)
  }

  /** The specs sent by a setup whose first failure is at `k`. */
  function SentBefore(a: nat, k: nat, failure: Option<SetupOutcome>): seq<nat> {
    Between(a, k) + if failure.Some? && failure.value.RequestError? then [k] else []
  }

  /**
   Without jumps, and with patience for more requests than there are specs: if no spec fails in its
   turn, all are sent once each, in order, and the user is set up; otherwise the specs before the first
   failure are sent, and exactly that failure is reported.
   */
  lemma JumpFreeSetup(specs: seq<LuaSpec>, depth: nat, env: Environment, store: Store, patience: nat, k: nat)
    requires JumpFree(specs) && k <= |specs| < patience
    requires forall i :: 0 <= i < k ==> FailureInTurn(specs, depth, env, store, i) == None
    requires k < |specs| ==> FailureInTurn(specs, depth, env, store, k).Some?
    ensures var run := RunSetup(specs, depth, env, 0, 0, store, patience);
            && (k == |specs| ==> run.outcome == SetUp && run.issued == UpTo(|specs|))
            && (k < |specs| ==>
                  var failure := FailureInTurn(specs, depth, env, store, k);
                  run.outcome == failure.value && run.issued == SentBefore(0, k, failure))
  {
    JumpFreeSetupFrom(specs, depth, env, store, patience, k, 0);
  }

  lemma {:induction false} JumpFreeSetupFrom(specs: seq<LuaSpec>, depth: nat, env: Environment, store: Store,
                                             patience: nat, k: nat, i: nat)
    requires JumpFree(specs) && i <= k <= |specs| < patience + i
    requires forall j :: i <= j < k ==> FailureInTurn(specs, depth, env, store, j) == None
    requires k < |specs| ==> FailureInTurn(specs, depth, env, store, k).Some?
    ensures var run := RunSetup(specs, depth, env, i, i, StoreBefore(specs, depth, env, store, i), patience);
            && (k == |specs| ==> run.outcome == SetUp && run.issued == Between(i, |specs|))
            && (k < |specs| ==>
                  var failure := FailureInTurn(specs, depth, env, store, k);
                  run.outcome == failure.value && run.issued == SentBefore(i, k, failure))
    decreases k - i
  {
    hide NextSpec, JumpFree;
    if i < |specs| {
      JumpFreeStaysPut(specs, i, StoreBefore(specs, depth, env, store, i), depth);
      if i < k {
        assert FailureInTurn(specs, depth, env, store, i) == None;
        JumpFreeSetupFrom(specs, depth, env, store, patience - 1, k, i + 1);
      }
    }
  }

  // ---------------------------------------------------------------- a revert that does not repeat

  /** Jumps to "a" at first and to "b" once it has been called. */
  function FirstAThenB(): SpecType {
    Dynamic((s: Store) => if "called" in s then (s, Jump("b")) else (s["called" := ""], Jump("a")))
  }

  /**
   A run in which a revert does not repeat the spec: the first transaction fails and is reverted, its
   function has changed the store, and the next transaction sends another spec.
   */
  lemma RevertCanChangeTheSpec(env: Environment)
    requires forall n, spec, s :: env(n, spec, s) == SendFailed
    ensures var specs := [LuaSpec(None, FirstAThenB()), LuaSpec(Some("a"), Static(1)), LuaSpec(Some("b"), Static(2))];
            var start := Position(0, map[]);
            && OutcomeAt(specs, 1, env, start, 0) == Outcome(Erred, Some(1))
            && After(specs, 1, env, start, 1).cursor == 0
            && OutcomeAt(specs, 1, env, start, 1) == Outcome(Erred, Some(2))
  {
    var specs := [LuaSpec(None, FirstAThenB()), LuaSpec(Some("a"), Static(1)), LuaSpec(Some("b"), Static(2))];
    var start, store := Position(0, map[]), map["called" := ""];
    assert "a"[0] == 'a' && "b"[0] == 'b';
    assert LastNamed(specs, "a", 1) && LastNamed(specs, "b", 2);
    LastNamedIsUnique(specs, "a", 1);
    LastNamedIsUnique(specs, "b", 2);
    assert NextSpec(specs, 0, map[], 1) == (store, Found(1, 1));
    assert NextSpec(specs, 0, store, 1) == (store, Found(2, 2));
    assert After(specs, 1, env, start, 0) == start;
    assert After(specs, 1, env, start, 1) == Position(0, store);
  }

  // ---------------------------------------------------------------- the user

  class User {
    const runner: ScriptRunner
    const env: Environment
    var sent: nat

    ghost predicate Valid()
      reads this, runner
    {
      runner.Valid()
    }

    ghost function At(): Position
      reads this, runner
    {
      Position(runner.userCursor, runner.store)
    }

    /** What the setup still has to do. */
    ghost function RestOfSetup(patience: nat): SetupRun
      reads this, runner
    {
      RunSetup(runner.setupSpecs, runner.depth, env, sent, runner.setupCursor, runner.store, patience)
    }

    constructor (runner: ScriptRunner, env: Environment)
      requires runner.Valid()
      ensures Valid() && this.runner == runner && this.env == env && sent == 0
    {
      this.runner, this.env, sent := runner, env, 0;
    }

    /**
     Sends the setup requests. A jump may lead back, so the phase need not end: `patience` bounds
     the number of requests.
     */
    method Setup(patience: nat) returns (outcome: SetupOutcome, issued: seq<nat>)
      requires Valid()
      modifies this, runner
      ensures Valid() && runner.userCursor == old(runner.userCursor) && sent == old(sent) + |issued|
      ensures SetupRun(outcome, issued, runner.setupCursor, runner.store) == old(RestOfSetup(patience))
    {
      hide NextSpec, Prepend;
      issued := [];
      ghost var whole := RestOfSetup(patience);
      PrependTwice([], [], whole);
      while |issued| < patience
        invariant Valid() && runner.userCursor == old(runner.userCursor) && |issued| <= patience
        invariant sent == old(sent) + |issued|
        invariant Prepend(issued, RestOfSetup(patience - |issued|)) == whole
        decreases patience - |issued|
      {
        ghost var before := issued;
        var step := runner.NextSetupSpec();
        match step
        case Exhausted =>
          PrependEnds(issued, SetUp, [], runner.setupCursor, runner.store);
          return SetUp, issued;
        case SetupFailed(e) =>
          PrependEnds(issued, SpecError(e), [], runner.setupCursor, runner.store);
          return SpecError(e), issued;
        case Yielded(id, spec) =>
          var execution := env(sent, spec, runner.store);
          sent := sent + 1;
          issued := issued + [id];
          runner.store := StoreAfter(execution, runner.store);
          if !execution.Completed? {
            PrependEnds(before, RequestError(id, execution), [id], runner.setupCursor, runner.store);
            return RequestError(id, execution), issued;
          }
          PrependTwice(before, [id], RestOfSetup(patience - |issued|));
      }
      PrependEnds(issued, StillRunning, [], runner.setupCursor, runner.store);
      outcome := StillRunning;
    }

    /** One transaction: takes the next spec, sends it, and puts the cursor back unless it succeeded. */
    method SendNextRequest() returns (outcome: Outcome)
      requires Valid()
      modifies this, runner
      ensures Valid()
      ensures (At(), outcome) == Transact(runner.userSpecs, runner.depth, env, old(sent), old(At())) && sent == old(sent) + 1
    {
      var n := sent;
      sent := sent + 1;
      var step := runner.NextUserSpec();
      match step
      case UserFailed(_) =>
        outcome := Outcome(WasDropped, None);
      case Ready(revert, id, spec) =>
        var execution := env(n, spec, runner.store);
        runner.store := StoreAfter(execution, runner.store);
        if !execution.Completed? {
          runner.Revert(revert);
        }
        outcome := Outcome(MapExecution(execution), Some(id));
    }
  }
}
